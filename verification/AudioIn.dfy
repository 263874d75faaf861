/**
  The pace of the input stream: each read sleeps so long that the reads together last as
  long as the audio they return, times in microseconds.
 */
module AudioIn {
  import opened IntMath

  /** Nominal duration of a read, truncated twice. */
  function Duration(bytes: nat, frameSize: nat, rate: nat): nat
    requires frameSize > 0 && rate > 0
  {
    bytes * 1_000_000 / frameSize / rate
  }

  /** When the simulated buffer is drained by a read at `now` that lasts `d`; 0 is standby. */
  function Drain(last: int, now: int, d: nat): int {
    if last == 0 || last + d > now then (if last == 0 then now else last) + d else now
  }

  class StreamIn {
    var lastReadTimeUs: int
    var sampleRate: nat

    constructor (sampleRate: nat)
      ensures lastReadTimeUs == 0 && this.sampleRate == if sampleRate == 0 then 48000 else sampleRate
    {
      lastReadTimeUs := 0;
      this.sampleRate := if sampleRate == 0 then 48000 else sampleRate;
    }

    method Standby()
      modifies this`lastReadTimeUs
      ensures lastReadTimeUs == 0
    {
      lastReadTimeUs := 0;
    }

    /** `now` is the clock at the call; the thread sleeps for `slept`. */
    method Read(now: int, bytes: nat, frameSize: nat) returns (ret: nat, slept: nat)
      requires frameSize > 0 && sampleRate > 0
      modifies this`lastReadTimeUs
      ensures ret == bytes
      ensures lastReadTimeUs == Drain(old(lastReadTimeUs), now, Duration(bytes, frameSize, sampleRate))
      ensures lastReadTimeUs == now + slept
    {
      var standby := lastReadTimeUs == 0;
      var elapsed := if standby then 0 else now - lastReadTimeUs;
      var sleepTime := bytes * 1_000_000 / frameSize / sampleRate - elapsed;
      if sleepTime > 0 {
        slept := sleepTime;
      } else {
        sleepTime := 0;
        slept := 0;
      }
      lastReadTimeUs := now + sleepTime;
      ret := bytes;
    }
  }

  // -------------------------------------------------- runs of reads

  datatype ReadCall = ReadCall(now: int, d: nat)

  /** The clock is positive and never goes back. */
  ghost predicate IsRun(calls: seq<ReadCall>) {
    && (forall i | 0 <= i < |calls| :: calls[i].now > 0)
    && (forall i, j | 0 <= i <= j < |calls| :: calls[i].now <= calls[j].now)
  }

  /** The drain time after the reads 0..k, the first of which leaves standby. */
  function DrainAt(calls: seq<ReadCall>, k: nat): int
    requires k < |calls|
  {
    Drain(if k == 0 then 0 else DrainAt(calls, k - 1), calls[k].now, calls[k].d)
  }

  /** Sum of the durations of the reads lo, ..., hi - 1. */
  function Total(calls: seq<ReadCall>, lo: nat, hi: nat): nat
    requires lo <= hi <= |calls|
    decreases hi
  {
    if lo == hi then 0 else Total(calls, lo, hi - 1) + calls[hi - 1].d
  }

  /** A schedule that was restarted at read `j`: the call time of `j` and the durations after it. */
  function Restarted(calls: seq<ReadCall>, j: nat, k: nat): int
    requires j <= k < |calls|
  {
    calls[j].now + if j == 0 then Total(calls, 0, k + 1) else Total(calls, j + 1, k + 1)
  }

  /** The drain time is the latest of the schedules restarted at each read so far. */
  lemma {:induction false} DrainIsMaxPlus(calls: seq<ReadCall>, k: nat) returns (best: nat)
    requires k < |calls| && IsRun(calls)
    ensures forall j | 0 <= j <= k :: Restarted(calls, j, k) <= DrainAt(calls, k)
    ensures best <= k && DrainAt(calls, k) == Restarted(calls, best, k)
    ensures DrainAt(calls, k) > 0
  {
    if k == 0 {
      best := 0;
      assert Total(calls, 0, 1) == calls[0].d;
    } else {
      var before := DrainIsMaxPlus(calls, k - 1);
      assert forall j | 0 <= j < k :: Restarted(calls, j, k) == Restarted(calls, j, k - 1) + calls[k].d;
      best := if DrainAt(calls, k - 1) + calls[k].d > calls[k].now then before else k;
    }
  }

  /** A read is late if it is called after the time the reads up to it should have lasted. */
  predicate Late(calls: seq<ReadCall>, j: nat)
    requires j < |calls|
  {
    calls[j].now > calls[0].now + Total(calls, 0, j + 1)
  }

  lemma {:induction false} TotalSplits(calls: seq<ReadCall>, a: nat, b: nat, c: nat)
    requires a <= b <= c <= |calls|
    ensures Total(calls, a, c) == Total(calls, a, b) + Total(calls, b, c)
    decreases c
  {
    if b < c {
      TotalSplits(calls, a, b, c - 1);
    }
  }

  /** The reads together never last shorter than their audio, and exactly as long if and only if
      none of them is late. */
  lemma PaceIsExactIffNoneLate(calls: seq<ReadCall>, k: nat)
    requires k < |calls| && IsRun(calls)
    ensures DrainAt(calls, k) >= calls[0].now + Total(calls, 0, k + 1)
    ensures DrainAt(calls, k) == calls[0].now + Total(calls, 0, k + 1) <==> forall j | 0 <= j <= k :: !Late(calls, j)
  {
    var best := DrainIsMaxPlus(calls, k);
    assert Restarted(calls, 0, k) <= DrainAt(calls, k);
    forall j | 0 <= j <= k
      ensures j > 0 ==> (Restarted(calls, j, k) > calls[0].now + Total(calls, 0, k + 1) <==> Late(calls, j))
    {
      TotalSplits(calls, 0, j + 1, k + 1);
    }
    forall j | 0 <= j <= k && Late(calls, j) ensures DrainAt(calls, k) > calls[0].now + Total(calls, 0, k + 1) {
      assert Restarted(calls, j, k) <= DrainAt(calls, k);
    }
  }

  // -------------------------------------------------- truncation

  lemma DivBounds(a: nat, b: nat)
    requires b > 0
    ensures a / b * b <= a < (a / b + 1) * b
  {
    assert a == b * (a / b) + a % b;
  }

  /** Truncating twice loses less than one microsecond of a read. */
  lemma DurationBounds(bytes: nat, frameSize: nat, rate: nat)
    requires frameSize > 0 && rate > 0
    ensures var d := Duration(bytes, frameSize, rate);
      d * (frameSize * rate) <= bytes * 1_000_000 < (d + 1) * (frameSize * rate)
  {
    var us := bytes * 1_000_000;
    var q := us / frameSize;
    var d := q / rate;
    DivBounds(us, frameSize);
    DivBounds(q, rate);
    MulMono(frameSize, d * rate, q);
    MulMono(frameSize, q + 1, (d + 1) * rate);
    assert frameSize * (d * rate) == d * (frameSize * rate);
    assert frameSize * ((d + 1) * rate) == (d + 1) * (frameSize * rate);
    assert frameSize * q == q * frameSize && frameSize * (q + 1) == (q + 1) * frameSize;
  }

  function SumBytes(sizes: seq<nat>): nat {
    if sizes == [] then 0 else SumBytes(sizes[..|sizes| - 1]) + sizes[|sizes| - 1]
  }

  function SumDurations(sizes: seq<nat>, frameSize: nat, rate: nat): nat
    requires frameSize > 0 && rate > 0
  {
    if sizes == [] then 0
    else SumDurations(sizes[..|sizes| - 1], frameSize, rate) + Duration(sizes[|sizes| - 1], frameSize, rate)
  }

  lemma DriftStep(d: nat, n: nat, us: nat, e: nat, last: nat, f: nat)
    requires d * f <= us <= (d + n) * f && e * f <= last < (e + 1) * f
    ensures (d + e) * f <= us + last < (d + e + n + 1) * f
  {
    assert (d + e) * f == d * f + e * f;
    assert (d + e + n + 1) * f == (d + n) * f + (e + 1) * f;
  }

  /** Over n > 0 reads the schedule loses less than n microseconds against the exact time. */
  lemma {:induction false} DriftIsBounded(sizes: seq<nat>, frameSize: nat, rate: nat)
    requires frameSize > 0 && rate > 0
    ensures var d := SumDurations(sizes, frameSize, rate); var us := SumBytes(sizes) * 1_000_000;
      && d * (frameSize * rate) <= us <= (d + |sizes|) * (frameSize * rate)
      && (sizes != [] ==> us < (d + |sizes|) * (frameSize * rate))
    decreases |sizes|
  {
    if sizes != [] {
      var n := |sizes| - 1;
      var init, last := sizes[..n], sizes[n];
      DriftIsBounded(init, frameSize, rate);
      DurationBounds(last, frameSize, rate);
      DriftStep(SumDurations(init, frameSize, rate), n, SumBytes(init) * 1_000_000,
                Duration(last, frameSize, rate), last * 1_000_000, frameSize * rate);
    }
  }
}
