/**
  When the vsync thread fires: each pass of its loop moves the target past the
  sampled clock in whole periods, sleeps until it, and on success fires and steps
  one period on.  Times are nanoseconds, taken as unbounded integers.
 */
module VsyncTimer {
  import opened IntMath

  /** `fired` lists the timestamps of all successful sleeps, oldest first. */
  datatype Timer = Timer(first: int, period: int, next: int, clock: int, fired: seq<int>) {

    ghost predicate InPhase(t: int)
      requires period > 0
    {
      t >= first && (t - first) % period == 0
    }

    ghost predicate AfterLastFire(t: int) {
      fired == [] || t > fired[|fired| - 1]
    }

    /** `t` is a vsync time that is neither past nor fired already. */
    ghost predicate Candidate(t: int)
      requires period > 0
    {
      InPhase(t) && t >= clock && AfterLastFire(t)
    }

    ghost predicate Valid() {
      && period > 0
      && InPhase(next)
      && AfterLastFire(next)
      && (forall i | 0 <= i < |fired| :: InPhase(fired[i]) && fired[i] <= clock)
      && (forall i, j | 0 <= i < j < |fired| :: fired[i] < fired[j])
      // no candidate lies before the target
      && (next == first || next - period < clock || (fired != [] && next - period == fired[|fired| - 1]))
    }
  }

  function Adjusted(next: int, period: int, t: int): int
    requires period > 0
  {
    if next < t then next + period * ((t - next + period - 1) / period) else next
  }

  function Advance(s: Timer, clock: int): Timer {
    s.(clock := clock)
  }

  function Adjust(s: Timer): Timer
    requires s.period > 0
  {
    s.(next := Adjusted(s.next, s.period, s.clock))
  }

  function Fire(s: Timer): Timer {
    s.(fired := s.fired + [s.next], next := s.next + s.period)
  }

  lemma AdjustedBounds(next: int, period: int, t: int)
    requires period > 0
    ensures Adjusted(next, period, t) >= t && Adjusted(next, period, t) >= next
    ensures next < t ==> Adjusted(next, period, t) < t + period
    ensures (Adjusted(next, period, t) - next) % period == 0
  {
    if next < t {
      var x := t - next + period - 1;
      var n := x / period;
      assert x == period * n + x % period;
      assert n >= 0 && period * n >= 0;
      ModUnique(period * n, period, n, 0);
    }
  }

  lemma PhaseAdds(a: int, b: int, m: int)
    requires m > 0 && a % m == 0 && b % m == 0
    ensures (a + b) % m == 0
  {
    assert a == m * (a / m) && b == m * (b / m);
    assert m * (a / m + b / m) == m * (a / m) + m * (b / m);
    ModUnique(a + b, m, a / m + b / m, 0);
  }

  /** Two vsync times are equal or at least one period apart. */
  lemma PhaseGap(s: Timer, a: int, b: int)
    requires s.period > 0 && s.InPhase(a) && s.InPhase(b) && a < b
    ensures a + s.period <= b
  {
    SameResidue(a - s.first, b - s.first, s.period);
    if b - a < s.period {
      ModUnique(b - a, s.period, 0, b - a);
    }
  }

  lemma AdvanceKeepsValid(s: Timer, clock: int)
    requires s.Valid() && clock >= s.clock
    ensures Advance(s, clock).Valid()
  {
    var s' := Advance(s, clock);
    forall i | 0 <= i < |s'.fired| ensures s'.InPhase(s'.fired[i]) {
      assert s.InPhase(s.fired[i]);
    }
  }

  lemma AdjustKeepsValid(s: Timer)
    requires s.Valid()
    ensures Adjust(s).Valid()
  {
    AdjustedBounds(s.next, s.period, s.clock);
    PhaseAdds(s.next - s.first, Adjust(s).next - s.next, s.period);
    forall i | 0 <= i < |s.fired| ensures Adjust(s).InPhase(s.fired[i]) {
      assert s.InPhase(s.fired[i]);
    }
  }

  /** The target chosen by an adjustment is the least vsync time that is neither past nor
      fired already, and it is at most one period ahead of the clock once `first` is reached. */
  lemma AdjustPicksLeast(s: Timer)
    requires s.Valid()
    ensures Adjust(s).Candidate(Adjust(s).next)
    ensures forall t | s.Candidate(t) :: Adjust(s).next <= t
    ensures Adjust(s).next <= s.clock + s.period || Adjust(s).next == s.first
  {
    AdjustKeepsValid(s);
    AdjustedBounds(s.next, s.period, s.clock);
    var s' := Adjust(s);
    forall t | s.Candidate(t) ensures s'.next <= t {
      assert s'.InPhase(t);
      if t < s'.next {
        PhaseGap(s', t, s'.next);
      }
    }
  }

  lemma FireKeepsValid(s: Timer)
    requires s.Valid() && s.clock >= s.next
    ensures Fire(s).Valid()
  {
    var s' := Fire(s);
    ModUnique(s.period, s.period, 1, 0);
    PhaseAdds(s.next - s.first, s.period, s.period);
    forall i | 0 <= i < |s'.fired| ensures s'.InPhase(s'.fired[i]) {
      if i < |s.fired| {
        assert s.InPhase(s.fired[i]);
      } else {
        assert s.InPhase(s.next);
      }
    }
  }

  // -------------------------------------------------- the loop body as the thread runs it

  /** One pass: the clock at the top, whether the sleep succeeded, and the clock after it. */
  datatype Pass = Pass(now: int, slept: bool, woke: int)

  ghost predicate Possible(s: Timer, p: Pass) {
    s.period > 0 && s.clock <= p.now <= p.woke && (p.slept ==> p.woke >= Adjusted(s.next, s.period, p.now))
  }

  function RunPass(s: Timer, p: Pass): Timer
    requires s.period > 0
  {
    var s1 := Advance(Adjust(Advance(s, p.now)), p.woke);
    if p.slept then Fire(s1) else s1
  }

  lemma PassKeepsValid(s: Timer, p: Pass)
    requires s.Valid() && Possible(s, p)
    ensures RunPass(s, p).Valid()
  {
    AdvanceKeepsValid(s, p.now);
    var s1 := Adjust(Advance(s, p.now));
    AdjustKeepsValid(Advance(s, p.now));
    AdvanceKeepsValid(s1, p.woke);
    if p.slept {
      FireKeepsValid(Advance(s1, p.woke));
    }
  }

  lemma FiredByPass(s: Timer, p: Pass)
    requires s.period > 0
    ensures var t := Adjusted(s.next, s.period, p.now);
      RunPass(s, p) == Timer(s.first, s.period, if p.slept then t + s.period else t, p.woke,
                             s.fired + if p.slept then [t] else [])
  {
  }

  // -------------------------------------------------- the loop, with other threads between

  /** The fields that other threads write under the mutex. */
  datatype Flags = Flags(started: bool, callbackSet: bool, callbackEnabled: bool)

  /** One turn of the loop.  `wake` is what the flags are when a wait on the condition ends, and
      `after` what they are when the mutex is taken again after the sleep. */
  datatype Turn = Turn(wake: Flags, pass: Pass, after: Flags)
  {
    predicate WaitEnds() {
      wake.callbackEnabled || !wake.started
    }
  }

  datatype Loop = Loop(timer: Timer, flags: Flags, running: bool, delivered: seq<int>)

  /** A disabled thread waits, and leaves the loop if it is woken to stop. */
  predicate Stops(flags: Flags, turn: Turn) {
    !flags.callbackEnabled && !turn.wake.started
  }

  function TakeTurn(s: Loop, turn: Turn): Loop
    requires s.timer.period > 0
  {
    if !s.running then s
    else if Stops(s.flags, turn) then s.(flags := turn.wake, running := false)
    else
      Loop(RunPass(s.timer, turn.pass), turn.after, true,
           s.delivered + if turn.pass.slept && turn.after.callbackSet
                         then [Adjusted(s.timer.next, s.timer.period, turn.pass.now)] else [])
  }

  ghost function LoopAt(start: Loop, turns: seq<Turn>, k: nat): (s: Loop)
    requires k <= |turns| && start.timer.period > 0
    ensures s.timer.period == start.timer.period && s.timer.first == start.timer.first
  {
    if k == 0 then start else TakeTurn(LoopAt(start, turns, k - 1), turns[k - 1])
  }

  lemma {:induction false} StoppedStays(start: Loop, turns: seq<Turn>, i: nat, j: nat)
    requires i <= j <= |turns| && start.timer.period > 0 && !LoopAt(start, turns, i).running
    ensures LoopAt(start, turns, j) == LoopAt(start, turns, i)
    decreases j
  {
    if i < j {
      StoppedStays(start, turns, i, j - 1);
    }
  }

  class VsyncThread {
    var nextVsync: int
    var period: int
    var started: bool
    var callbackSet: bool
    var callbackEnabled: bool

    function View(): Flags
      reads this
    {
      Flags(started, callbackSet, callbackEnabled)
    }

    constructor ()
      ensures View() == Flags(false, false, false)
    {
      nextVsync, period, started, callbackSet, callbackEnabled := 0, 0, false, false, false;
    }

    method Start(firstVsync: int, vsyncPeriod: int)
      modifies this
      ensures View() == old(View()).(started := true) && nextVsync == firstVsync && period == vsyncPeriod
    {
      nextVsync := firstVsync;
      period := vsyncPeriod;
      started := true;
    }

    method SetCallback(callback: bool)
      modifies this`callbackSet
      ensures View() == old(View()).(callbackSet := callback)
    {
      callbackSet := callback;
    }

    method EnableCallback(enable: bool)
      modifies this`callbackEnabled
      ensures View() == old(View()).(callbackEnabled := enable)
    {
      callbackEnabled := enable;
    }

    /** Whatever the other threads did while this one did not hold the mutex. */
    method Others(flags: Flags)
      modifies this`started, this`callbackSet, this`callbackEnabled
      ensures View() == flags
    {
      started, callbackSet, callbackEnabled := flags.started, flags.callbackSet, flags.callbackEnabled;
    }

    /** The wait at the top of the loop body. */
    method WaitEnabled(turn: Turn) returns (stop: bool)
      requires turn.WaitEnds()
      modifies this`started, this`callbackSet, this`callbackEnabled
      ensures stop == Stops(old(View()), turn)
      ensures View() == if old(callbackEnabled) then old(View()) else turn.wake
    {
      if !callbackEnabled {
        Others(turn.wake);
        if !started {
          return true;
        }
      }
      return false;
    }

    /** The rest of the body; `timestamp` is what the callback receives if it is called. */
    method LoopPass(now: int, slept: bool, after: Flags) returns (called: bool, timestamp: int)
      requires period > 0
      modifies this`nextVsync, this`started, this`callbackSet, this`callbackEnabled
      ensures View() == after
      ensures called == (slept && after.callbackSet)
      ensures timestamp == Adjusted(old(nextVsync), period, now)
      ensures nextVsync == if slept then timestamp + period else timestamp
    {
      if nextVsync < now {
        var n := (now - nextVsync + period - 1) / period;
        nextVsync := nextVsync + period * n;
      }
      Others(after);
      called, timestamp := false, nextVsync;
      if slept {
        if callbackSet {
          called := true;
        }
        nextVsync := nextVsync + period;
      }
    }

    /** The loop over any number of turns, or until it stops; `delivered` is what the callbacks
        received. */
    method VsyncLoop(ghost start: Timer, turns: seq<Turn>) returns (delivered: seq<int>)
      requires start.period > 0 && start.next == nextVsync && start.period == period
      requires forall i | 0 <= i < |turns| :: turns[i].WaitEnds()
      modifies this`nextVsync, this`started, this`callbackSet, this`callbackEnabled
      ensures var end := LoopAt(Loop(start, old(View()), old(started), []), turns, |turns|);
        nextVsync == end.timer.next && View() == end.flags && delivered == end.delivered
    {
      ghost var loop := Loop(start, View(), started, []);
      delivered := [];
      if !started {
        StoppedStays(loop, turns, 0, |turns|);
        return;
      }
      var i := 0;
      while i < |turns|
        invariant 0 <= i <= |turns|
        invariant var s := LoopAt(loop, turns, i);
          s.running && nextVsync == s.timer.next && View() == s.flags && delivered == s.delivered
      {
        ghost var s := LoopAt(loop, turns, i);
        FiredByPass(s.timer, turns[i].pass);
        var stop := WaitEnabled(turns[i]);
        if stop {
          StoppedStays(loop, turns, i + 1, |turns|);
          return;
        }
        var called, timestamp := LoopPass(turns[i].pass.now, turns[i].pass.slept, turns[i].after);
        if called {
          delivered := delivered + [timestamp];
        }
        i := i + 1;
      }
    }
  }

  // -------------------------------------------------- what every turn keeps

  ghost predicate PossibleTurn(s: Loop, turn: Turn) {
    s.running && !Stops(s.flags, turn) ==> Possible(s.timer, turn.pass)
  }

  /** The delivered timestamps are an increasing selection of the fired ones. */
  ghost predicate Selected(delivered: seq<int>, fired: seq<int>) {
    && (forall i | 0 <= i < |delivered| :: delivered[i] in fired)
    && (forall i, j | 0 <= i < j < |delivered| :: delivered[i] < delivered[j])
  }

  lemma SelectMore(s: Timer, delivered: seq<int>, t: int)
    requires s.Valid() && s.AfterLastFire(t) && Selected(delivered, s.fired)
    ensures Selected(delivered, s.fired + [t]) && Selected(delivered + [t], s.fired + [t])
  {
    forall x | x in s.fired ensures x < t {
      var i :| 0 <= i < |s.fired| && s.fired[i] == x;
      assert i < |s.fired| - 1 ==> s.fired[i] < s.fired[|s.fired| - 1];
    }
    assert (s.fired + [t])[|s.fired|] == t;
  }

  lemma TurnKeepsValid(s: Loop, turn: Turn)
    requires s.timer.Valid() && Selected(s.delivered, s.timer.fired) && PossibleTurn(s, turn)
    ensures TakeTurn(s, turn).timer.Valid()
    ensures Selected(TakeTurn(s, turn).delivered, TakeTurn(s, turn).timer.fired)
  {
    if s.running && !Stops(s.flags, turn) {
      PassKeepsValid(s.timer, turn.pass);
      FiredByPass(s.timer, turn.pass);
      AdjustedBounds(s.timer.next, s.timer.period, turn.pass.now);
      SelectMore(s.timer, s.delivered, Adjusted(s.timer.next, s.timer.period, turn.pass.now));
    }
  }

  /** Every turn taken aims at the least vsync time that is neither past nor fired; it fires that
      time exactly if the sleep succeeds, and delivers it exactly if moreover a callback is set when
      the mutex is taken again.  A turn that stops the loop does neither. */
  lemma TurnDelivers(s: Loop, turn: Turn) returns (t: int)
    requires s.timer.Valid() && s.running && s.timer.clock <= turn.pass.now
    ensures var s' := TakeTurn(s, turn);
      if !s.flags.callbackEnabled && !turn.wake.started
      then !s'.running && s'.timer == s.timer && s'.delivered == s.delivered && s'.flags == turn.wake
      else
        && s'.running && s'.flags == turn.after
        && Advance(s.timer, turn.pass.now).Candidate(t)
        && (forall x | Advance(s.timer, turn.pass.now).Candidate(x) :: t <= x)
        && s'.timer.fired == s.timer.fired + (if turn.pass.slept then [t] else [])
        && s'.delivered == s.delivered + if turn.pass.slept && turn.after.callbackSet then [t] else []
  {
    t := Adjusted(s.timer.next, s.timer.period, turn.pass.now);
    AdvanceKeepsValid(s.timer, turn.pass.now);
    AdjustPicksLeast(Advance(s.timer, turn.pass.now));
    FiredByPass(s.timer, turn.pass);
    assert Adjust(Advance(s.timer, turn.pass.now)).Candidate(t);
    assert Advance(s.timer, turn.pass.now).InPhase(t);
  }

  /** In any number of turns, failed sleeps included and whatever the other threads do between,
      the fired timestamps are vsync times, strictly increasing and not ahead of the clock, the
      delivered ones are an increasing selection of them, and the target stays within a period of
      the clock. */
  lemma {:induction false} LoopKeepsValid(start: Loop, turns: seq<Turn>, k: nat)
    requires k <= |turns| && start.timer.Valid() && start.delivered == []
    requires forall i | 0 <= i < |turns| :: PossibleTurn(LoopAt(start, turns, i), turns[i])
    ensures var s := LoopAt(start, turns, k);
      && s.timer.Valid() && Selected(s.delivered, s.timer.fired)
      && (s.timer.next <= s.timer.clock + s.timer.period || s.timer.next == s.timer.first)
  {
    if k > 0 {
      LoopKeepsValid(start, turns, k - 1);
      TurnKeepsValid(LoopAt(start, turns, k - 1), turns[k - 1]);
    }
  }
}
