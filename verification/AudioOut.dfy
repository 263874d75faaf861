/**
  Output streams of the audio device, used by any number of threads: the device lock and one
  lock per stream, taken in that order, and the PCM that a stream opens when it leaves
  standby.  Every step below is one lock operation or one call made under the locks.
 */
module AudioOut {
  import opened IntMath
  import opened Wrappers

  type ThreadId = nat
  type StreamId = nat
  type PcmId = nat

  const UINT64_RANGE := 0x1_0000_0000_0000_0000

  datatype Stream = Stream(lock: Option<ThreadId>, pcm: Option<PcmId>, standby: bool, written: nat)

  datatype Job = Write(frames: nat) | Standby | Close

  /** What a thread is about to do. */
  datatype Place =
    | WantDevice | WantStream                 // lock the device, lock the stream
    | Both                                    // holding both, about to look at standby
    | Opening | Failed | Opened               // pcm_open returned; it failed; the PCM is ready
    | Writing | Exiting                       // pcm_write; release the stream
    | Closed | Closing | DeviceOnly           // pcm_close returned; release stream; release device
    | Freeing                                 // free the stream

  datatype Pc = Idle | Busy(stream: StreamId, job: Job, at: Place)
  {
    predicate HoldsDevice() {
      Busy? && (at.WantStream? || at.Both? || at.Opening? || at.Failed? || at.Opened?
                || at.Closed? || at.Closing? || at.DeviceOnly?)
    }

    predicate HoldsStream() {
      Busy? && (at.Both? || at.Opening? || at.Failed? || at.Opened? || at.Writing? || at.Exiting?
                || at.Closed? || at.Closing?)
    }

    predicate Uses(s: StreamId) {
      Busy? && stream == s
    }
  }

  /** `open` are the PCMs the driver has open, `closed` those it has closed, `log` the frames of
      every successful write. */
  datatype System = System(
    device: Option<ThreadId>,
    streams: map<StreamId, Stream>,
    threads: map<ThreadId, Pc>,
    open: set<PcmId>,
    closed: set<PcmId>,
    log: seq<(StreamId, nat)>)
  {
    function Pc(t: ThreadId): Pc {
      if t in threads then threads[t] else Idle
    }

  }

  /** What the driver answers in a step that calls it. */
  datatype Answer = Answer(pcm: Option<PcmId>, ready: bool, wrote: bool)

  datatype Action = OpenStream(s: StreamId) | Begin(t: ThreadId, s: StreamId, job: Job) | Step(t: ThreadId, answer: Answer)

  predicate Enabled(s: System, a: Action) {
    match a
    // ids name stream objects, so a freed one does not come back
    case OpenStream(id) => id !in s.streams && forall e | e in s.log :: e.0 != id
    case Begin(t, id, job) =>
      // a stream is closed only when nobody else uses it, and not used after that
      && s.Pc(t).Idle? && id in s.streams
      && forall u | u in s.threads && s.threads[u].Uses(id) :: !s.threads[u].job.Close? && !job.Close?
    case Step(t, answer) =>
      && s.Pc(t).Busy? && s.Pc(t).stream in s.streams
      && (s.Pc(t).at.WantDevice? ==> s.device.None?)
      && (s.Pc(t).at.WantStream? ==> s.streams[s.Pc(t).stream].lock.None?)
      && (answer.pcm.Some? ==> answer.pcm.value !in s.open + s.closed)
  }

  function Next(s: System, a: Action): System
    requires Enabled(s, a)
  {
    match a
    case OpenStream(id) => s.(streams := s.streams[id := Stream(None, None, true, 0)])
    case Begin(t, id, job) => s.(threads := s.threads[t := Busy(id, job, WantDevice)])
    case Step(t, answer) => StepThread(s, t, answer)
  }

  /** The parts of the system that a step of a thread may touch. */
  datatype Local = Local(pc: Pc, stream: Stream, device: Option<ThreadId>, open: set<PcmId>, closed: set<PcmId>, wrote: bool)
  {
    function At(at: Place): Local
      requires pc.Busy?
    {
      this.(pc := pc.(at := at))
    }

    function ClosePcm(): Local {
      if stream.pcm.None? then this
      else this.(open := open - {stream.pcm.value}, closed := closed + {stream.pcm.value})
    }
  }

  function LocalStep(t: ThreadId, l: Local, answer: Answer): Local
    requires l.pc.Busy?
  {
    match l.pc.at
    case WantDevice => l.(device := Some(t)).At(WantStream)
    case WantStream => l.(stream := l.stream.(lock := Some(t))).At(Both)
    case Both =>
      if l.pc.job.Write? then
        if !l.stream.standby then l.At(Opened)
        else if answer.pcm.None? then l.At(Failed)
        else l.(open := l.open + {answer.pcm.value}, stream := l.stream.(pcm := answer.pcm)).At(Opening)
      else
        if l.stream.standby then l.At(Closing) else l.ClosePcm().At(Closed)
    case Opening =>
      if answer.ready then l.(stream := l.stream.(standby := false)).At(Opened)
      else l.ClosePcm().(stream := l.stream.(pcm := None)).At(Failed)
    case Failed => l.(device := None).At(Exiting)
    case Opened => l.(device := None).At(Writing)
    case Writing =>
      if answer.wrote && l.pc.job.Write? then
        l.(wrote := true, stream := l.stream.(written := Add(l.stream.written, l.pc.job.frames))).At(Exiting)
      else l.At(Exiting)
    case Exiting => l.(stream := l.stream.(lock := None), pc := Idle)
    case Closed => l.(stream := l.stream.(pcm := None, standby := true)).At(Closing)
    case Closing => l.(stream := l.stream.(lock := None)).At(DeviceOnly)
    case DeviceOnly =>
      if l.pc.job.Close? then l.(device := None).At(Freeing) else l.(device := None, pc := Idle)
    case Freeing => l.(pc := Idle)
  }

  function LocalOf(s: System, t: ThreadId): Local
    requires s.Pc(t).Busy? && s.Pc(t).stream in s.streams
  {
    Local(s.Pc(t), s.streams[s.Pc(t).stream], s.device, s.open, s.closed, false)
  }

  function StepThread(s: System, t: ThreadId, answer: Answer): System
    requires Enabled(s, Step(t, answer))
  {
    var id := s.Pc(t).stream;
    var l := LocalStep(t, LocalOf(s, t), answer);
    System(l.device,
           if s.Pc(t).at.Freeing? then s.streams - {id} else s.streams[id := l.stream],
           s.threads[t := l.pc], l.open, l.closed,
           if l.wrote && s.Pc(t).job.Write? then s.log + [(id, s.Pc(t).job.frames)] else s.log)
  }

  function Add(written: nat, frames: nat): nat {
    (written + frames) % UINT64_RANGE
  }

  ghost predicate Initial(s: System) {
    s == System(None, map[], map[], {}, {}, [])
  }

  // -------------------------------------------------- locks

  predicate PlaceFitsJob(pc: Pc) {
    pc.Busy? ==>
      match pc.at
      case WantDevice => true
      case WantStream => true
      case Both => true
      case Opening => pc.job.Write?
      case Failed => pc.job.Write?
      case Opened => pc.job.Write?
      case Writing => pc.job.Write?
      case Exiting => pc.job.Write?
      case Closed => !pc.job.Write?
      case Closing => !pc.job.Write?
      case DeviceOnly => !pc.job.Write?
      case Freeing => pc.job.Close?
  }

  ghost predicate ThreadsFit(s: System) {
    forall t | t in s.threads :: PlaceFitsJob(s.threads[t]) && (s.threads[t].Busy? ==> s.threads[t].stream in s.streams)
  }

  ghost predicate DeviceMatches(s: System) {
    && (forall t | t in s.threads :: s.threads[t].HoldsDevice() <==> s.device == Some(t))
    && (s.device.Some? ==> s.device.value in s.threads)
  }

  ghost predicate StreamsMatch(s: System)
    requires ThreadsFit(s)
  {
    && (forall t | t in s.threads && s.threads[t].Busy? ::
          s.threads[t].HoldsStream() <==> s.streams[s.threads[t].stream].lock == Some(t))
    && (forall id | id in s.streams && s.streams[id].lock.Some? ::
          s.streams[id].lock.value in s.threads && s.threads[s.streams[id].lock.value].Uses(id))
  }

  ghost predicate ClosersAlone(s: System) {
    forall t, u | t in s.threads && u in s.threads && t != u && s.threads[t].Busy? && s.threads[t].job.Close? ::
      !s.threads[u].Uses(s.threads[t].stream)
  }

  /** Each lock is held by exactly the thread whose place says so, and a closing thread is alone. */
  ghost predicate LocksMatch(s: System) {
    ThreadsFit(s) && DeviceMatches(s) && StreamsMatch(s) && ClosersAlone(s)
  }

  /** Who holds a lock after thread `t` moved, given who held it before. */
  predicate LockMoves(before: Option<ThreadId>, after: Option<ThreadId>, t: ThreadId, held: bool, holds: bool) {
    if held == holds then after == before
    else if holds then before.None? && after == Some(t)
    else after.None?
  }

  /** `s'` is `s` with thread `t` moved to `pc`, and the locks of the device and of its stream
      moved along. */
  ghost predicate ThreadMoves(s: System, s': System, t: ThreadId, pc: Pc) {
    && t in s.threads && s.threads[t].Busy? && PlaceFitsJob(pc)
    && (pc.Busy? ==> pc.stream == s.threads[t].stream && pc.job == s.threads[t].job)
    && s'.threads == s.threads[t := pc]
    && s'.streams.Keys == s.streams.Keys && s.threads[t].stream in s.streams
    && (forall j | j in s.streams && j != s.threads[t].stream :: s'.streams[j].lock == s.streams[j].lock)
    && LockMoves(s.device, s'.device, t, s.threads[t].HoldsDevice(), pc.HoldsDevice())
    && LockMoves(s.streams[s.threads[t].stream].lock, s'.streams[s.threads[t].stream].lock, t,
                 s.threads[t].HoldsStream(), pc.HoldsStream())
  }

  lemma MoveKeepsDevice(s: System, s': System, t: ThreadId, pc: Pc)
    requires ThreadsFit(s) && DeviceMatches(s) && ThreadMoves(s, s', t, pc)
    ensures ThreadsFit(s') && DeviceMatches(s')
  {
  }

  lemma MoveKeepsStreams(s: System, s': System, t: ThreadId, pc: Pc)
    requires ThreadsFit(s) && StreamsMatch(s) && ThreadsFit(s') && ThreadMoves(s, s', t, pc)
    ensures StreamsMatch(s')
  {
  }

  lemma MoveKeepsLocks(s: System, s': System, t: ThreadId, pc: Pc)
    requires LocksMatch(s) && ThreadMoves(s, s', t, pc)
    ensures LocksMatch(s')
  {
    MoveKeepsDevice(s, s', t, pc);
    MoveKeepsStreams(s, s', t, pc);
  }

  lemma StepMoves(s: System, t: ThreadId, answer: Answer)
    requires t in s.threads && PlaceFitsJob(s.threads[t]) && Enabled(s, Step(t, answer)) && !s.threads[t].at.Freeing?
    ensures ThreadMoves(s, StepThread(s, t, answer), t, StepThread(s, t, answer).Pc(t))
  {
  }

  lemma OpenStreamKeepsLocks(s: System, id: StreamId)
    requires LocksMatch(s) && Enabled(s, OpenStream(id))
    ensures LocksMatch(Next(s, OpenStream(id)))
  {
  }

  lemma BeginKeepsLocks(s: System, t: ThreadId, id: StreamId, job: Job)
    requires LocksMatch(s) && Enabled(s, Begin(t, id, job))
    ensures LocksMatch(Next(s, Begin(t, id, job)))
  {
  }

  lemma FreeKeepsLocks(s: System, t: ThreadId, answer: Answer)
    requires LocksMatch(s) && Enabled(s, Step(t, answer)) && s.Pc(t).at.Freeing?
    ensures LocksMatch(StepThread(s, t, answer))
  {
  }

  lemma StepKeepsLocks(s: System, a: Action)
    requires LocksMatch(s) && Enabled(s, a)
    ensures LocksMatch(Next(s, a))
  {
    match a {
      case OpenStream(id) => OpenStreamKeepsLocks(s, id);
      case Begin(t, id, job) => BeginKeepsLocks(s, t, id, job);
      case Step(t, answer) =>
        if s.Pc(t).at.Freeing? {
          FreeKeepsLocks(s, t, answer);
        } else {
          var s' := StepThread(s, t, answer);
          StepMoves(s, t, answer);
          MoveKeepsLocks(s, s', t, s'.Pc(t));
        }
    }
  }

  // -------------------------------------------------- PCMs

  /** A stream whose lock is free, or whose holder has not touched it yet or is done with it. */
  predicate Settled(st: Stream, open: set<PcmId>) {
    (st.standby <==> st.pcm.None?) && (st.pcm.Some? ==> st.pcm.value in open)
  }

  predicate HasOpenPcm(st: Stream, open: set<PcmId>) {
    st.pcm.Some? && st.pcm.value in open
  }

  predicate StreamFits(st: Stream, at: Place, open: set<PcmId>) {
    match at
    case Opening => st.standby && HasOpenPcm(st, open)
    case Opened => !st.standby && HasOpenPcm(st, open)
    case Writing => !st.standby && HasOpenPcm(st, open)
    case Failed => st.standby && st.pcm.None?
    case Closing => st.standby && st.pcm.None?
    case Closed => !st.standby && st.pcm.Some? && st.pcm.value !in open
    case _ => Settled(st, open)
  }

  ghost predicate StreamOk(s: System, id: StreamId)
    requires LocksMatch(s) && id in s.streams
  {
    var st := s.streams[id];
    if st.lock.None? then Settled(st, s.open) else StreamFits(st, s.threads[st.lock.value].at, s.open)
  }

  /** No PCM belongs to two streams, every open one belongs to one, and each stream's was opened. */
  ghost predicate PcmsOwned(streams: map<StreamId, Stream>, open: set<PcmId>, closed: set<PcmId>) {
    && (forall i, j | i in streams && j in streams && i != j && streams[i].pcm.Some? :: streams[i].pcm != streams[j].pcm)
    && (forall p | p in open :: exists id :: id in streams && streams[id].pcm == Some(p))
    && (forall id | id in streams && streams[id].pcm.Some? :: streams[id].pcm.value in open + closed)
    && open !! closed
  }

  /** A thread about to free a stream has left it in standby, and nobody has locked it since. */
  ghost predicate ClosersDone(s: System) {
    forall t | t in s.threads && s.threads[t].Busy? && s.threads[t].job.Close?
               && (s.threads[t].at.DeviceOnly? || s.threads[t].at.Freeing?) && s.threads[t].stream in s.streams ::
      s.streams[s.threads[t].stream].standby && s.streams[s.threads[t].stream].lock.None?
  }

  ghost predicate Inv(s: System) {
    && LocksMatch(s)
    && (forall id | id in s.streams :: StreamOk(s, id))
    && PcmsOwned(s.streams, s.open, s.closed)
    && ClosersDone(s)
  }

  /** What the step may do to the PCMs, seen from the stream of the thread. */
  ghost predicate PcmMoves(l: Local, l': Local) {
    && l.closed <= l'.closed && l.open + l.closed <= l'.open + l'.closed
    && (l.open !! l.closed ==> l'.open !! l'.closed)
    && (forall p | p in l.open && l.stream.pcm != Some(p) :: p in l'.open)
    && (forall p | p in l'.open :: p in l.open || l'.stream.pcm == Some(p))
    && (l'.stream.pcm.Some? ==> l'.stream.pcm == l.stream.pcm || l'.stream.pcm.value !in l.open + l.closed)
    && (l'.stream.pcm.Some? ==> l'.stream.pcm == l.stream.pcm || l.stream.pcm.None?)
    && (l'.stream.pcm.Some? ==> l'.stream.pcm.value in l'.open + l'.closed || l'.stream.pcm == l.stream.pcm)
    && (l.stream.pcm.Some? && l.stream.pcm.value in l'.open ==> l'.stream.pcm == l.stream.pcm)
  }

  lemma LocalPcms(t: ThreadId, l: Local, answer: Answer)
    requires l.pc.Busy? && l.pc.HoldsStream() && StreamFits(l.stream, l.pc.at, l.open)
    requires answer.pcm.Some? ==> answer.pcm.value !in l.open + l.closed
    ensures var l' := LocalStep(t, l, answer);
      && PcmMoves(l, l')
      && (if l'.pc.HoldsStream() then StreamFits(l'.stream, l'.pc.at, l'.open) else Settled(l'.stream, l'.open))
  {
  }

  lemma OwnershipMoves(streams: map<StreamId, Stream>, id: StreamId, l: Local, l': Local)
    requires id in streams && l.stream == streams[id] && PcmsOwned(streams, l.open, l.closed) && PcmMoves(l, l')
    ensures PcmsOwned(streams[id := l'.stream], l'.open, l'.closed)
  {
    var streams' := streams[id := l'.stream];
    forall p | p in l'.open ensures exists j :: j in streams' && streams'[j].pcm == Some(p) {
      if l'.stream.pcm == Some(p) {
        assert streams'[id].pcm == Some(p);
      } else {
        var j :| j in streams && streams[j].pcm == Some(p);
        assert streams'[j].pcm == Some(p);
      }
    }
  }

  /** The other streams' PCMs stay open. */
  lemma OthersStayOpen(streams: map<StreamId, Stream>, id: StreamId, j: StreamId, l: Local, l': Local)
    requires id in streams && l.stream == streams[id] && PcmsOwned(streams, l.open, l.closed) && PcmMoves(l, l')
    requires j in streams && j != id && streams[j].pcm.Some?
    ensures streams[j].pcm.value in l.open <==> streams[j].pcm.value in l'.open
  {
  }

  lemma OtherStreamOk(s: System, s': System, t: ThreadId, id: StreamId, j: StreamId, l: Local, l': Local)
    requires Inv(s) && LocksMatch(s') && t in s.threads && s.threads[t].Uses(id)
    requires l.stream == s.streams[id] && l.open == s.open && l.closed == s.closed && PcmMoves(l, l')
    requires s'.streams == s.streams[id := l'.stream] && s'.open == l'.open && s'.threads == s.threads[t := l'.pc]
    requires j in s.streams && j != id
    ensures StreamOk(s', j)
  {
    assert StreamOk(s, j);
    if s.streams[j].pcm.Some? {
      OthersStayOpen(s.streams, id, j, l, l');
    }
  }

  /** The thread's own stream after a step made while holding its lock. */
  lemma OwnStreamOk(s: System, t: ThreadId, answer: Answer)
    requires Inv(s) && Enabled(s, Step(t, answer)) && s.Pc(t).HoldsStream()
    requires LocksMatch(StepThread(s, t, answer))
    ensures PcmMoves(LocalOf(s, t), LocalStep(t, LocalOf(s, t), answer))
    ensures StreamOk(StepThread(s, t, answer), s.Pc(t).stream)
  {
    assert StreamOk(s, s.Pc(t).stream);
    LocalPcms(t, LocalOf(s, t), answer);
  }

  lemma HoldingClosersDone(s: System, t: ThreadId, answer: Answer)
    requires Inv(s) && Enabled(s, Step(t, answer)) && s.Pc(t).HoldsStream()
    ensures ClosersDone(StepThread(s, t, answer))
  {
    assert StreamOk(s, s.Pc(t).stream);
    var s' := StepThread(s, t, answer);
    forall u | u in s'.threads && s'.threads[u].Busy? && s'.threads[u].job.Close?
               && (s'.threads[u].at.DeviceOnly? || s'.threads[u].at.Freeing?) && s'.threads[u].stream in s'.streams
      ensures s'.streams[s'.threads[u].stream].standby && s'.streams[s'.threads[u].stream].lock.None?
    {
      if u != t {
        assert !s.threads[t].Uses(s.threads[u].stream);
      }
    }
  }

  lemma HoldingStepKeepsPcms(s: System, t: ThreadId, answer: Answer)
    requires Inv(s) && Enabled(s, Step(t, answer)) && s.Pc(t).HoldsStream()
    requires LocksMatch(StepThread(s, t, answer))
    ensures Inv(StepThread(s, t, answer))
  {
    var s', id := StepThread(s, t, answer), s.Pc(t).stream;
    var l := LocalOf(s, t);
    var l' := LocalStep(t, l, answer);
    assert PcmsOwned(s'.streams, s'.open, s'.closed) by {
      OwnStreamOk(s, t, answer);
      OwnershipMoves(s.streams, id, l, l');
    }
    HoldingClosersDone(s, t, answer);
    forall j | j in s'.streams ensures StreamOk(s', j) {
      OwnStreamOk(s, t, answer);
      if j != id {
        OtherStreamOk(s, s', t, id, j, l, l');
      }
    }
  }

  lemma SamePcmsOwned(streams: map<StreamId, Stream>, streams': map<StreamId, Stream>, open: set<PcmId>, closed: set<PcmId>)
    requires PcmsOwned(streams, open, closed) && streams'.Keys <= streams.Keys
    requires forall j | j in streams' :: streams'[j].pcm == streams[j].pcm
    requires forall j | j in streams && j !in streams' :: streams[j].pcm.None?
    ensures PcmsOwned(streams', open, closed)
  {
    forall p | p in open ensures exists j :: j in streams' && streams'[j].pcm == Some(p) {
      var j :| j in streams && streams[j].pcm == Some(p);
      assert streams'[j].pcm == Some(p);
    }
  }

  lemma WaitingStepKeepsPcms(s: System, t: ThreadId, answer: Answer)
    requires Inv(s) && Enabled(s, Step(t, answer)) && !s.Pc(t).HoldsStream() && !s.Pc(t).at.Freeing?
    requires LocksMatch(StepThread(s, t, answer))
    ensures Inv(StepThread(s, t, answer))
  {
    var s' := StepThread(s, t, answer);
    forall j | j in s'.streams ensures StreamOk(s', j) {
      assert StreamOk(s, j);
    }
    SamePcmsOwned(s.streams, s'.streams, s.open, s.closed);
    WaitingClosersDone(s, t, answer);
  }

  lemma WaitingClosersDone(s: System, t: ThreadId, answer: Answer)
    requires Inv(s) && Enabled(s, Step(t, answer)) && !s.Pc(t).HoldsStream() && !s.Pc(t).at.Freeing?
    ensures ClosersDone(StepThread(s, t, answer))
  {
    var s' := StepThread(s, t, answer);
    forall u | u in s'.threads && s'.threads[u].Busy? && s'.threads[u].job.Close?
               && (s'.threads[u].at.DeviceOnly? || s'.threads[u].at.Freeing?) && s'.threads[u].stream in s'.streams
      ensures s'.streams[s'.threads[u].stream].standby && s'.streams[s'.threads[u].stream].lock.None?
    {
      if u != t {
        assert !s.threads[t].Uses(s.threads[u].stream);
      }
    }
  }

  lemma FreeingStepKeepsPcms(s: System, t: ThreadId, answer: Answer)
    requires Inv(s) && Enabled(s, Step(t, answer)) && s.Pc(t).at.Freeing?
    requires LocksMatch(StepThread(s, t, answer))
    ensures Inv(StepThread(s, t, answer))
  {
    var s' := StepThread(s, t, answer);
    assert StreamOk(s, s.Pc(t).stream);
    forall j | j in s'.streams ensures StreamOk(s', j) {
      assert StreamOk(s, j);
    }
    SamePcmsOwned(s.streams, s'.streams, s.open, s.closed);
  }

  lemma StepKeepsInv(s: System, a: Action)
    requires Inv(s) && Enabled(s, a)
    ensures Inv(Next(s, a))
  {
    StepKeepsLocks(s, a);
    match a {
      case OpenStream(id) => OpenStreamKeepsInv(s, id);
      case Begin(t, id, job) =>
        forall j | j in s.streams ensures StreamOk(Next(s, a), j) {
          assert StreamOk(s, j);
        }
      case Step(t, answer) =>
        if s.Pc(t).HoldsStream() {
          HoldingStepKeepsPcms(s, t, answer);
        } else if s.Pc(t).at.Freeing? {
          FreeingStepKeepsPcms(s, t, answer);
        } else {
          WaitingStepKeepsPcms(s, t, answer);
        }
    }
  }

  lemma OpenStreamKeepsInv(s: System, id: StreamId)
    requires Inv(s) && Enabled(s, OpenStream(id)) && LocksMatch(Next(s, OpenStream(id)))
    ensures Inv(Next(s, OpenStream(id)))
  {
    var s' := Next(s, OpenStream(id));
    forall j | j in s'.streams ensures StreamOk(s', j) {
      if j != id {
        assert StreamOk(s, j);
      }
    }
    forall p | p in s'.open ensures exists j :: j in s'.streams && s'.streams[j].pcm == Some(p) {
      var j :| j in s.streams && s.streams[j].pcm == Some(p);
      assert s'.streams[j].pcm == Some(p);
    }
  }

  // -------------------------------------------------- runs

  ghost predicate IsRun(acts: seq<Action>, states: seq<System>) {
    && |states| == |acts| + 1
    && Initial(states[0])
    && (forall k | 0 <= k < |acts| :: IsStep(acts, states, k))
  }

  ghost predicate IsStep(acts: seq<Action>, states: seq<System>, k: nat)
    requires k < |acts| && |states| == |acts| + 1
  {
    Enabled(states[k], acts[k]) && states[k + 1] == Next(states[k], acts[k])
  }

  lemma {:induction false} RunKeepsInv(acts: seq<Action>, states: seq<System>, k: nat)
    requires IsRun(acts, states) && k < |states|
    ensures Inv(states[k])
  {
    if k > 0 {
      RunKeepsInv(acts, states, k - 1);
      assert IsStep(acts, states, k - 1);
      StepKeepsInv(states[k - 1], acts[k - 1]);
    }
  }

  /** In every interleaving, `pcm_write` runs on the open PCM of the thread's own stream, which
      no other stream has and whose lock the thread holds. */
  lemma WritesOwnOpenPcm(acts: seq<Action>, states: seq<System>, k: nat, t: ThreadId, id: StreamId)
    requires IsRun(acts, states) && k < |states|
    requires states[k].Pc(t).Uses(id) && states[k].Pc(t).at.Writing?
    ensures id in states[k].streams && states[k].streams[id].lock == Some(t)
    ensures HasOpenPcm(states[k].streams[id], states[k].open)
    ensures forall j | j in states[k].streams && j != id :: states[k].streams[j].pcm != states[k].streams[id].pcm
  {
    RunKeepsInv(acts, states, k);
    assert StreamOk(states[k], id);
  }

  /** Whenever a stream's lock is free, it is in standby exactly if it has no PCM, and the PCM it
      has is open. */
  lemma StandbyIffNoPcm(acts: seq<Action>, states: seq<System>, k: nat, id: StreamId)
    requires IsRun(acts, states) && k < |states|
    requires id in states[k].streams && states[k].streams[id].lock.None?
    ensures Settled(states[k].streams[id], states[k].open)
  {
    RunKeepsInv(acts, states, k);
    assert StreamOk(states[k], id);
  }

  /** The PCM that the next step of thread `t` closes, if that step calls `pcm_close`. */
  predicate ClosesPcm(s: System, t: ThreadId, answer: Answer) {
    s.Pc(t).Busy? && s.Pc(t).stream in s.streams
    && ((s.Pc(t).at.Both? && !s.Pc(t).job.Write? && !s.streams[s.Pc(t).stream].standby)
        || (s.Pc(t).at.Opening? && !answer.ready))
  }

  /** Closing is always of an open PCM, never of none or of one already closed. */
  lemma ClosesOpenPcm(acts: seq<Action>, states: seq<System>, k: nat, t: ThreadId, answer: Answer)
    requires IsRun(acts, states) && k < |acts| && acts[k] == Step(t, answer) && ClosesPcm(states[k], t, answer)
    ensures var p := states[k].streams[states[k].Pc(t).stream].pcm;
      p.Some? && p.value in states[k].open && p.value !in states[k].closed
      && states[k + 1].closed == states[k].closed + {p.value} && p.value !in states[k + 1].open
  {
    RunKeepsInv(acts, states, k);
    assert IsStep(acts, states, k);
    assert StreamOk(states[k], states[k].Pc(t).stream);
  }

  /** A closed PCM is never open again, and one ever opened stays open or is closed. */
  lemma {:induction false} ClosedStays(acts: seq<Action>, states: seq<System>, i: nat, j: nat)
    requires IsRun(acts, states) && i <= j < |states|
    ensures states[i].closed <= states[j].closed && states[j].open !! states[j].closed
    ensures states[i].open + states[i].closed <= states[j].open + states[j].closed
    decreases j
  {
    RunKeepsInv(acts, states, j);
    if i < j {
      ClosedStays(acts, states, i, j - 1);
      assert IsStep(acts, states, j - 1);
    }
  }

  /** Step `k` of a run closes PCM `p`. */
  ghost predicate ClosesAt(acts: seq<Action>, states: seq<System>, k: nat, p: PcmId)
    requires k < |acts| && |states| == |acts| + 1
  {
    acts[k].Step? && ClosesPcm(states[k], acts[k].t, acts[k].answer)
    && states[k].streams[states[k].Pc(acts[k].t).stream].pcm == Some(p)
  }

  /** No PCM is closed by two steps. */
  lemma ClosedAtMostOnce(acts: seq<Action>, states: seq<System>, i: nat, j: nat, p: PcmId)
    requires IsRun(acts, states) && i <= j < |acts| && ClosesAt(acts, states, i, p) && ClosesAt(acts, states, j, p)
    ensures i == j
  {
    ClosesOpenPcm(acts, states, i, acts[i].t, acts[i].answer);
    ClosesOpenPcm(acts, states, j, acts[j].t, acts[j].answer);
    if i < j {
      ClosedStays(acts, states, i + 1, j);
    }
  }

  /** A stream about to be freed has no PCM. */
  lemma FreedWithoutPcm(acts: seq<Action>, states: seq<System>, k: nat, t: ThreadId)
    requires IsRun(acts, states) && k < |states|
    ensures states[k].Pc(t).Busy? && states[k].Pc(t).at.Freeing? ==>
      states[k].Pc(t).stream in states[k].streams && states[k].streams[states[k].Pc(t).stream].pcm.None?
  {
    RunKeepsInv(acts, states, k);
    if states[k].Pc(t).Busy? {
      assert StreamOk(states[k], states[k].Pc(t).stream);
    }
  }

  lemma KeptOrClosed(s: System, a: Action, id: StreamId, p: PcmId)
    requires Inv(s) && Enabled(s, a) && id in s.streams && s.streams[id].pcm == Some(p)
    ensures var s' := Next(s, a); (id in s'.streams && s'.streams[id].pcm == Some(p)) || p in s'.closed
  {
    if a.Step? && s.Pc(a.t).stream == id {
      assert StreamOk(s, id);
    }
  }

  lemma {:induction false} HeldOrClosed(acts: seq<Action>, states: seq<System>, i: nat, j: nat, id: StreamId, p: PcmId)
    requires IsRun(acts, states) && i <= j < |states|
    requires id in states[i].streams && states[i].streams[id].pcm == Some(p)
    ensures (id in states[j].streams && states[j].streams[id].pcm == Some(p)) || p in states[j].closed
    decreases j
  {
    if i < j {
      HeldOrClosed(acts, states, i, j - 1, id, p);
      RunKeepsInv(acts, states, j - 1);
      assert IsStep(acts, states, j - 1);
      if p in states[j - 1].closed {
        ClosedStays(acts, states, j - 1, j);
      } else {
        KeptOrClosed(states[j - 1], acts[j - 1], id, p);
      }
    }
  }

  /** Once a stream is freed, every PCM it ever had is closed, whatever the other streams do. */
  lemma FreedStreamsPcmsAreClosed(acts: seq<Action>, states: seq<System>, i: nat, j: nat, id: StreamId, p: PcmId)
    requires IsRun(acts, states) && i <= j < |states|
    requires id in states[i].streams && states[i].streams[id].pcm == Some(p) && id !in states[j].streams
    ensures p in states[j].closed && p !in states[j].open
  {
    HeldOrClosed(acts, states, i, j, id, p);
    ClosedStays(acts, states, j, j);
  }

  /** When no stream is left, every PCM ever opened has been closed. */
  lemma AllClosedAtTheEnd(acts: seq<Action>, states: seq<System>, i: nat, j: nat)
    requires IsRun(acts, states) && i <= j < |states| && states[j].streams == map[]
    ensures states[i].open <= states[j].closed && states[j].open == {}
  {
    RunKeepsInv(acts, states, j);
    ClosedStays(acts, states, i, j);
  }

  // -------------------------------------------------- frames written

  function Frames(log: seq<(StreamId, nat)>, id: StreamId): nat {
    if log == [] then 0
    else Frames(log[..|log| - 1], id) + if log[|log| - 1].0 == id then log[|log| - 1].1 else 0
  }

  lemma {:induction false} NoFrames(log: seq<(StreamId, nat)>, id: StreamId)
    requires forall e | e in log :: e.0 != id
    ensures Frames(log, id) == 0
  {
    if log != [] {
      NoFrames(log[..|log| - 1], id);
    }
  }

  ghost predicate Counted(s: System, range: int)
    requires range > 0
  {
    forall id | id in s.streams :: s.streams[id].written == Frames(s.log, id) % range
  }

  lemma FramesSnoc(log: seq<(StreamId, nat)>, e: (StreamId, nat), id: StreamId)
    ensures Frames(log + [e], id) == Frames(log, id) + if e.0 == id then e.1 else 0
  {
    assert (log + [e])[..|log|] == log;
  }

  /** One successful write of `n` frames to stream `id`. */
  ghost predicate WroteOnce(s: System, s': System, id: StreamId, n: nat) {
    && id in s.streams && s'.log == s.log + [(id, n)] && s'.streams.Keys == s.streams.Keys
    && s'.streams[id].written == Add(s.streams[id].written, n)
    && forall j | j in s.streams && j != id :: s'.streams[j].written == s.streams[j].written
  }

  /** No write: the counters stay, and a new stream starts at zero. */
  ghost predicate WroteNothing(s: System, s': System) {
    && s'.log == s.log
    && forall j | j in s'.streams ::
         if j in s.streams then s'.streams[j].written == s.streams[j].written
         else s'.streams[j].written == 0 && forall e | e in s.log :: e.0 != j
  }

  lemma CounterStep(s: System, a: Action) returns (wrote: bool, id: StreamId, n: nat)
    requires Enabled(s, a)
    ensures if wrote then WroteOnce(s, Next(s, a), id, n) else WroteNothing(s, Next(s, a))
  {
    wrote, id, n := false, 0, 0;
    if a.Step? && s.Pc(a.t).at.Writing? && a.answer.wrote && s.Pc(a.t).job.Write? {
      wrote, id, n := true, s.Pc(a.t).stream, s.Pc(a.t).job.frames;
    }
  }

  lemma CountedStep(s: System, a: Action, range: int)
    requires Enabled(s, a) && range == UINT64_RANGE && Counted(s, range)
    ensures Counted(Next(s, a), range)
  {
    var s' := Next(s, a);
    var wrote, id, n := CounterStep(s, a);
    if wrote {
      CountedWrite(s, s', id, n, range);
    } else {
      CountedRest(s, s', range);
    }
  }

  lemma CountedRest(s: System, s': System, range: int)
    requires range > 0 && Counted(s, range) && WroteNothing(s, s')
    ensures Counted(s', range)
  {
    forall j | j in s'.streams ensures s'.streams[j].written == Frames(s'.log, j) % range {
      if j !in s.streams {
        NoFrames(s.log, j);
      }
    }
  }

  lemma CountedWrite(s: System, s': System, id: StreamId, n: nat, range: int)
    requires range == UINT64_RANGE && Counted(s, range) && WroteOnce(s, s', id, n)
    ensures Counted(s', range)
  {
    forall j | j in s'.streams ensures s'.streams[j].written == Frames(s'.log, j) % range {
      FramesSnoc(s.log, (id, n), j);
      ModAdd(Frames(s.log, j), n, range);
    }
  }

  /** In every interleaving a stream's counter is the sum of the frames of its successful
      writes, modulo 2^64. */
  lemma {:induction false} WrittenIsSum(acts: seq<Action>, states: seq<System>, k: nat, range: int)
    requires IsRun(acts, states) && k < |states| && range == UINT64_RANGE
    ensures Counted(states[k], range)
  {
    if k > 0 {
      WrittenIsSum(acts, states, k - 1, range);
      assert IsStep(acts, states, k - 1);
      CountedStep(states[k - 1], acts[k - 1], range);
    }
  }

  // -------------------------------------------------- what a step does to the whole system

  /** A step of a thread is its local step, and touches nothing else: neither another stream, nor
      another thread; the log gets one entry exactly if the step wrote. */
  lemma StepIsLocal(s: System, t: ThreadId, answer: Answer, j: StreamId, u: ThreadId)
    requires Enabled(s, Step(t, answer))
    ensures var s', id := Next(s, Step(t, answer)), s.Pc(t).stream; var l := LocalStep(t, LocalOf(s, t), answer);
      && s'.Pc(t) == l.pc && s'.device == l.device && s'.open == l.open && s'.closed == l.closed
      && (u != t ==> s'.Pc(u) == s.Pc(u))
      && (j != id ==> (j in s'.streams <==> j in s.streams))
      && (j != id && j in s.streams ==> s'.streams[j] == s.streams[j])
      && (id in s'.streams <==> !s.Pc(t).at.Freeing?)
      && (id in s'.streams ==> s'.streams[id] == l.stream)
      && s'.log == s.log + if l.wrote && s.Pc(t).job.Write? then [(id, s.Pc(t).job.frames)] else []
  {
  }

  /** In every run a `pcm_write` that succeeds adds its frames to its stream's counter and to the
      log, one that fails adds nothing, and no other step writes; either way the thread goes on to
      release the stream. */
  lemma WriteCounts(acts: seq<Action>, states: seq<System>, k: nat, t: ThreadId, answer: Answer)
    requires IsRun(acts, states) && k < |acts| && acts[k] == Step(t, answer)
    ensures var s, s' := states[k], states[k + 1]; var pc := s.Pc(t);
      && pc.Busy? && pc.stream in s.streams
      && if pc.at.Writing? && answer.wrote then
        && pc.stream in s'.streams && pc.job.Write? && s'.Pc(t) == Busy(pc.stream, pc.job, Exiting)
        && s'.log == s.log + [(pc.stream, pc.job.frames)]
        && s'.streams[pc.stream].written == Add(s.streams[pc.stream].written, pc.job.frames)
      else
        && (pc.at.Writing? ==> s'.Pc(t) == Busy(pc.stream, pc.job, Exiting))
        && s'.log == s.log
        && forall j | j in s'.streams && j in s.streams :: s'.streams[j].written == s.streams[j].written
  {
    RunKeepsInv(acts, states, k);
    assert IsStep(acts, states, k);
  }

  /** In every run a standby or a close that has put its stream in standby releases the stream, then
      the device; a standby is then over, and a close frees the stream. */
  lemma CloseFrees(acts: seq<Action>, states: seq<System>, k: nat, t: ThreadId, answer: Answer)
    requires IsRun(acts, states) && k < |acts| && acts[k] == Step(t, answer)
    ensures var s, s' := states[k], states[k + 1]; var pc := s.Pc(t);
      && pc.Busy? && pc.stream in s.streams
      && (pc.at.Closing? ==> s'.Pc(t) == Busy(pc.stream, pc.job, DeviceOnly)
                             && pc.stream in s'.streams && s'.streams[pc.stream].lock.None?)
      && (pc.at.DeviceOnly? ==> s'.device.None?
                                && s'.Pc(t) == if pc.job.Close? then Busy(pc.stream, pc.job, Freeing) else Idle)
      && (pc.at.Freeing? ==> s'.Pc(t) == Idle && s'.streams == s.streams - {pc.stream})
  {
    assert IsStep(acts, states, k);
  }

  // -------------------------------------------------- no deadlock

  predicate CanMove(s: System, t: ThreadId) {
    Enabled(s, Step(t, Answer(None, false, false)))
  }

  /** Whoever waits for a stream, or the one who holds that stream, can move. */
  lemma StreamWaiterMoves(s: System, t: ThreadId)
    requires LocksMatch(s) && s.Pc(t).Busy? && !s.Pc(t).at.WantDevice?
    ensures exists u :: CanMove(s, u)
  {
    if s.Pc(t).at.WantStream? && s.streams[s.Pc(t).stream].lock.Some? {
      var u := s.streams[s.Pc(t).stream].lock.value;
      assert s.threads[u].HoldsStream();
      assert CanMove(s, u);
    } else {
      assert CanMove(s, t);
    }
  }

  /** As long as some thread is inside a call, some thread can take its next step. */
  lemma NoDeadlock(acts: seq<Action>, states: seq<System>, k: nat, t: ThreadId)
    requires IsRun(acts, states) && k < |states| && states[k].Pc(t).Busy?
    ensures exists u :: CanMove(states[k], u)
  {
    RunKeepsInv(acts, states, k);
    var s := states[k];
    if s.Pc(t).at.WantDevice? {
      if s.device.Some? {
        assert s.threads[s.device.value].HoldsDevice();
        StreamWaiterMoves(s, s.device.value);
      } else {
        assert CanMove(s, t);
      }
    } else {
      StreamWaiterMoves(s, t);
    }
  }
}
