/**
  The vsync thread against the life of composer clients, as interleaved steps.

  The vsync mutex protects `hook`, `enabled` and `started`; a section of another thread
  that only takes the mutex, writes and releases it is one step, possible whenever the
  vsync thread does not hold the mutex.  `callback` (the HAL's event callback pointer) and
  the clients are outside that mutex.  The client mutex of the composer makes creation and
  the destroyed notification one step each.
 */
module VsyncProtocol {
  import opened Wrappers
  import opened VsyncTimer

  type ClientId = nat

  /** Where a client is between its creation and the release of its memory. */
  datatype Phase =
    | Idle             // created, no callback registered
    | Announced        // its callback pointer is stored, hotplug is being delivered
    | Registered       // the vsync hook is set
    | HookCleared      // its destructor removed the vsync hook under the mutex
    | PointerCleared   // ... and then the callback pointer
    | Departed         // ... and then told the composer
    | Freed            // the callback object is gone

  /** Where the vsync thread is. */
  datatype Pc =
    | Looping                        // at the top of the loop, holding the mutex
    | Blocked                        // waiting on the condition
    | Sampling                       // mutex released, about to read the clock
    | Sleeping
    | Waking(slept: bool)            // about to take the mutex again
    | InHook                         // holding the mutex, inside the hook
    | Calling(to: Option<ClientId>)  // holding the mutex, the hook has read the pointer
    | Exited

  datatype System = System(
    timer: Timer,
    pc: Pc,
    started: bool,
    enabled: bool,
    hook: bool,
    callback: Option<ClientId>,
    clients: map<ClientId, Phase>,
    alive: bool,
    delivered: seq<(ClientId, int)>)
  {
    predicate MutexFree() {
      !pc.Looping? && !pc.InHook? && !pc.Calling?
    }

    predicate At(c: ClientId, p: Phase) {
      c in clients && clients[c] == p
    }

    /** Not yet told to the composer as destroyed. */
    predicate Living(c: ClientId) {
      c in clients && !clients[c].Departed? && !clients[c].Freed?
    }
  }

  datatype Action =
    | ClockTick(time: int)
    // the vsync thread
    | CheckEnabled
    | WakeUp
    | SampleClock
    | EndSleep(ok: bool)
    | TakeMutex
    | ReadPointer
    | CallClient
    // clients and their threads
    | Create(c: ClientId)
    | StorePointer(c: ClientId)
    | SetHook(c: ClientId)
    | Enable(on: bool)
    | ClearHook(c: ClientId)
    | ClearPointer(c: ClientId)
    | NotifyDestroyed(c: ClientId)
    | Free(c: ClientId)
    | Stop

  predicate Enabled(s: System, a: Action) {
    match a
    case ClockTick(time) => time >= s.timer.clock
    case CheckEnabled => s.pc.Looping?
    case WakeUp => s.pc.Blocked? && (s.enabled || !s.started)
    case SampleClock => s.pc.Sampling? && s.timer.period > 0
    case EndSleep(ok) => s.pc.Sleeping? && (ok ==> s.timer.clock >= s.timer.next)
    case TakeMutex => s.pc.Waking?
    case ReadPointer => s.pc.InHook?
    case CallClient => s.pc.Calling? && s.pc.to.Some?
    case Create(c) => c !in s.clients && !s.alive
    case StorePointer(c) => s.At(c, Idle)
    case SetHook(c) => s.At(c, Announced) && s.MutexFree()
    case Enable(_) => s.MutexFree()
    case ClearHook(c) => (s.At(c, Idle) || s.At(c, Registered)) && s.MutexFree()
    case ClearPointer(c) => s.At(c, HookCleared)
    case NotifyDestroyed(c) => s.At(c, PointerCleared)
    case Free(c) => s.At(c, Departed)
    case Stop => s.MutexFree()
  }

  function Next(s: System, a: Action): System
    requires Enabled(s, a)
  {
    match a
    case ClockTick(time) => s.(timer := Advance(s.timer, time))
    case CheckEnabled => s.(pc := if s.enabled then Sampling else Blocked)
    case WakeUp => s.(pc := if s.started then Sampling else Exited)
    case SampleClock => s.(timer := Adjust(s.timer), pc := Sleeping)
    case EndSleep(ok) => s.(pc := Waking(ok))
    case TakeMutex =>
      if !s.pc.slept then s.(pc := Looping)
      else if s.hook then s.(pc := InHook)
      else s.(timer := Fire(s.timer), pc := Looping)
    case ReadPointer => s.(pc := Calling(s.callback))
    case CallClient =>
      s.(delivered := s.delivered + [(s.pc.to.value, s.timer.next)], timer := Fire(s.timer), pc := Looping)
    case Create(c) => s.(clients := s.clients[c := Idle], alive := true)
    case StorePointer(c) => s.(callback := Some(c), clients := s.clients[c := Announced])
    case SetHook(c) => s.(hook := true, clients := s.clients[c := Registered])
    case Enable(on) => s.(enabled := on)
    case ClearHook(c) => s.(hook := false, clients := s.clients[c := HookCleared])
    case ClearPointer(c) => s.(callback := None, clients := s.clients[c := PointerCleared])
    case NotifyDestroyed(c) => s.(alive := false, clients := s.clients[c := Departed])
    case Free(c) => s.(clients := s.clients[c := Freed])
    case Stop => s.(started := false)
  }

  ghost predicate Initial(s: System) {
    && s.timer.Valid() && s.timer.fired == []
    && s.pc == Looping && s.started && !s.enabled && !s.hook && s.callback == None
    && s.clients == map[] && !s.alive && s.delivered == []
  }

  // -------------------------------------------------- what every step keeps

  ghost predicate OneLivingClient(s: System) {
    && (forall c, d | s.Living(c) && s.Living(d) :: c == d)
    && (s.alive <==> exists c :: s.Living(c))
  }

  ghost predicate PointerMatchesClient(s: System) {
    && (s.callback.Some? ==>
          s.callback.value in s.clients
          && s.clients[s.callback.value] in {Announced, Registered, HookCleared})
    && (forall c: ClientId | s.At(c, Announced) || s.At(c, Registered) :: s.callback == Some(c))
    && (s.hook <==> exists c :: s.At(c, Registered))
  }

  ghost predicate ThreadMatchesHook(s: System) {
    && (s.pc.InHook? ==> s.hook)
    && (s.pc.Calling? ==> s.hook && s.pc.to == s.callback)
    && ((s.pc == Waking(true) || s.pc.InHook? || s.pc.Calling?) ==> s.timer.clock >= s.timer.next)
  }

  ghost predicate Inv(s: System) {
    s.timer.Valid() && OneLivingClient(s) && PointerMatchesClient(s) && ThreadMatchesHook(s)
  }

  /** While the hook is set, no client other than the registered one is living. */
  lemma HookNeedsOther(s: System, c: ClientId)
    requires Inv(s) && s.Living(c) && !s.At(c, Registered)
    ensures !s.hook
    ensures forall d: ClientId :: s.At(d, Announced) || s.At(d, Registered) ==> d == c
  {
    forall d: ClientId | s.At(d, Announced) || s.At(d, Registered) ensures d == c {
      assert s.Living(d);
    }
  }

  lemma TimerStep(s: System, a: Action)
    requires Inv(s) && Enabled(s, a)
    ensures Next(s, a).timer.Valid()
  {
    match a {
      case ClockTick(time) => AdvanceKeepsValid(s.timer, time);
      case SampleClock => AdjustKeepsValid(s.timer);
      case TakeMutex =>
        if s.pc.slept && !s.hook {
          FireKeepsValid(s.timer);
        }
      case CallClient => FireKeepsValid(s.timer);
      case _ =>
    }
  }

  lemma ThreadStep(s: System, a: Action)
    requires Inv(s) && Enabled(s, a)
    ensures ThreadMatchesHook(Next(s, a))
  {
    match a {
      case StorePointer(c) => HookNeedsOther(s, c);
      case ClearPointer(c) => HookNeedsOther(s, c);
      case _ =>
    }
  }

  lemma StepKeepsInv(s: System, a: Action)
    requires Inv(s) && Enabled(s, a)
    ensures Inv(Next(s, a))
  {
    TimerStep(s, a);
    ThreadStep(s, a);
    LivingStep(s, a);
    PointerStep(s, a);
  }

  lemma LivingStep(s: System, a: Action)
    requires Inv(s) && Enabled(s, a)
    ensures OneLivingClient(Next(s, a))
  {
    var s' := Next(s, a);
    match a {
      case Create(c) =>
        assert s'.Living(c);
      case StorePointer(c) =>
        assert s.Living(c) && s'.Living(c);
      case SetHook(c) =>
        assert s.Living(c) && s'.Living(c);
      case ClearHook(c) =>
        assert s.Living(c) && s'.Living(c);
      case ClearPointer(c) =>
        assert s.Living(c) && s'.Living(c);
      case NotifyDestroyed(c) =>
        assert s.Living(c);
      case _ =>
    }
    assert forall c | s'.Living(c) :: s.Living(c) || (a.Create? && a.c == c);
    if exists c :: s.Living(c) {
      var c :| s.Living(c);
      assert s'.Living(c) || a == NotifyDestroyed(c);
    }
  }

  lemma HookStep(s: System, a: Action)
    requires Inv(s) && Enabled(s, a)
    ensures var s' := Next(s, a); s'.hook <==> exists c :: s'.At(c, Registered)
  {
    var s' := Next(s, a);
    match a {
      case StorePointer(c) => HookNeedsOther(s, c);
      case SetHook(c) => assert s'.At(c, Registered);
      case ClearHook(c) => assert s.Living(c);
      case _ =>
    }
    if exists d :: s.At(d, Registered) {
      var d :| s.At(d, Registered);
      assert s.Living(d);
      assert s'.At(d, Registered) || a == ClearHook(d);
    }
    assert forall d | s'.At(d, Registered) :: s.At(d, Registered) || a == SetHook(d);
  }

  lemma CallbackStep(s: System, a: Action)
    requires Inv(s) && Enabled(s, a)
    ensures var s' := Next(s, a);
      s'.callback.Some? ==>
        s'.callback.value in s'.clients && s'.clients[s'.callback.value] in {Announced, Registered, HookCleared}
  {
  }

  /** Who is announced or registered after a step was so before it, or is the one who stepped. */
  lemma NamedBefore(s: System, a: Action, c: ClientId)
    requires Enabled(s, a) && (Next(s, a).At(c, Announced) || Next(s, a).At(c, Registered))
    ensures s.At(c, Announced) || s.At(c, Registered) || a == StorePointer(c)
    ensures a.ClearPointer? ==> a.c != c
  {
  }

  lemma NamedStep(s: System, a: Action, c: ClientId)
    requires Inv(s) && Enabled(s, a) && (Next(s, a).At(c, Announced) || Next(s, a).At(c, Registered))
    ensures Next(s, a).callback == Some(c)
  {
    NamedBefore(s, a, c);
    match a {
      case StorePointer(d) => HookNeedsOther(s, d);
      case ClearPointer(d) => HookNeedsOther(s, d);
      case _ =>
    }
  }

  lemma PointerStep(s: System, a: Action)
    requires Inv(s) && Enabled(s, a)
    ensures PointerMatchesClient(Next(s, a))
  {
    var s' := Next(s, a);
    HookStep(s, a);
    CallbackStep(s, a);
    forall c: ClientId | s'.At(c, Announced) || s'.At(c, Registered) ensures s'.callback == Some(c) {
      NamedStep(s, a, c);
    }
  }

  // -------------------------------------------------- runs

  /** Any interleaving: `states[k]` is the system before action `k`. */
  ghost predicate IsRun(acts: seq<Action>, states: seq<System>) {
    && |states| == |acts| + 1
    && Initial(states[0])
    && (forall k | 0 <= k < |acts| :: IsStep(acts, states, k))
  }

  ghost predicate IsStep(acts: seq<Action>, states: seq<System>, k: nat)
    requires k < |acts| && |states| == |acts| + 1
  {
    Enabled(states[k], acts[k]) && states[k + 1] == Next(states[k], acts[k])
  }

  lemma {:induction false} RunKeepsInv(acts: seq<Action>, states: seq<System>, k: nat)
    requires IsRun(acts, states) && k < |states|
    ensures Inv(states[k])
  {
    if k > 0 {
      RunKeepsInv(acts, states, k - 1);
      assert IsStep(acts, states, k - 1);
      StepKeepsInv(states[k - 1], acts[k - 1]);
    }
  }

  /** At most one client lives, and the composer may create one exactly when none does. */
  lemma OneClientAtATime(acts: seq<Action>, states: seq<System>, k: nat, c: ClientId)
    requires IsRun(acts, states) && k < |states| && c !in states[k].clients
    ensures forall d, e | states[k].Living(d) && states[k].Living(e) :: d == e
    ensures Enabled(states[k], Create(c)) <==> forall d :: !states[k].Living(d)
  {
    RunKeepsInv(acts, states, k);
  }

  /** Inside the hook the pointer is never null, and it names the one registered client, whose
      callback object exists; so a vsync is delivered to that client and to no other. */
  lemma HookSeesTheRegisteredClient(acts: seq<Action>, states: seq<System>, k: nat)
    requires IsRun(acts, states) && k < |states|
    requires states[k].pc.InHook? || states[k].pc.Calling?
    ensures states[k].callback.Some?
    ensures states[k].pc.Calling? ==> states[k].pc.to == states[k].callback && Enabled(states[k], CallClient)
    ensures forall d: ClientId :: states[k].At(d, Registered) <==> states[k].callback == Some(d)
  {
    RunKeepsInv(acts, states, k);
    var s := states[k];
    var c: ClientId :| s.At(c, Registered);
    assert s.callback == Some(c);
  }

  // -------------------------------------------------- no vsync after unregistering

  /** Between the two unregistering steps and the registration the client is registered. */
  ghost predicate HookStands(acts: seq<Action>, k: nat, c: ClientId)
    requires k <= |acts|
  {
    exists i | 0 <= i < k :: acts[i] == SetHook(c) && forall j | i < j < k :: acts[j] != ClearHook(c)
  }

  lemma {:induction false} RegisteredIffHookStands(acts: seq<Action>, states: seq<System>, k: nat, c: ClientId)
    requires IsRun(acts, states) && k < |states|
    ensures states[k].At(c, Registered) <==> HookStands(acts, k, c)
  {
    if k > 0 {
      var p := k - 1;
      RegisteredIffHookStands(acts, states, p, c);
      assert IsStep(acts, states, p);
      if HookStands(acts, p, c) && acts[p] != ClearHook(c) {
        var i :| 0 <= i < p && acts[i] == SetHook(c) && forall j | i < j < p :: acts[j] != ClearHook(c);
        assert forall j | i < j < k :: acts[j] != ClearHook(c);
      }
      if acts[p] == SetHook(c) {
        assert HookStands(acts, k, c);
      }
    }
  }

  function Rank(s: System, c: ClientId): nat {
    if c !in s.clients then 0
    else match s.clients[c]
      case Idle => 1
      case Announced => 2
      case Registered => 3
      case HookCleared => 4
      case PointerCleared => 5
      case Departed => 6
      case Freed => 7
  }

  lemma RankStep(s: System, a: Action, c: ClientId)
    requires Enabled(s, a)
    ensures Rank(s, c) <= Rank(Next(s, a), c)
  {
  }

  lemma {:induction false} RankGrows(acts: seq<Action>, states: seq<System>, i: nat, j: nat, c: ClientId)
    requires IsRun(acts, states) && i <= j < |states|
    ensures Rank(states[i], c) <= Rank(states[j], c)
    decreases j
  {
    if i < j {
      RankGrows(acts, states, i, j - 1, c);
      assert IsStep(acts, states, j - 1);
      RankStep(states[j - 1], acts[j - 1], c);
    }
  }

  /** A delivery goes to a client whose hook stands, and to a client whose hook was cleared
      under the mutex none comes any more. */
  lemma DeliveryOnlyWhileHookStands(acts: seq<Action>, states: seq<System>, k: nat)
    requires IsRun(acts, states) && k < |acts| && acts[k] == CallClient
    ensures states[k].pc.Calling? && states[k].pc.to.Some?
    ensures HookStands(acts, k, states[k].pc.to.value)
    ensures forall i | 0 <= i < k :: acts[i] != ClearHook(states[k].pc.to.value)
  {
    assert IsStep(acts, states, k);
    HookSeesTheRegisteredClient(acts, states, k);
    var c := states[k].pc.to.value;
    RegisteredIffHookStands(acts, states, k, c);
    forall i | 0 <= i < k ensures acts[i] != ClearHook(c) {
      if acts[i] == ClearHook(c) {
        assert IsStep(acts, states, i);
        RankGrows(acts, states, i + 1, k, c);
      }
    }
  }

  // -------------------------------------------------- every vsync reaches the registered client

  ghost predicate NoHookStands(acts: seq<Action>, k: nat)
    requires k <= |acts|
  {
    forall c: ClientId :: !HookStands(acts, k, c)
  }

  lemma HookIffSomeStands(acts: seq<Action>, states: seq<System>, k: nat)
    requires IsRun(acts, states) && k < |states|
    ensures states[k].hook <==> !NoHookStands(acts, k)
  {
    RunKeepsInv(acts, states, k);
    forall c: ClientId ensures states[k].At(c, Registered) <==> HookStands(acts, k, c) {
      RegisteredIffHookStands(acts, states, k, c);
    }
  }

  /** Which steps fire and which deliver: the call of the client does both, with the target as the
      timestamp; taking the mutex after a successful sleep fires, unheard, exactly while no hook
      stands; no other step does either. */
  lemma FiringIsDecided(acts: seq<Action>, states: seq<System>, k: nat)
    requires IsRun(acts, states) && k < |acts|
    ensures var s, s' := states[k], states[k + 1];
      if acts[k] == CallClient
      then s.pc.Calling? && s.pc.to.Some? && s'.timer.fired == s.timer.fired + [s.timer.next]
           && s'.delivered == s.delivered + [(s.pc.to.value, s.timer.next)]
      else
        && s'.delivered == s.delivered
        && s'.timer.fired ==
             s.timer.fired +
             if acts[k] == TakeMutex && s.pc == Waking(true) && NoHookStands(acts, k) then [s.timer.next] else []
  {
    assert IsStep(acts, states, k);
    HookIffSomeStands(acts, states, k);
  }

  /** The thread is inside the hook of client `c`, as it was after state `s` took the mutex. */
  predicate InHookOf(s: System, now: System, c: ClientId) {
    && (now.pc.InHook? || now.pc == Calling(Some(c)))
    && now.hook && now.At(c, Registered) && now.callback == Some(c)
    && now.timer.next == s.timer.next && now.timer.fired == s.timer.fired && now.delivered == s.delivered
  }

  lemma InHookStep(s: System, now: System, a: Action, c: ClientId)
    requires Inv(now) && InHookOf(s, now, c) && Enabled(now, a) && a != CallClient
    ensures InHookOf(s, Next(now, a), c)
  {
    assert now.Living(c);
    if a.StorePointer? || a.ClearPointer? {
      HookNeedsOther(now, a.c);
    }
  }

  lemma {:induction false} StaysInHook(acts: seq<Action>, states: seq<System>, k: nat, j: nat, c: ClientId)
    requires IsRun(acts, states) && k < j < |states|
    requires acts[k] == TakeMutex && states[k].pc == Waking(true) && HookStands(acts, k, c)
    requires forall i | k < i < j :: acts[i] != CallClient
    ensures InHookOf(states[k], states[j], c)
    decreases j
  {
    RunKeepsInv(acts, states, j - 1);
    assert IsStep(acts, states, j - 1);
    if j == k + 1 {
      RegisteredIffHookStands(acts, states, k, c);
    } else {
      StaysInHook(acts, states, k, j - 1, c);
      InHookStep(states[k], states[j - 1], acts[j - 1], c);
    }
  }

  /** In every interleaving, once the thread takes the mutex after a successful sleep while the hook
      of `c` stands, the next timestamp fired is that sleep's target, and the step that fires it
      calls client `c` with it. */
  lemma VsyncReachesTheClient(acts: seq<Action>, states: seq<System>, k: nat, j: nat, c: ClientId)
    requires IsRun(acts, states) && k <= j < |acts|
    requires acts[k] == TakeMutex && states[k].pc == Waking(true) && HookStands(acts, k, c)
    requires forall i | k <= i <= j :: states[i].timer.fired == states[k].timer.fired
    requires states[j + 1].timer.fired != states[j].timer.fired
    ensures acts[j] == CallClient
    ensures states[j + 1].timer.fired == states[k].timer.fired + [states[k].timer.next]
    ensures states[j + 1].delivered == states[k].delivered + [(c, states[k].timer.next)]
  {
    forall i | k <= i < j ensures acts[i] != CallClient {
      FiringIsDecided(acts, states, i);
    }
    FiringIsDecided(acts, states, j);
    assert !NoHookStands(acts, k);
    if j > k {
      StaysInHook(acts, states, k, j, c);
    }
  }

  /** The steps in which a thread with nothing to wait for delivers: sample, sleep until the clock
      reaches the target, take the mutex, enter the hook, call. */
  lemma SamplingThreadDelivers(s: System, c: ClientId, time: int) returns (acts: seq<Action>, states: seq<System>)
    requires Inv(s) && s.pc.Sampling? && s.At(c, Registered)
    requires time >= s.timer.clock && time >= Adjust(s.timer).next
    ensures acts == [SampleClock, ClockTick(time), EndSleep(true), TakeMutex, ReadPointer, CallClient]
    ensures |states| == 7 && states[0] == s && forall k | 0 <= k < 6 :: IsStep(acts, states, k)
    ensures states[6].pc.Looping? && states[6].delivered == s.delivered + [(c, Adjust(s.timer).next)]
  {
    acts := [SampleClock, ClockTick(time), EndSleep(true), TakeMutex, ReadPointer, CallClient];
    var s1 := Next(s, SampleClock);
    var s2 := Next(s1, ClockTick(time));
    var s3 := Next(s2, EndSleep(true));
    var s4 := Next(s3, TakeMutex);
    var s5 := Next(s4, ReadPointer);
    states := [s, s1, s2, s3, s4, s5, Next(s5, CallClient)];
  }

  /** And it does not get stuck: from the top of the loop or from its wait, enabled and with `c`
      registered, the thread needs nobody else to deliver the least vsync time due, once the clock
      reaches it. */
  lemma EnabledThreadDelivers(s: System, c: ClientId, time: int) returns (acts: seq<Action>, states: seq<System>)
    requires Inv(s) && (s.pc.Looping? || (s.pc.Blocked? && s.started)) && s.enabled && s.At(c, Registered)
    requires time >= s.timer.clock && time >= Adjust(s.timer).next
    ensures |acts| == 7 && |states| == 8 && states[0] == s && forall k | 0 <= k < 7 :: IsStep(acts, states, k)
    ensures forall k | 0 <= k < 7 :: acts[k] in {CheckEnabled, WakeUp, SampleClock, ClockTick(time), EndSleep(true),
                                                 TakeMutex, ReadPointer, CallClient}
    ensures states[7].pc.Looping? && states[7].delivered == s.delivered + [(c, Adjust(s.timer).next)]
  {
    var first := if s.pc.Looping? then CheckEnabled else WakeUp;
    var s1 := Next(s, first);
    StepKeepsInv(s, first);
    var rest, later := SamplingThreadDelivers(s1, c, time);
    acts, states := [first] + rest, [s] + later;
    forall k | 0 <= k < 7 ensures IsStep(acts, states, k) {
      if k > 0 {
        assert IsStep(rest, later, k - 1);
      }
    }
  }

  // -------------------------------------------------- disabling

  ghost predicate StaysEnabled(acts: seq<Action>, i: int, k: nat)
    requires 0 <= i < k <= |acts|
  {
    acts[i] == Enable(true) && forall j | i < j < k :: acts[j] != Enable(false)
  }

  /** Delivery is enabled exactly if the last request was to enable it. */
  lemma {:induction false} EnabledTracksHistory(acts: seq<Action>, states: seq<System>, k: nat)
    requires IsRun(acts, states) && k < |states|
    ensures states[k].enabled <==> exists i | 0 <= i < k :: StaysEnabled(acts, i, k)
  {
    if k > 0 {
      var p := k - 1;
      EnabledTracksHistory(acts, states, p);
      assert IsStep(acts, states, p);
      if states[p].enabled && acts[p] != Enable(false) {
        var i :| 0 <= i < p && StaysEnabled(acts, i, p);
        assert StaysEnabled(acts, i, k);
      }
      if states[k].enabled && acts[p] == Enable(true) {
        assert StaysEnabled(acts, p, k);
      }
      if exists i :: 0 <= i < p && StaysEnabled(acts, i, k) {
        var i :| 0 <= i < p && StaysEnabled(acts, i, k);
        assert StaysEnabled(acts, i, p);
      }
    }
  }

  function Calls(acts: seq<Action>, i: nat, j: nat): nat
    requires i <= j <= |acts|
    decreases j
  {
    if i == j then 0 else Calls(acts, i, j - 1) + if acts[j - 1] == CallClient then 1 else 0
  }

  /** The thread has passed its check of `enabled` and may still fire once. */
  predicate Committed(s: System) {
    s.pc.Sampling? || s.pc.Sleeping? || s.pc.Waking? || s.pc.InHook? || s.pc.Calling?
  }

  lemma {:induction false} CallsWhileDisabled(acts: seq<Action>, states: seq<System>, i: nat, j: nat)
    requires IsRun(acts, states) && i <= j < |states|
    requires !states[i].enabled
    requires forall k | i <= k < j :: acts[k] != Enable(true)
    ensures !states[j].enabled
    ensures Calls(acts, i, j) + (if Committed(states[j]) then 1 else 0) <= (if Committed(states[i]) then 1 else 0)
    decreases j
  {
    if i < j {
      CallsWhileDisabled(acts, states, i, j - 1);
      assert IsStep(acts, states, j - 1);
    }
  }

  /** Once disabling completes, at most one more vsync is delivered until enabling again. */
  lemma AtMostOneAfterDisable(acts: seq<Action>, states: seq<System>, i: nat, j: nat)
    requires IsRun(acts, states) && i < j < |states|
    requires acts[i] == Enable(false)
    requires forall k | i < k < j :: acts[k] != Enable(true)
    ensures Calls(acts, i + 1, j) <= 1
  {
    assert IsStep(acts, states, i);
    CallsWhileDisabled(acts, states, i + 1, j);
  }

  // -------------------------------------------------- the timestamps delivered

  /** The delivered timestamps are a strictly increasing selection of the fired ones. */
  ghost predicate DeliveredInOrder(s: System) {
    && (forall i | 0 <= i < |s.delivered| :: s.delivered[i].1 in s.timer.fired)
    && (forall i, j | 0 <= i < j < |s.delivered| :: s.delivered[i].1 < s.delivered[j].1)
  }

  lemma FiredBeforeNext(t: Timer, x: int)
    requires t.Valid() && x in t.fired
    ensures x < t.next && x <= t.clock && t.InPhase(x)
  {
    var i :| 0 <= i < |t.fired| && t.fired[i] == x;
    assert i < |t.fired| - 1 ==> t.fired[i] < t.fired[|t.fired| - 1];
  }

  lemma DeliveryStep(s: System, a: Action)
    requires Inv(s) && DeliveredInOrder(s) && Enabled(s, a)
    ensures DeliveredInOrder(Next(s, a))
  {
    var s' := Next(s, a);
    assert forall x | x in s.timer.fired :: x in s'.timer.fired;
    forall i | 0 <= i < |s.delivered| ensures s.delivered[i].1 < s.timer.next {
      FiredBeforeNext(s.timer, s.delivered[i].1);
    }
    if a == CallClient {
      assert s'.timer.fired[|s.timer.fired|] == s.timer.next;
      assert s'.delivered[|s.delivered|].1 == s.timer.next;
      forall i | 0 <= i < |s'.delivered| ensures s'.delivered[i].1 in s'.timer.fired {
        if i < |s.delivered| {
          assert s'.delivered[i] == s.delivered[i];
        }
      }
    }
  }

  lemma {:induction false} RunDeliversInOrder(acts: seq<Action>, states: seq<System>, k: nat)
    requires IsRun(acts, states) && k < |states|
    ensures DeliveredInOrder(states[k])
  {
    if k > 0 {
      RunDeliversInOrder(acts, states, k - 1);
      RunKeepsInv(acts, states, k - 1);
      assert IsStep(acts, states, k - 1);
      DeliveryStep(states[k - 1], acts[k - 1]);
    }
  }

  /** In every interleaving each delivered timestamp is a vsync time no later than the clock,
      and later deliveries carry later timestamps, across clients too. */
  lemma DeliveredTimesAreVsyncs(acts: seq<Action>, states: seq<System>, k: nat, i: nat, j: nat)
    requires IsRun(acts, states) && k < |states| && i < j < |states[k].delivered|
    ensures states[k].timer.period > 0
    ensures states[k].timer.InPhase(states[k].delivered[i].1) && states[k].delivered[i].1 <= states[k].timer.clock
    ensures states[k].delivered[i].1 + states[k].timer.period <= states[k].delivered[j].1
  {
    RunDeliversInOrder(acts, states, k);
    RunKeepsInv(acts, states, k);
    var t := states[k].timer;
    FiredBeforeNext(t, states[k].delivered[i].1);
    FiredBeforeNext(t, states[k].delivered[j].1);
    PhaseGap(t, states[k].delivered[i].1, states[k].delivered[j].1);
  }

  lemma SampleStep(s: System)
    requires s.timer.Valid() && Enabled(s, SampleClock)
    ensures Next(s, SampleClock).timer == Adjust(s.timer)
  {
  }

  lemma LeastCandidate(s: Timer)
    requires s.Valid()
    ensures var t := Adjust(s);
      && t.period > 0 && t.Candidate(t.next) && (forall x | t.Candidate(x) :: t.next <= x)
      && (t.next <= t.clock + t.period || t.next == t.first)
  {
    AdjustPicksLeast(s);
    forall x | Adjust(s).Candidate(x) ensures s.Candidate(x) {
      assert s.InPhase(x);
    }
  }

  /** A sampled target is the least vsync time that is neither past nor fired already. */
  lemma SampledTargetIsLeast(acts: seq<Action>, states: seq<System>, k: nat)
    requires IsRun(acts, states) && k < |acts| && acts[k] == SampleClock
    ensures var t := states[k + 1].timer;
      && t.period > 0 && t.Candidate(t.next) && (forall x | t.Candidate(x) :: t.next <= x)
      && (t.next <= t.clock + t.period || t.next == t.first)
  {
    RunKeepsInv(acts, states, k);
    assert IsStep(acts, states, k);
    SampleStep(states[k]);
    LeastCandidate(states[k].timer);
  }
}
