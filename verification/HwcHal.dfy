/**
  The composer HAL on top of the device: the must-validate gate, the two-call
  fetch of changed layers, and what every run of HAL calls keeps.
 */
module HwcHal {
  import opened HwcKms
  import opened HwcDevice
  import opened IntMath

  datatype Hal = Hal(device: Device, mustValidate: bool) {
    ghost predicate Valid() {
      device.Valid()
    }
  }

  /** The layers one validation reports: the dirty ones, as far as a 32-bit count goes. */
  ghost function Reported(d: Device): (r: seq<LayerId>)
    requires IsIterationOrder(d.order)
    ensures |r| == d.DirtyCount() && Distinct(r)
    ensures forall x | x in r :: x in d.dirty
    ensures |d.dirty| < UINT32_RANGE ==> forall x | x in d.dirty :: x in r
  {
    ListLength(d.order(d.dirty), d.dirty);
    d.order(d.dirty)[..d.DirtyCount()]
  }

  /** The gate is lifted by any validation call, also by one on a display that does not exist. */
  function ValidateHal(h: Hal, display: int): (Hal, Error) {
    var (d, err) := ValidateDisplay(h.device, display);
    (Hal(d, false), if err == HasChanges then NoError else err)
  }

  function PresentHal(h: Hal, display: int, drv: Driver): (Hal, Error, int) {
    if h.mustValidate then (h, NotValidated, -1)
    else
      var (d, err, fence) := PresentDisplay(h.device, display, drv);
      (h.(device := d), err, fence)
  }

  datatype Op =
    | Create(display: int)
    | Destroy(display: int, layer: LayerId)
    | SetType(display: int, layer: LayerId, composition: int)
    | SetTarget(display: int, target: Handle, dataspace: int)
    | Validate(display: int)
    | Accept(display: int)
    | Present(display: int, drv: Driver)
    | Register

  function Step(h: Hal, op: Op): (Hal, Error) {
    match op
    case Create(display) =>
      var (d, err, _) := CreateLayer(h.device, display); (h.(device := d), err)
    case Destroy(display, layer) =>
      var (d, err) := DestroyLayer(h.device, display, layer); (h.(device := d), err)
    case SetType(display, layer, composition) =>
      var (d, err) := SetLayerCompositionType(h.device, display, layer, composition); (h.(device := d), err)
    case SetTarget(display, target, dataspace) =>
      var (d, err) := SetClientTarget(h.device, display, target, dataspace); (h.(device := d), err)
    case Validate(display) => ValidateHal(h, display)
    case Accept(display) =>
      var (d, err) := AcceptDisplayChanges(h.device, display); (h.(device := d), err)
    case Present(display, drv) =>
      var (h', err, _) := PresentHal(h, display, drv); (h', err)
    case Register => (h.(mustValidate := true), NoError)
  }

  class ComposerHal {
    const device: Hwc2Device
    var mustValidateDisplay: bool

    ghost function View(): Hal
      reads this, device, device.context
    {
      Hal(device.View(), mustValidateDisplay)
    }

    constructor (device: Hwc2Device)
      ensures this.device == device && View() == Hal(device.View(), true)
    {
      this.device := device;
      mustValidateDisplay := true;
    }

    method ValidateDisplay(display: int)
      returns (err: Error, changedLayers: seq<LayerId>, compositionTypes: seq<int>)
      requires IsIterationOrder(device.order)
      modifies this, device
      ensures (View(), err) == ValidateHal(old(View()), display)
      ensures err == NoError <==> IsDisplay(display)
      ensures err == NoError ==> changedLayers == Reported(old(View()).device)
      ensures err != NoError ==> changedLayers == []
      ensures |compositionTypes| == |changedLayers| && forall t | t in compositionTypes :: t == COMPOSITION_CLIENT
    {
      changedLayers, compositionTypes := [], [];
      var types, requests;
      err, types, requests := device.Validate(display);
      mustValidateDisplay := false;
      if err != NoError && err != HasChanges {
        return;
      }
      err, types := device.CountChangedCompositionTypes(display);
      if err != NoError {
        return;
      }
      err, changedLayers, compositionTypes := device.GetChangedCompositionTypes(display, types);
    }

    method PresentDisplay(display: int, drv: Driver) returns (err: Error, fence: int)
      modifies this, device, device.context
      ensures (View(), err, fence) == PresentHal(old(View()), display, drv)
    {
      if mustValidateDisplay {
        return NotValidated, -1;
      }
      err, fence := device.Present(display, drv);
    }

    method RegisterEventCallback()
      modifies this
      ensures View() == Step(old(View()), Register).0
    {
      mustValidateDisplay := true;
    }

    method CreateLayer(display: int) returns (err: Error, id: LayerId)
      modifies device
      ensures (View(), err) == Step(old(View()), Create(display))
      ensures err == NoError ==> id in View().device.layers && id == View().device.nextLayerId
    {
      err, id := device.Create(display);
    }

    method DestroyLayer(display: int, layer: LayerId) returns (err: Error)
      modifies device
      ensures (View(), err) == Step(old(View()), Destroy(display, layer))
    {
      err := device.Destroy(display, layer);
    }

    method SetLayerCompositionType(display: int, layer: LayerId, composition: int) returns (err: Error)
      modifies device
      ensures (View(), err) == Step(old(View()), SetType(display, layer, composition))
    {
      err := device.SetComposition(display, layer, composition);
    }

    method SetClientTarget(display: int, target: Handle, dataspace: int) returns (err: Error)
      modifies device
      ensures (View(), err) == Step(old(View()), SetTarget(display, target, dataspace))
    {
      err := device.SetTarget(display, target, dataspace);
    }

    method AcceptDisplayChanges(display: int) returns (err: Error)
      modifies device
      ensures (View(), err) == Step(old(View()), Accept(display))
    {
      err := device.Accept(display);
    }
  }

  // -------------------------------------------------- runs of HAL calls

  ghost predicate Initial(h: Hal) {
    h.Valid() && h.device.state == Modified && h.device.layers == {} && h.device.nextLayerId == 0
    && h.device.target == NullHandle && h.mustValidate
  }

  /** What the caller of one HAL call learns from it. */
  datatype Outcome =
    | Created(id: LayerId)
    | Changed
    | ValidatedClean
    | ValidatedDirty
    | ValidationRefused
    | Accepted
    | Retargeted(target: Handle)
    | Presented
    | Registered
    | Refused
  {
    predicate IsChange() {
      Created? || Changed?
    }

    predicate IsValidation() {
      ValidatedClean? || ValidatedDirty?
    }
  }

  function Observe(h: Hal, op: Op): Outcome {
    var err := Step(h, op).1;
    if op.Validate? && err != NoError then ValidationRefused
    else if err != NoError then Refused
    else match op
      case Create(display) => Created(CreateLayer(h.device, display).2)
      case Destroy(_, _) => Changed
      case SetType(_, _, _) => Changed
      case SetTarget(_, target, _) => Retargeted(target)
      case Validate(_) => if h.device.DirtyCount() == 0 then ValidatedClean else ValidatedDirty
      case Accept(_) => Accepted
      case Present(_, _) => Presented
      case Register => Registered
  }

  function StateAt(init: Hal, ops: seq<Op>, k: nat): Hal
    requires k <= |ops|
  {
    if k == 0 then init else Step(StateAt(init, ops, k - 1), ops[k - 1]).0
  }

  function LogAt(init: Hal, ops: seq<Op>, k: nat): (log: seq<Outcome>)
    requires k <= |ops|
    ensures |log| == k
  {
    if k == 0 then [] else LogAt(init, ops, k - 1) + [Observe(StateAt(init, ops, k - 1), ops[k - 1])]
  }

  lemma StepKeepsValid(h: Hal, op: Op)
    requires h.Valid()
    ensures Step(h, op).0.Valid()
  {
  }

  lemma {:induction false} RunKeepsValid(init: Hal, ops: seq<Op>, k: nat)
    requires k <= |ops| && init.Valid()
    ensures StateAt(init, ops, k).Valid()
  {
    if k > 0 {
      RunKeepsValid(init, ops, k - 1);
      StepKeepsValid(StateAt(init, ops, k - 1), ops[k - 1]);
    }
  }

  ghost function StatesTo(init: Hal, ops: seq<Op>, k: nat): (hs: seq<Hal>)
    requires k <= |ops|
    ensures |hs| == k + 1 && forall i | 0 <= i <= k :: hs[i] == StateAt(init, ops, i)
  {
    seq(k + 1, i requires 0 <= i <= k => StateAt(init, ops, i))
  }

  lemma {:induction false} LogEntry(init: Hal, ops: seq<Op>, k: nat, i: nat)
    requires i < k <= |ops|
    ensures LogAt(init, ops, k)[i] == Observe(StateAt(init, ops, i), ops[i])
  {
    if i < k - 1 {
      LogEntry(init, ops, k - 1, i);
    }
  }

  // -------------------------------------------------- present, characterised by history

  /** Call `i` validated, and no layer was created, destroyed or re-typed since. */
  ghost predicate StillValidated(log: seq<Outcome>, i: nat)
    requires i < |log|
  {
    log[i].IsValidation() && forall j | i < j < |log| :: !log[j].IsChange()
  }

  ghost predicate SomeValidation(log: seq<Outcome>) {
    exists i: nat | i < |log| :: StillValidated(log, i)
  }

  ghost predicate AcceptedAfter(log: seq<Outcome>, i: nat) {
    exists j | i < j < |log| :: log[j].Accepted?
  }

  /** Some validation still stands, and if it reported changes a later call accepted them. */
  ghost predicate Settled(log: seq<Outcome>) {
    exists i: nat | i < |log| :: StillValidated(log, i) && (log[i].ValidatedClean? || AcceptedAfter(log, i))
  }

  /** Call `i` asked for a validation, successful or not, and no callback was registered since. */
  ghost predicate StillLifted(log: seq<Outcome>, i: nat)
    requires i < |log|
  {
    (log[i].IsValidation() || log[i].ValidationRefused?) && forall j | i < j < |log| :: !log[j].Registered?
  }

  ghost predicate GateLifted(log: seq<Outcome>) {
    exists i: nat | i < |log| :: StillLifted(log, i)
  }

  lemma SomeValidationSnoc(log: seq<Outcome>, x: Outcome)
    ensures SomeValidation(log + [x]) <==> x.IsValidation() || (SomeValidation(log) && !x.IsChange())
  {
    var l := log + [x];
    if x.IsValidation() {
      assert StillValidated(l, |log|);
    }
    if SomeValidation(log) && !x.IsChange() {
      var i: nat :| i < |log| && StillValidated(log, i);
      assert StillValidated(l, i);
    }
    if SomeValidation(l) && !x.IsValidation() {
      var i: nat :| i < |l| && StillValidated(l, i);
      assert l[|log|] == x;
      assert forall j | i < j < |log| :: l[j] == log[j];
      assert StillValidated(log, i);
    }
  }

  lemma SettledSnoc(log: seq<Outcome>, x: Outcome)
    ensures Settled(log + [x]) <==>
      x.ValidatedClean? || (!x.IsChange() && (Settled(log) || (x.Accepted? && SomeValidation(log))))
  {
    var l := log + [x];
    assert l[|log|] == x;
    if x.ValidatedClean? {
      assert StillValidated(l, |log|);
    }
    if Settled(log) && !x.IsChange() {
      var i: nat :| i < |log| && StillValidated(log, i) && (log[i].ValidatedClean? || AcceptedAfter(log, i));
      assert StillValidated(l, i) && l[i] == log[i];
      if AcceptedAfter(log, i) {
        var j :| i < j < |log| && log[j].Accepted?;
        assert l[j].Accepted?;
      }
    }
    if x.Accepted? && SomeValidation(log) {
      var i: nat :| i < |log| && StillValidated(log, i);
      assert StillValidated(l, i) && AcceptedAfter(l, i);
    }
    if Settled(l) && !x.ValidatedClean? {
      var i: nat :| i < |l| && StillValidated(l, i) && (l[i].ValidatedClean? || AcceptedAfter(l, i));
      assert i < |log| && l[i] == log[i];
      assert forall j | i < j < |log| :: l[j] == log[j];
      assert StillValidated(log, i);
      if AcceptedAfter(l, i) && !x.Accepted? {
        var j :| i < j < |l| && l[j].Accepted?;
        assert log[j].Accepted?;
      }
    }
  }

  lemma GateSnoc(log: seq<Outcome>, x: Outcome)
    ensures GateLifted(log + [x]) <==>
      x.IsValidation() || x.ValidationRefused? || (GateLifted(log) && !x.Registered?)
  {
    var l := log + [x];
    assert l[|log|] == x;
    if x.IsValidation() || x.ValidationRefused? {
      assert StillLifted(l, |log|);
    }
    if GateLifted(log) && !x.Registered? {
      var i: nat :| i < |log| && StillLifted(log, i);
      assert StillLifted(l, i);
    }
    if GateLifted(l) && !x.IsValidation() && !x.ValidationRefused? {
      var i: nat :| i < |l| && StillLifted(l, i);
      assert forall j | i < j < |log| :: l[j] == log[j];
      assert StillLifted(log, i);
    }
  }

  /** How an outcome moves the device state and the gate. */
  ghost predicate StateLaw(h: Hal, x: Outcome, h': Hal) {
    && (h'.device.state != Modified <==> x.IsValidation() || (h.device.state != Modified && !x.IsChange()))
    && (h'.device.state == Validated <==>
          x.ValidatedClean?
          || (!x.IsChange() && (h.device.state == Validated || (x.Accepted? && h.device.state != Modified))))
    && (!h'.mustValidate <==> x.IsValidation() || x.ValidationRefused? || (!h.mustValidate && !x.Registered?))
  }

  lemma StepObeysStateLaw(h: Hal, op: Op)
    requires h.Valid()
    ensures StateLaw(h, Observe(h, op), Step(h, op).0)
  {
  }

  lemma {:induction false} StateLawTracksHistory(hs: seq<Hal>, log: seq<Outcome>)
    requires |hs| == |log| + 1 && hs[0].device.state == Modified && hs[0].mustValidate
    requires forall i | 0 <= i < |log| :: StateLaw(hs[i], log[i], hs[i + 1])
    ensures hs[|log|].device.state != Modified <==> SomeValidation(log)
    ensures hs[|log|].device.state == Validated <==> Settled(log)
    ensures !hs[|log|].mustValidate <==> GateLifted(log)
    decreases |log|
  {
    if log != [] {
      var n := |log| - 1;
      var before, x := log[..n], log[n];
      assert log == before + [x];
      StateLawTracksHistory(hs[..n + 1], before);
      SomeValidationSnoc(before, x);
      SettledSnoc(before, x);
      GateSnoc(before, x);
      assert StateLaw(hs[n], x, hs[n + 1]);
    }
  }

  lemma StateTracksHistory(init: Hal, ops: seq<Op>, k: nat)
    requires k <= |ops| && Initial(init)
    ensures StateAt(init, ops, k).device.state != Modified <==> SomeValidation(LogAt(init, ops, k))
    ensures StateAt(init, ops, k).device.state == Validated <==> Settled(LogAt(init, ops, k))
    ensures !StateAt(init, ops, k).mustValidate <==> GateLifted(LogAt(init, ops, k))
  {
    var hs, log := StatesTo(init, ops, k), LogAt(init, ops, k);
    forall i | 0 <= i < k ensures StateLaw(hs[i], log[i], hs[i + 1]) {
      RunKeepsValid(init, ops, i);
      LogEntry(init, ops, k, i);
      StepObeysStateLaw(hs[i], ops[i]);
    }
    StateLawTracksHistory(hs, log);
  }

  /** Present succeeds exactly when the history says so, on either display; and then no
      layer is dirty, short of 2^32 of them. */
  lemma PresentIffSettled(init: Hal, ops: seq<Op>, k: nat)
    requires k < |ops| && Initial(init) && ops[k].Present?
    ensures var h := StateAt(init, ops, k); var log := LogAt(init, ops, k);
      && (Observe(h, ops[k]) == Presented <==> IsDisplay(ops[k].display) && Settled(log) && GateLifted(log))
      && (Observe(h, ops[k]) == Presented ==> h.device.DirtyCount() == 0)
      && (Observe(h, ops[k]) == Presented && |h.device.layers| < UINT32_RANGE ==> h.device.dirty == {})
  {
    StateTracksHistory(init, ops, k);
    RunKeepsValid(init, ops, k);
    var d := StateAt(init, ops, k).device;
    SubsetSize(d.dirty, d.layers);
  }

  lemma {:induction false} SubsetSize<T>(a: set<T>, b: set<T>)
    requires a <= b
    ensures |a| <= |b|
    decreases a
  {
    if a != {} {
      var x :| x in a;
      SubsetSize(a - {x}, b - {x});
    }
  }

  // -------------------------------------------------- the buffer that is posted

  function LastTarget(log: seq<Outcome>): Handle {
    if log == [] then NullHandle
    else if log[|log| - 1].Retargeted? then log[|log| - 1].target
    else LastTarget(log[..|log| - 1])
  }

  lemma TargetAfterStep(h: Hal, op: Op)
    ensures var x := Observe(h, op);
      Step(h, op).0.device.target == if x.Retargeted? then x.target else h.device.target
  {
  }

  lemma LastTargetSnoc(log: seq<Outcome>, x: Outcome)
    ensures LastTarget(log + [x]) == if x.Retargeted? then x.target else LastTarget(log)
  {
    assert (log + [x])[..|log|] == log;
  }

  /** The device posts the target of the last accepted set-client-target call of either
      display, and no buffer before the first. */
  lemma {:induction false} PostsLastTarget(init: Hal, ops: seq<Op>, k: nat)
    requires k <= |ops| && Initial(init)
    ensures StateAt(init, ops, k).device.target == LastTarget(LogAt(init, ops, k))
  {
    if k > 0 {
      PostsLastTarget(init, ops, k - 1);
      var h := StateAt(init, ops, k - 1);
      TargetAfterStep(h, ops[k - 1]);
      LastTargetSnoc(LogAt(init, ops, k - 1), Observe(h, ops[k - 1]));
    }
  }

  // -------------------------------------------------- which layers exist and which are dirty

  predicate Dirties(op: Op, x: Outcome, l: LayerId) {
    x == Created(l) || (op.SetType? && op.layer == l && op.composition != COMPOSITION_CLIENT && x.Changed?)
  }

  predicate Cleans(op: Op, x: Outcome, l: LayerId) {
    x.Accepted? || (x.Changed? && ((op.Destroy? && op.layer == l)
                                   || (op.SetType? && op.layer == l && op.composition == COMPOSITION_CLIENT)))
  }

  predicate Destroys(op: Op, x: Outcome, l: LayerId) {
    op.Destroy? && op.layer == l && x.Changed?
  }

  /** Call `i` created layer `l`, and no later one destroyed it. */
  ghost predicate StillThere(ops: seq<Op>, log: seq<Outcome>, i: nat, l: LayerId)
    requires i < |log| <= |ops|
  {
    log[i] == Created(l) && forall j | i < j < |log| :: !Destroys(ops[j], log[j], l)
  }

  /** Call `i` made layer `l` dirty, and no later one destroyed it, accepted or made it CLIENT. */
  ghost predicate StillDirty(ops: seq<Op>, log: seq<Outcome>, i: nat, l: LayerId)
    requires i < |log| <= |ops|
  {
    Dirties(ops[i], log[i], l) && forall j | i < j < |log| :: !Cleans(ops[j], log[j], l)
  }

  ghost predicate ExistsByHistory(ops: seq<Op>, log: seq<Outcome>, l: LayerId)
    requires |log| <= |ops|
  {
    exists i: nat | i < |log| :: StillThere(ops, log, i, l)
  }

  ghost predicate DirtyByHistory(ops: seq<Op>, log: seq<Outcome>, l: LayerId)
    requires |log| <= |ops|
  {
    exists i: nat | i < |log| :: StillDirty(ops, log, i, l)
  }

  /** How a call moves layer `l` in and out of the two sets. */
  ghost predicate LayerLaw(d: Device, op: Op, x: Outcome, d': Device, l: LayerId) {
    && (l in d'.layers <==> x == Created(l) || (l in d.layers && !Destroys(op, x, l)))
    && (l in d'.dirty <==> Dirties(op, x, l) || (l in d.dirty && !Cleans(op, x, l)))
  }

  lemma StepObeysLayerLaw(h: Hal, op: Op, l: LayerId)
    requires h.Valid()
    ensures LayerLaw(h.device, op, Observe(h, op), Step(h, op).0.device, l)
  {
  }

  lemma ExistsSnoc(ops: seq<Op>, log: seq<Outcome>, x: Outcome, l: LayerId)
    requires |log| < |ops|
    ensures ExistsByHistory(ops, log + [x], l) <==>
      x == Created(l) || (ExistsByHistory(ops, log, l) && !Destroys(ops[|log|], x, l))
  {
    var longer := log + [x];
    assert longer[|log|] == x;
    if x == Created(l) {
      assert StillThere(ops, longer, |log|, l);
    }
    if ExistsByHistory(ops, log, l) && !Destroys(ops[|log|], x, l) {
      var i: nat :| i < |log| && StillThere(ops, log, i, l);
      assert StillThere(ops, longer, i, l);
    }
    if ExistsByHistory(ops, longer, l) && x != Created(l) {
      var i: nat :| i < |longer| && StillThere(ops, longer, i, l);
      assert forall j | i < j < |log| :: longer[j] == log[j];
      assert StillThere(ops, log, i, l);
    }
  }

  lemma DirtySnoc(ops: seq<Op>, log: seq<Outcome>, x: Outcome, l: LayerId)
    requires |log| < |ops|
    ensures DirtyByHistory(ops, log + [x], l) <==>
      Dirties(ops[|log|], x, l) || (DirtyByHistory(ops, log, l) && !Cleans(ops[|log|], x, l))
  {
    var longer := log + [x];
    assert longer[|log|] == x;
    if Dirties(ops[|log|], x, l) {
      assert StillDirty(ops, longer, |log|, l);
    }
    if DirtyByHistory(ops, log, l) && !Cleans(ops[|log|], x, l) {
      var i: nat :| i < |log| && StillDirty(ops, log, i, l);
      assert StillDirty(ops, longer, i, l);
    }
    if DirtyByHistory(ops, longer, l) && !Dirties(ops[|log|], x, l) {
      var i: nat :| i < |longer| && StillDirty(ops, longer, i, l);
      assert forall j | i < j < |log| :: longer[j] == log[j];
      assert StillDirty(ops, log, i, l);
    }
  }

  lemma {:induction false} LayerLawTracksHistory(hs: seq<Hal>, ops: seq<Op>, log: seq<Outcome>, l: LayerId)
    requires |hs| == |log| + 1 && |log| <= |ops| && l !in hs[0].device.layers + hs[0].device.dirty
    requires forall i | 0 <= i < |log| :: LayerLaw(hs[i].device, ops[i], log[i], hs[i + 1].device, l)
    ensures l in hs[|log|].device.layers <==> ExistsByHistory(ops, log, l)
    ensures l in hs[|log|].device.dirty <==> DirtyByHistory(ops, log, l)
    decreases |log|
  {
    if log != [] {
      var n := |log| - 1;
      var before, x := log[..n], log[n];
      assert log == before + [x];
      LayerLawTracksHistory(hs[..n + 1], ops, before, l);
      ExistsSnoc(ops, before, x, l);
      DirtySnoc(ops, before, x, l);
      assert LayerLaw(hs[n].device, ops[n], x, hs[n + 1].device, l);
    }
  }

  /** In every run a layer exists exactly if it was created and not destroyed since, and is dirty,
      and so reported by a validation, exactly if it was created or given a type other than CLIENT
      and since then neither destroyed nor given type CLIENT nor covered by an accept on either
      display. */
  lemma LayersTrackHistory(init: Hal, ops: seq<Op>, k: nat, l: LayerId)
    requires k <= |ops| && Initial(init)
    ensures l in StateAt(init, ops, k).device.layers <==> ExistsByHistory(ops, LogAt(init, ops, k), l)
    ensures l in StateAt(init, ops, k).device.dirty <==> DirtyByHistory(ops, LogAt(init, ops, k), l)
  {
    var hs, log := StatesTo(init, ops, k), LogAt(init, ops, k);
    forall i | 0 <= i < k ensures LayerLaw(hs[i].device, ops[i], log[i], hs[i + 1].device, l) {
      RunKeepsValid(init, ops, i);
      LogEntry(init, ops, k, i);
      StepObeysLayerLaw(hs[i], ops[i], l);
    }
    LayerLawTracksHistory(hs, ops, log, l);
  }

  // -------------------------------------------------- what every call answers

  /** What call `k` must answer, from its arguments and the history of answers before it. */
  ghost function ErrorByHistory(ops: seq<Op>, log: seq<Outcome>): Error
    requires |log| < |ops|
  {
    match ops[|log|]
    case Create(d) => if d != 0 && d != 1 then BadDisplay else NoError
    case Destroy(d, l) =>
      if d != 0 && d != 1 then BadDisplay else if ExistsByHistory(ops, log, l) then NoError else BadLayer
    case SetType(d, l, _) =>
      if d != 0 && d != 1 then BadDisplay else if ExistsByHistory(ops, log, l) then NoError else BadLayer
    case SetTarget(d, _, dataspace) =>
      if d != 0 && d != 1 then BadDisplay else if dataspace == 0 then NoError else BadParameter
    case Validate(d) => if d != 0 && d != 1 then BadDisplay else NoError
    case Accept(d) => if d != 0 && d != 1 then BadDisplay else if SomeValidation(log) then NoError else NotValidated
    case Present(d, _) =>
      if !GateLifted(log) then NotValidated
      else if d != 0 && d != 1 then BadDisplay
      else if Settled(log) then NoError else NotValidated
    case Register => NoError
  }

  /** What the log then records: the error, or what the call achieved. */
  ghost predicate OutcomeFits(h: Hal, op: Op, err: Error, x: Outcome) {
    if err != NoError then x == if op.Validate? then ValidationRefused else Refused
    else match op
      case Create(_) => x.Created?
      case Destroy(_, _) => x == Changed
      case SetType(_, _, _) => x == Changed
      case SetTarget(_, target, _) => x == Retargeted(target)
      case Validate(_) =>
        (x == ValidatedClean || x == ValidatedDirty)
        && (|h.device.dirty| < UINT32_RANGE ==> (x == ValidatedClean <==> h.device.dirty == {}))
      case Accept(_) => x == Accepted
      case Present(_, _) => x == Presented
      case Register => x == Registered
  }

  lemma AnswerFromState(h: Hal, op: Op)
    requires h.Valid()
    ensures OutcomeFits(h, op, Step(h, op).1, Observe(h, op))
    ensures Step(h, op).1 == match op
      case Create(d) => if d != 0 && d != 1 then BadDisplay else NoError
      case Destroy(d, l) => if d != 0 && d != 1 then BadDisplay else if l in h.device.layers then NoError else BadLayer
      case SetType(d, l, _) => if d != 0 && d != 1 then BadDisplay else if l in h.device.layers then NoError else BadLayer
      case SetTarget(d, _, dataspace) =>
        if d != 0 && d != 1 then BadDisplay else if dataspace == 0 then NoError else BadParameter
      case Validate(d) => if d != 0 && d != 1 then BadDisplay else NoError
      case Accept(d) =>
        if d != 0 && d != 1 then BadDisplay else if h.device.state != Modified then NoError else NotValidated
      case Present(d, _) =>
        if h.mustValidate then NotValidated
        else if d != 0 && d != 1 then BadDisplay
        else if h.device.state == Validated then NoError else NotValidated
      case Register => NoError
  {
  }

  /** In every run the answer of every call, success or which error, is decided by its arguments
      and the history of answers. */
  lemma AnswersAreDecided(init: Hal, ops: seq<Op>, k: nat)
    requires k < |ops| && Initial(init)
    ensures var h := StateAt(init, ops, k);
      && Step(h, ops[k]).1 == ErrorByHistory(ops, LogAt(init, ops, k))
      && OutcomeFits(h, ops[k], Step(h, ops[k]).1, Observe(h, ops[k]))
  {
    RunKeepsValid(init, ops, k);
    StateTracksHistory(init, ops, k);
    AnswerFromState(StateAt(init, ops, k), ops[k]);
    if ops[k].Destroy? || ops[k].SetType? {
      LayersTrackHistory(init, ops, k, ops[k].layer);
    }
  }

  // -------------------------------------------------- the posts that a run makes

  /** One post of the last accepted target for each successful present. */
  function PostsOf(ops: seq<Op>, log: seq<Outcome>): seq<PostCall>
    requires |log| <= |ops|
  {
    if log == [] then []
    else
      var n := |log| - 1;
      PostsOf(ops, log[..n]) +
      if ops[n].Present? && log[n] == Presented then [PostCall(ops[n].display, LastTarget(log[..n]), ops[n].drv)] else []
  }

  /** How a call moves the display hardware's state, `target` being the device's. */
  ghost predicate KmsLaw(h: Hal, op: Op, x: Outcome, h': Hal) {
    h'.device.kms ==
      if op.Present? && x == Presented then Post(h.device.kms, op.display, h.device.target, op.drv, -1).kms
      else h.device.kms
  }

  lemma StepObeysKmsLaw(h: Hal, op: Op)
    ensures KmsLaw(h, op, Observe(h, op), Step(h, op).0)
  {
  }

  lemma KmsAtPrefix(init: Kms, calls: seq<PostCall>, more: seq<PostCall>, k: nat)
    requires k <= |calls|
    ensures KmsAt(init, calls + more, k) == KmsAt(init, calls, k)
  {
    if k > 0 {
      KmsAtPrefix(init, calls, more, k - 1);
    }
  }

  lemma KmsAtSnoc(init: Kms, calls: seq<PostCall>, c: PostCall)
    ensures KmsAt(init, calls + [c], |calls| + 1) ==
            Post(KmsAt(init, calls, |calls|), c.display, c.handle, c.drv, -1).kms
  {
    KmsAtPrefix(init, calls, [c], |calls|);
  }

  lemma {:induction false} KmsLawIsRunOfPosts(hs: seq<Hal>, ops: seq<Op>, log: seq<Outcome>)
    requires |hs| == |log| + 1 && |log| <= |ops|
    requires forall i | 0 <= i < |log| :: KmsLaw(hs[i], ops[i], log[i], hs[i + 1])
    requires forall i | 0 <= i < |log| :: hs[i].device.target == LastTarget(log[..i])
    ensures hs[|log|].device.kms == KmsAt(hs[0].device.kms, PostsOf(ops, log), |PostsOf(ops, log)|)
    decreases |log|
  {
    if log != [] {
      var n := |log| - 1;
      assert forall i | 0 <= i < n :: log[..n][..i] == log[..i];
      KmsLawIsRunOfPosts(hs[..n + 1], ops, log[..n]);
      assert KmsLaw(hs[n], ops[n], log[n], hs[n + 1]);
      if ops[n].Present? && log[n] == Presented {
        KmsAtSnoc(hs[0].device.kms, PostsOf(ops, log[..n]), PostCall(ops[n].display, LastTarget(log[..n]), ops[n].drv));
      } else {
        assert PostsOf(ops, log) == PostsOf(ops, log[..n]);
      }
    }
  }

  lemma LogPrefix(init: Hal, ops: seq<Op>, k: nat, i: nat)
    requires i <= k <= |ops|
    ensures LogAt(init, ops, k)[..i] == LogAt(init, ops, i)
  {
    forall j | 0 <= j < i ensures LogAt(init, ops, k)[j] == LogAt(init, ops, i)[j] {
      LogEntry(init, ops, k, j);
      LogEntry(init, ops, i, j);
    }
  }

  /** In every run the display hardware goes exactly through the posts of the last accepted target,
      one for each successful present and no other; so what is proved of runs of posts holds of
      runs of calls. */
  lemma KmsIsRunOfPosts(init: Hal, ops: seq<Op>, k: nat)
    requires k <= |ops| && Initial(init)
    ensures var posts := PostsOf(ops, LogAt(init, ops, k));
      StateAt(init, ops, k).device.kms == KmsAt(init.device.kms, posts, |posts|)
  {
    var hs, log := StatesTo(init, ops, k), LogAt(init, ops, k);
    forall i | 0 <= i < k ensures KmsLaw(hs[i], ops[i], log[i], hs[i + 1]) {
      LogEntry(init, ops, k, i);
      StepObeysKmsLaw(hs[i], ops[i]);
    }
    forall i | 0 <= i < k ensures hs[i].device.target == LastTarget(log[..i]) {
      PostsLastTarget(init, ops, i);
      LogPrefix(init, ops, k, i);
    }
    KmsLawIsRunOfPosts(hs, ops, log);
  }

  /** A successful present hands out the fence of its post, a refused one none. */
  lemma PresentFenceIsThePosts(h: Hal, display: int, drv: Driver)
    ensures var p := PresentHal(h, display, drv);
      p.2 == if p.1 == NoError then Post(h.device.kms, display, h.device.target, drv, -1).fence else -1
  {
  }

  // -------------------------------------------------- layer ids

  function Creations(log: seq<Outcome>): nat {
    if log == [] then 0
    else Creations(log[..|log| - 1]) + if log[|log| - 1].Created? then 1 else 0
  }

  /** How an outcome moves the layer counter. */
  ghost predicate IdLaw(h: Hal, x: Outcome, h': Hal) {
    if x.Created? then x.id == h'.device.nextLayerId == NextId(h.device.nextLayerId)
    else h'.device.nextLayerId == h.device.nextLayerId
  }

  lemma StepObeysIdLaw(h: Hal, op: Op)
    ensures IdLaw(h, Observe(h, op), Step(h, op).0)
  {
  }

  lemma CreationsSnoc(log: seq<Outcome>, x: Outcome)
    ensures Creations(log + [x]) == Creations(log) + if x.Created? then 1 else 0
  {
    assert (log + [x])[..|log|] == log;
  }

  /** Every id handed out is the number of its creation, modulo `range`. */
  ghost predicate IdsAreNumbers(log: seq<Outcome>, range: int)
    requires range > 1
  {
    forall i | 0 <= i < |log| && log[i].Created? :: log[i].id == (Creations(log[..i]) + 1) % range
  }

  lemma IdsSnoc(log: seq<Outcome>, x: Outcome, next: nat, next': nat, range: int)
    requires range > 1
    requires IdsAreNumbers(log, range) && next == Creations(log) % range
    requires if x.Created? then x.id == next' == (if next + 1 == range then 0 else next + 1) else next' == next
    ensures IdsAreNumbers(log + [x], range) && next' == Creations(log + [x]) % range
  {
    var l := log + [x];
    CreationsSnoc(log, x);
    ModSucc(Creations(log), range);
    forall i | 0 <= i < |l| && l[i].Created? ensures l[i].id == (Creations(l[..i]) + 1) % range {
      assert l[..i] == log[..i];
      assert log[..|log|] == log;
    }
  }

  lemma {:induction false} IdLawNumbers(hs: seq<Hal>, log: seq<Outcome>, range: int)
    requires |hs| == |log| + 1 && hs[0].device.nextLayerId == 0 && range == UINT64_RANGE
    requires forall i | 0 <= i < |log| :: IdLaw(hs[i], log[i], hs[i + 1])
    ensures hs[|log|].device.nextLayerId == Creations(log) % range && IdsAreNumbers(log, range)
    decreases |log|
  {
    if log != [] {
      var n := |log| - 1;
      assert log == log[..n] + [log[n]];
      IdLawNumbers(hs[..n + 1], log[..n], range);
      assert IdLaw(hs[n], log[n], hs[n + 1]);
      IdsSnoc(log[..n], log[n], hs[n].device.nextLayerId, hs[n + 1].device.nextLayerId, range);
    }
  }

  lemma IdsAreCreationNumbers(init: Hal, ops: seq<Op>, k: nat, range: int)
    requires k <= |ops| && Initial(init) && range == UINT64_RANGE
    ensures StateAt(init, ops, k).device.nextLayerId == Creations(LogAt(init, ops, k)) % range
    ensures IdsAreNumbers(LogAt(init, ops, k), range)
  {
    var hs, log := StatesTo(init, ops, k), LogAt(init, ops, k);
    forall i | 0 <= i < k ensures IdLaw(hs[i], log[i], hs[i + 1]) {
      LogEntry(init, ops, k, i);
      StepObeysIdLaw(hs[i], ops[i]);
    }
    IdLawNumbers(hs, log, range);
  }

  lemma {:induction false} CreationsBetween(log: seq<Outcome>, i: nat, j: nat)
    requires i < j <= |log| && log[i].Created?
    ensures Creations(log[..i]) < Creations(log[..j])
    decreases j
  {
    assert log[..j] == log[..j - 1] + [log[j - 1]];
    CreationsSnoc(log[..j - 1], log[j - 1]);
    if i < j - 1 {
      CreationsBetween(log, i, j - 1);
    }
  }

  lemma NumbersRepeat(log: seq<Outcome>, i: nat, j: nat, range: int)
    requires range > 1 && IdsAreNumbers(log, range)
    requires i < j < |log| && log[i].Created? && log[j].Created?
    ensures Creations(log[..i]) < Creations(log[..j])
    ensures log[i].id == log[j].id <==> (Creations(log[..j]) - Creations(log[..i])) % range == 0
  {
    CreationsBetween(log, i, j);
    SameResidue(Creations(log[..i]) + 1, Creations(log[..j]) + 1, range);
  }

  /** Two creations are given the same id exactly when their numbers agree modulo 2^64;
      so none of the next 2^64 - 1 creations reuses an id. */
  lemma IdsRepeatOnlyAfterWrap(init: Hal, ops: seq<Op>, log: seq<Outcome>, i: nat, j: nat, range: int)
    requires Initial(init) && range == UINT64_RANGE && log == LogAt(init, ops, |ops|)
    requires i < j < |log| && log[i].Created? && log[j].Created?
    ensures Creations(log[..i]) < Creations(log[..j])
    ensures log[i].id == log[j].id <==> (Creations(log[..j]) - Creations(log[..i])) % range == 0
  {
    IdsAreCreationNumbers(init, ops, |ops|, range);
    NumbersRepeat(log, i, j, range);
  }

  // -------------------------------------------------- the final validate, accept, present

  /** From any state, reachable or not, validate then accept then present succeeds on display 0
      or 1 and leaves nothing dirty; on any other display all three are refused. */
  lemma ValidateAcceptPresent(h: Hal, display: int, drv: Driver)
    ensures var v := Step(h, Validate(display));
      var a := Step(v.0, Accept(display));
      var p := Step(a.0, Present(display, drv));
      && (v.1 == NoError <==> IsDisplay(display))
      && (a.1 == NoError <==> IsDisplay(display))
      && (p.1 == NoError <==> IsDisplay(display))
      && (IsDisplay(display) ==>
            p.0.device == h.device.(state := Validated, dirty := {},
                                    kms := Post(h.device.kms, display, h.device.target, drv, -1).kms))
  {
  }
}
