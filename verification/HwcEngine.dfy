/**
  The command engine: a batch of display commands runs over the HAL and the
  resource cache, and every result goes to an append-only log.
 */
module HwcEngine {
  import opened Wrappers
  import opened HwcKms
  import opened HwcDevice
  import opened HwcHal

  /** A buffer slot; no handle means "use the cached one". */
  datatype BufferRef = BufferRef(slot: int, handle: Option<Handle>)

  /** The resource cache, whose inside is not modelled: each query is some function of
      its state; the code 0 means success. */
  datatype ResourceManager<!R> = ResourceManager(
    clientTarget: (R, int, BufferRef) -> (R, int, Handle),
    outputBuffer: (R, int, BufferRef) -> (R, int),
    layerBuffer: (R, int, LayerId, BufferRef) -> (R, int),
    sidebandStream: (R, int, LayerId, Handle) -> (R, int),
    setMustValidate: (R, int, bool) -> R)

  datatype LayerCommand = LayerCommand(
    layer: LayerId,
    buffer: Option<BufferRef>,
    composition: Option<int>,
    sidebandStream: Option<Handle>)

  datatype ClientTarget = ClientTarget(buffer: BufferRef, dataspace: int)

  /** `drv` is what the kernel answers if this command posts. */
  datatype DisplayCommand = DisplayCommand(
    display: int,
    layers: seq<LayerCommand>,
    clientTarget: Option<ClientTarget>,
    outputBuffer: Option<BufferRef>,
    validate: bool,
    accept: bool,
    present: bool,
    presentOrValidate: bool,
    drv: Driver)

  datatype Result =
    | CommandError(index: nat, error: Error)
    | ChangedCompositionTypes(display: int, layers: seq<LayerId>)
    | DisplayRequests(display: int)
    | ClientTargetProperty(display: int)
    | ValidatedInstead(display: int)
    | PresentFence(display: int, fence: int)
    | ReleaseFences(display: int)

  function Shift(r: Result, offset: nat): Result {
    if r.CommandError? then r.(index := r.index + offset) else r
  }

  ghost function ShiftAll(log: seq<Result>, offset: nat): (s: seq<Result>)
    ensures |s| == |log|
    ensures forall i | 0 <= i < |log| :: s[i] == Shift(log[i], offset)
  {
    seq(|log|, i requires 0 <= i < |log| => Shift(log[i], offset))
  }

  // -------------------------------------------------- what one command does

  /** HAL, resource cache and the results of a stretch of execution. */
  datatype Run<R> = Run(hal: Hal, resources: R, log: seq<Result>)

  function Report(index: nat, err: Error): seq<Result> {
    if err == NoError then [] else [CommandError(index, err)]
  }

  function Resource(code: int): Error {
    if code == 0 then NoError else ResourceError(code)
  }

  function RunLayer<R>(m: ResourceManager<R>, s: Run<R>, display: int, c: LayerCommand, index: nat): Run<R> {
    var s1 :=
      if c.buffer.None? then s
      else
        var (r, code) := m.layerBuffer(s.resources, display, c.layer, c.buffer.value);
        s.(resources := r, log := s.log + Report(index, Resource(code)));
    var s2 :=
      if c.composition.None? then s1
      else
        var (h, err) := Step(s1.hal, SetType(display, c.layer, c.composition.value));
        s1.(hal := h, log := s1.log + Report(index, err));
    if c.sidebandStream.None? then s2
    else s2.(resources := m.sidebandStream(s2.resources, display, c.layer, c.sidebandStream.value).0)
  }

  function RunLayers<R>(m: ResourceManager<R>, s: Run<R>, display: int, cs: seq<LayerCommand>, index: nat): Run<R> {
    if cs == [] then s
    else
      var before := RunLayers(m, s, display, cs[..|cs| - 1], index);
      RunLayer(m, before, display, cs[|cs| - 1], index)
  }

  function RunClientTarget<R>(m: ResourceManager<R>, s: Run<R>, display: int, c: ClientTarget, index: nat): Run<R> {
    var (r, code, target) := m.clientTarget(s.resources, display, c.buffer);
    if code != 0 then s.(resources := r, log := s.log + Report(index, Resource(code)))
    else
      var (h, err) := Step(s.hal, SetTarget(display, target, c.dataspace));
      Run(h, r, s.log + Report(index, err))
  }

  function RunOutputBuffer<R>(m: ResourceManager<R>, s: Run<R>, display: int, b: BufferRef, index: nat): Run<R> {
    var (r, code) := m.outputBuffer(s.resources, display, b);
    s.(resources := r, log := s.log + Report(index, Resource(code)))
  }

  /** `instead` marks the validation that stands in for a present-or-validate. */
  ghost function RunValidate<R>(m: ResourceManager<R>, s: Run<R>, display: int, index: nat, instead: bool): Run<R>
    requires s.hal.Valid()
  {
    var (h, err) := Step(s.hal, Validate(display));
    Run(h, m.setMustValidate(s.resources, display, false),
        s.log + if err == NoError
                then [ChangedCompositionTypes(display, Reported(s.hal.device)), DisplayRequests(display),
                      ClientTargetProperty(display)] + if instead then [ValidatedInstead(display)] else []
                else [CommandError(index, err)])
  }

  function RunAccept<R>(s: Run<R>, display: int, index: nat): Run<R> {
    var (h, err) := Step(s.hal, Accept(display));
    s.(hal := h, log := s.log + Report(index, err))
  }

  /** A refused present leaves no trace in the log. */
  function RunPresent<R>(s: Run<R>, display: int, drv: Driver): Run<R> {
    var (h, err, fence) := PresentHal(s.hal, display, drv);
    s.(hal := h, log := s.log + if err == NoError then [PresentFence(display, fence), ReleaseFences(display)] else [])
  }

  lemma {:induction false} LayersKeepValid<R>(m: ResourceManager<R>, s: Run<R>, display: int,
                                              cs: seq<LayerCommand>, index: nat)
    requires s.hal.Valid()
    ensures RunLayers(m, s, display, cs, index).hal.Valid()
  {
    if cs != [] {
      LayersKeepValid(m, s, display, cs[..|cs| - 1], index);
      var before := RunLayers(m, s, display, cs[..|cs| - 1], index);
      var c := cs[|cs| - 1];
      if c.composition.Some? {
        StepKeepsValid(before.hal, SetType(display, c.layer, c.composition.value));
      }
    }
  }

  /** Everything up to the first validation. */
  function RunSetters<R>(m: ResourceManager<R>, s: Run<R>, c: DisplayCommand, index: nat): Run<R> {
    var s1 := RunLayers(m, s, c.display, c.layers, index);
    var s2 := if c.clientTarget.None? then s1 else RunClientTarget(m, s1, c.display, c.clientTarget.value, index);
    if c.outputBuffer.None? then s2 else RunOutputBuffer(m, s2, c.display, c.outputBuffer.value, index)
  }

  lemma SettersKeepValid<R>(m: ResourceManager<R>, s: Run<R>, c: DisplayCommand, index: nat)
    requires s.hal.Valid()
    ensures RunSetters(m, s, c, index).hal.Valid()
  {
    LayersKeepValid(m, s, c.display, c.layers, index);
  }

  /** The state behind the optional validate and accept of a command. */
  ghost function RunFirstGates<R>(m: ResourceManager<R>, s: Run<R>, c: DisplayCommand, index: nat): (r: Run<R>)
    requires s.hal.Valid()
    ensures r.hal.Valid()
  {
    var s1 := if c.validate then RunValidate(m, s, c.display, index, false) else s;
    if c.accept then RunAccept(s1, c.display, index) else s1
  }

  /** ... and then the optional present and present-or-validate. */
  ghost function RunLastGates<R>(m: ResourceManager<R>, s: Run<R>, c: DisplayCommand, index: nat): (r: Run<R>)
    requires s.hal.Valid()
    ensures r.hal.Valid()
  {
    var s' := if c.present then RunPresent(s, c.display, c.drv) else s;
    if c.presentOrValidate then RunValidate(m, s', c.display, index, true) else s'
  }

  ghost function RunGates<R>(m: ResourceManager<R>, s: Run<R>, c: DisplayCommand, index: nat): (r: Run<R>)
    requires s.hal.Valid()
    ensures r.hal.Valid()
  {
    RunLastGates(m, RunFirstGates(m, s, c, index), c, index)
  }

  ghost function RunCommand<R>(m: ResourceManager<R>, s: Run<R>, c: DisplayCommand, index: nat): (r: Run<R>)
    requires s.hal.Valid()
    ensures r.hal.Valid()
  {
    SettersKeepValid(m, s, c, index);
    RunGates(m, RunSetters(m, s, c, index), c, index)
  }

  ghost function RunBatch<R>(m: ResourceManager<R>, s: Run<R>, batch: seq<DisplayCommand>): (r: Run<R>)
    requires s.hal.Valid()
    ensures r.hal.Valid()
    decreases |batch|
  {
    if batch == [] then s
    else RunCommand(m, RunBatch(m, s, batch[..|batch| - 1]), batch[|batch| - 1], |batch| - 1)
  }

  // -------------------------------------------------- splitting a batch

  /** `big` is `small` with a longer history: the log before it, and its indices moved. */
  ghost predicate Extends<R>(big: Run<R>, small: Run<R>, before: seq<Result>, offset: nat) {
    && big.hal == small.hal && big.resources == small.resources
    && big.log == before + ShiftAll(small.log, offset)
  }

  lemma ShiftConcat(a: seq<Result>, b: seq<Result>, offset: nat)
    ensures ShiftAll(a + b, offset) == ShiftAll(a, offset) + ShiftAll(b, offset)
  {
  }

  lemma ExtendLog<R>(big: Run<R>, small: Run<R>, big': Run<R>, small': Run<R>, before: seq<Result>, offset: nat,
                     moreBig: seq<Result>, moreSmall: seq<Result>)
    requires Extends(big, small, before, offset)
    requires big'.hal == small'.hal && big'.resources == small'.resources
    requires big'.log == big.log + moreBig && small'.log == small.log + moreSmall
    requires moreBig == ShiftAll(moreSmall, offset)
    ensures Extends(big', small', before, offset)
  {
    ShiftConcat(small.log, moreSmall, offset);
  }

  lemma LayerExtends<R>(m: ResourceManager<R>, big: Run<R>, small: Run<R>, display: int, c: LayerCommand,
                        index: nat, before: seq<Result>, offset: nat)
    requires Extends(big, small, before, offset)
    ensures Extends(RunLayer(m, big, display, c, index + offset), RunLayer(m, small, display, c, index), before, offset)
  {
    var big1, small1 := big, small;
    if c.buffer.Some? {
      var (r, code) := m.layerBuffer(big.resources, display, c.layer, c.buffer.value);
      big1 := big.(resources := r, log := big.log + Report(index + offset, Resource(code)));
      small1 := small.(resources := r, log := small.log + Report(index, Resource(code)));
      ExtendLog(big, small, big1, small1, before, offset,
                Report(index + offset, Resource(code)), Report(index, Resource(code)));
    }
    if c.composition.Some? {
      var (h, err) := Step(big1.hal, SetType(display, c.layer, c.composition.value));
      ExtendLog(big1, small1,
                big1.(hal := h, log := big1.log + Report(index + offset, err)),
                small1.(hal := h, log := small1.log + Report(index, err)),
                before, offset, Report(index + offset, err), Report(index, err));
    }
  }

  lemma {:induction false} LayersExtend<R>(m: ResourceManager<R>, big: Run<R>, small: Run<R>, display: int,
                                           cs: seq<LayerCommand>, index: nat, before: seq<Result>, offset: nat)
    requires Extends(big, small, before, offset)
    ensures Extends(RunLayers(m, big, display, cs, index + offset), RunLayers(m, small, display, cs, index), before, offset)
  {
    if cs != [] {
      var init, last := cs[..|cs| - 1], cs[|cs| - 1];
      LayersExtend(m, big, small, display, init, index, before, offset);
      LayerExtends(m, RunLayers(m, big, display, init, index + offset), RunLayers(m, small, display, init, index),
                   display, last, index, before, offset);
    }
  }

  lemma SettersExtend<R>(m: ResourceManager<R>, big: Run<R>, small: Run<R>, c: DisplayCommand,
                         index: nat, before: seq<Result>, offset: nat)
    requires Extends(big, small, before, offset)
    ensures Extends(RunSetters(m, big, c, index + offset), RunSetters(m, small, c, index), before, offset)
  {
    LayersExtend(m, big, small, c.display, c.layers, index, before, offset);
    var big1 := RunLayers(m, big, c.display, c.layers, index + offset);
    var small1 := RunLayers(m, small, c.display, c.layers, index);
    if c.clientTarget.Some? {
      var t := c.clientTarget.value;
      var (r, code, target) := m.clientTarget(big1.resources, c.display, t.buffer);
      var err := if code != 0 then Resource(code) else Step(big1.hal, SetTarget(c.display, target, t.dataspace)).1;
      var big2 := RunClientTarget(m, big1, c.display, t, index + offset);
      var small2 := RunClientTarget(m, small1, c.display, t, index);
      ExtendLog(big1, small1, big2, small2, before, offset, Report(index + offset, err), Report(index, err));
      big1, small1 := big2, small2;
    }
    if c.outputBuffer.Some? {
      var err := Resource(m.outputBuffer(big1.resources, c.display, c.outputBuffer.value).1);
      ExtendLog(big1, small1, RunOutputBuffer(m, big1, c.display, c.outputBuffer.value, index + offset),
                RunOutputBuffer(m, small1, c.display, c.outputBuffer.value, index),
                before, offset, Report(index + offset, err), Report(index, err));
    }
  }

  lemma ValidateExtends<R>(m: ResourceManager<R>, big: Run<R>, small: Run<R>, display: int,
                           index: nat, instead: bool, before: seq<Result>, offset: nat)
    requires small.hal.Valid() && Extends(big, small, before, offset)
    ensures Extends(RunValidate(m, big, display, index + offset, instead), RunValidate(m, small, display, index, instead),
                    before, offset)
  {
    var big' := RunValidate(m, big, display, index + offset, instead);
    var small' := RunValidate(m, small, display, index, instead);
    ExtendLog(big, small, big', small', before, offset, big'.log[|big.log|..], small'.log[|small.log|..]);
  }

  lemma AcceptExtends<R>(big: Run<R>, small: Run<R>, display: int, index: nat, before: seq<Result>, offset: nat)
    requires Extends(big, small, before, offset)
    ensures Extends(RunAccept(big, display, index + offset), RunAccept(small, display, index), before, offset)
  {
    var err := Step(small.hal, Accept(display)).1;
    ExtendLog(big, small, RunAccept(big, display, index + offset), RunAccept(small, display, index),
              before, offset, Report(index + offset, err), Report(index, err));
  }

  lemma PresentExtends<R>(big: Run<R>, small: Run<R>, display: int, drv: Driver, before: seq<Result>, offset: nat)
    requires Extends(big, small, before, offset)
    ensures Extends(RunPresent(big, display, drv), RunPresent(small, display, drv), before, offset)
  {
    var (_, err, fence) := PresentHal(small.hal, display, drv);
    var more := if err == NoError then [PresentFence(display, fence), ReleaseFences(display)] else [];
    ExtendLog(big, small, RunPresent(big, display, drv), RunPresent(small, display, drv), before, offset, more, more);
  }

  lemma GatesExtend<R>(m: ResourceManager<R>, big: Run<R>, small: Run<R>, c: DisplayCommand,
                       index: nat, before: seq<Result>, offset: nat)
    requires small.hal.Valid() && Extends(big, small, before, offset)
    ensures Extends(RunGates(m, big, c, index + offset), RunGates(m, small, c, index), before, offset)
  {
    var b, s := big, small;
    if c.validate {
      ValidateExtends(m, b, s, c.display, index, false, before, offset);
      b, s := RunValidate(m, b, c.display, index + offset, false), RunValidate(m, s, c.display, index, false);
    }
    if c.accept {
      AcceptExtends(b, s, c.display, index, before, offset);
      b, s := RunAccept(b, c.display, index + offset), RunAccept(s, c.display, index);
    }
    if c.present {
      PresentExtends(b, s, c.display, c.drv, before, offset);
      b, s := RunPresent(b, c.display, c.drv), RunPresent(s, c.display, c.drv);
    }
    if c.presentOrValidate {
      ValidateExtends(m, b, s, c.display, index, true, before, offset);
    }
  }

  lemma CommandExtends<R>(m: ResourceManager<R>, big: Run<R>, small: Run<R>, c: DisplayCommand,
                          index: nat, before: seq<Result>, offset: nat)
    requires small.hal.Valid() && Extends(big, small, before, offset)
    ensures Extends(RunCommand(m, big, c, index + offset), RunCommand(m, small, c, index), before, offset)
  {
    SettersExtend(m, big, small, c, index, before, offset);
    SettersKeepValid(m, small, c, index);
    GatesExtend(m, RunSetters(m, big, c, index + offset), RunSetters(m, small, c, index), c, index, before, offset);
  }

  lemma BatchSnoc<R>(m: ResourceManager<R>, s: Run<R>, init: seq<DisplayCommand>, last: DisplayCommand)
    requires s.hal.Valid()
    ensures RunBatch(m, s, init + [last]) == RunCommand(m, RunBatch(m, s, init), last, |init|)
  {
    assert (init + [last])[..|init|] == init;
  }

  lemma ExtendsByOne<R>(m: ResourceManager<R>, start: Run<R>, next: Run<R>, before: seq<Result>,
                        a: seq<DisplayCommand>, init: seq<DisplayCommand>, last: DisplayCommand)
    requires start.hal.Valid() && next.hal.Valid()
    requires Extends(RunBatch(m, start, a + init), RunBatch(m, next, init), before, |a|)
    ensures Extends(RunBatch(m, start, a + init + [last]), RunBatch(m, next, init + [last]), before, |a|)
  {
    BatchSnoc(m, start, a + init, last);
    BatchSnoc(m, next, init, last);
    CommandExtends(m, RunBatch(m, start, a + init), RunBatch(m, next, init), last, |init|, before, |a|);
  }

  lemma {:induction false} BatchExtends<R>(m: ResourceManager<R>, start: Run<R>, first: Run<R>, next: Run<R>,
                                           a: seq<DisplayCommand>, b: seq<DisplayCommand>)
    requires start.hal.Valid() && first == RunBatch(m, start, a) && next == Run(first.hal, first.resources, [])
    ensures Extends(RunBatch(m, start, a + b), RunBatch(m, next, b), first.log, |a|)
    decreases |b|
  {
    if b == [] {
      assert a + b == a;
      assert first.log + ShiftAll([], |a|) == first.log;
    } else {
      var init, last := b[..|b| - 1], b[|b| - 1];
      BatchExtends(m, start, first, next, a, init);
      ExtendsByOne(m, start, next, first.log, a, init, last);
      assert a + b == a + init + [last] && b == init + [last];
    }
  }

  /** Running a ++ b is running a and then b: same HAL and resource state, and the results
      of a followed by those of b with error indices moved by |a|. */
  lemma BatchSplits<R>(m: ResourceManager<R>, hal: Hal, resources: R,
                       a: seq<DisplayCommand>, b: seq<DisplayCommand>)
    requires hal.Valid()
    ensures var first := RunBatch(m, Run(hal, resources, []), a);
      var second := RunBatch(m, Run(first.hal, first.resources, []), b);
      RunBatch(m, Run(hal, resources, []), a + b)
        == Run(second.hal, second.resources, first.log + ShiftAll(second.log, |a|))
  {
    var start := Run(hal, resources, []);
    var first := RunBatch(m, start, a);
    BatchExtends(m, start, first, Run(first.hal, first.resources, []), a, b);
  }

  // -------------------------------------------------- error indices

  /** `after` has every result of `before`, and its further errors carry `index`. */
  ghost predicate AppendsAt<R>(before: Run<R>, after: Run<R>, index: nat) {
    && before.log <= after.log
    && forall k | |before.log| <= k < |after.log| && after.log[k].CommandError? :: after.log[k].index == index
  }

  lemma {:induction false} LayersAppend<R>(m: ResourceManager<R>, s: Run<R>, display: int, cs: seq<LayerCommand>, index: nat)
    ensures AppendsAt(s, RunLayers(m, s, display, cs, index), index)
  {
    if cs != [] {
      LayersAppend(m, s, display, cs[..|cs| - 1], index);
    }
  }

  lemma SettersAppend<R>(m: ResourceManager<R>, s: Run<R>, c: DisplayCommand, index: nat)
    ensures AppendsAt(s, RunSetters(m, s, c, index), index)
  {
    LayersAppend(m, s, c.display, c.layers, index);
  }

  lemma AppendsMore<R>(before: Run<R>, after: Run<R>, index: nat, more: seq<Result>)
    requires after.log == before.log + more
    requires forall r | r in more && r.CommandError? :: r.index == index
    ensures AppendsAt(before, after, index)
  {
    forall k | |before.log| <= k < |after.log| && after.log[k].CommandError? ensures after.log[k].index == index {
      assert after.log[k] == more[k - |before.log|];
    }
  }

  lemma ValidateAppends<R>(m: ResourceManager<R>, s: Run<R>, display: int, index: nat, instead: bool)
    requires s.hal.Valid()
    ensures AppendsAt(s, RunValidate(m, s, display, index, instead), index)
  {
    var s' := RunValidate(m, s, display, index, instead);
    AppendsMore(s, s', index, s'.log[|s.log|..]);
  }

  lemma PresentAppends<R>(s: Run<R>, display: int, drv: Driver, index: nat)
    ensures AppendsAt(s, RunPresent(s, display, drv), index)
  {
    var s' := RunPresent(s, display, drv);
    AppendsMore(s, s', index, s'.log[|s.log|..]);
  }

  lemma AppendsThen<R>(a: Run<R>, b: Run<R>, c: Run<R>, index: nat)
    requires AppendsAt(a, b, index) && AppendsAt(b, c, index)
    ensures AppendsAt(a, c, index)
  {
  }

  lemma AcceptAppends<R>(s: Run<R>, display: int, index: nat)
    ensures AppendsAt(s, RunAccept(s, display, index), index)
  {
    AppendsMore(s, RunAccept(s, display, index), index, Report(index, Step(s.hal, Accept(display)).1));
  }

  lemma FirstGatesAppend<R>(m: ResourceManager<R>, s: Run<R>, c: DisplayCommand, index: nat)
    requires s.hal.Valid()
    ensures AppendsAt(s, RunFirstGates(m, s, c, index), index)
  {
    var s1 := if c.validate then RunValidate(m, s, c.display, index, false) else s;
    ValidateAppends(m, s, c.display, index, false);
    AcceptAppends(s1, c.display, index);
    AppendsThen(s, s1, RunFirstGates(m, s, c, index), index);
  }

  lemma GatesAppend<R>(m: ResourceManager<R>, s: Run<R>, c: DisplayCommand, index: nat)
    requires s.hal.Valid()
    ensures AppendsAt(s, RunGates(m, s, c, index), index)
  {
    var s2 := RunFirstGates(m, s, c, index);
    FirstGatesAppend(m, s, c, index);
    var s3 := if c.present then RunPresent(s2, c.display, c.drv) else s2;
    PresentAppends(s2, c.display, c.drv, index);
    AppendsThen(s, s2, s3, index);
    ValidateAppends(m, s3, c.display, index, true);
    AppendsThen(s, s3, RunGates(m, s, c, index), index);
  }

  ghost predicate ErrorsOrdered(log: seq<Result>, n: nat) {
    && (forall i | 0 <= i < |log| && log[i].CommandError? :: log[i].index < n)
    && (forall i, j | 0 <= i < j < |log| && log[i].CommandError? && log[j].CommandError? :: log[i].index <= log[j].index)
  }

  /** Error indices of a batch never decrease and always name one of its commands. */
  lemma {:induction false} BatchErrorsOrdered<R>(m: ResourceManager<R>, hal: Hal, resources: R, batch: seq<DisplayCommand>)
    requires hal.Valid()
    ensures ErrorsOrdered(RunBatch(m, Run(hal, resources, []), batch).log, |batch|)
    decreases |batch|
  {
    if batch != [] {
      var init, last := batch[..|batch| - 1], batch[|batch| - 1];
      BatchErrorsOrdered(m, hal, resources, init);
      var s := RunBatch(m, Run(hal, resources, []), init);
      SettersAppend(m, s, last, |init|);
      SettersKeepValid(m, s, last, |init|);
      GatesAppend(m, RunSetters(m, s, last, |init|), last, |init|);
    }
  }

  /** A present is silent exactly when it is refused, and a refused one changes nothing at all. */
  lemma PresentIsSilentIffRefused<R>(s: Run<R>, display: int, drv: Driver)
    ensures RunPresent(s, display, drv).log == s.log <==> PresentHal(s.hal, display, drv).1 != NoError
    ensures RunPresent(s, display, drv).log == s.log ==> RunPresent(s, display, drv) == s
  {
    assert |RunPresent(s, display, drv).log| == |s.log| + if PresentHal(s.hal, display, drv).1 == NoError then 2 else 0;
  }

  // -------------------------------------------------- what one command presents

  ghost predicate Presents<R>(before: Run<R>, after: Run<R>) {
    exists i | |before.log| <= i < |after.log| :: after.log[i].PresentFence?
  }

  ghost predicate Silent<R>(before: Run<R>, after: Run<R>) {
    before.log <= after.log && !Presents(before, after)
  }

  lemma AppendsSilently<R>(before: Run<R>, after: Run<R>, more: seq<Result>)
    requires after.log == before.log + more && forall r | r in more :: !r.PresentFence?
    ensures Silent(before, after)
  {
    forall i | |before.log| <= i < |after.log| ensures !after.log[i].PresentFence? {
      assert after.log[i] == more[i - |before.log|];
    }
  }

  lemma SilentThen<R>(a: Run<R>, b: Run<R>, c: Run<R>)
    requires Silent(a, b) && Silent(b, c)
    ensures Silent(a, c)
  {
  }

  lemma ValidateIsSilent<R>(m: ResourceManager<R>, s: Run<R>, display: int, index: nat, instead: bool)
    requires s.hal.Valid()
    ensures Silent(s, RunValidate(m, s, display, index, instead))
  {
    var s' := RunValidate(m, s, display, index, instead);
    AppendsSilently(s, s', s'.log[|s.log|..]);
  }

  lemma AcceptIsSilent<R>(s: Run<R>, display: int, index: nat)
    ensures Silent(s, RunAccept(s, display, index))
  {
    AppendsSilently(s, RunAccept(s, display, index), Report(index, Step(s.hal, Accept(display)).1));
  }

  lemma PresentShows<R>(a: Run<R>, b: Run<R>, c: Run<R>, display: int, drv: Driver)
    requires Silent(a, b) && Silent(RunPresent(b, display, drv), c)
    ensures Presents(a, c) <==> PresentHal(b.hal, display, drv).1 == NoError
  {
    var r := RunPresent(b, display, drv);
    if PresentHal(b.hal, display, drv).1 == NoError {
      assert c.log[|b.log|] == r.log[|b.log|];
    } else {
      assert r.log == b.log;
      SilentThen(a, b, c);
    }
  }

  lemma ReportIsSilent<R>(before: Run<R>, after: Run<R>, index: nat, err: Error)
    requires after.log == before.log + Report(index, err)
    ensures Silent(before, after)
  {
    AppendsSilently(before, after, Report(index, err));
  }

  lemma LayerIsSilent<R>(m: ResourceManager<R>, s: Run<R>, display: int, c: LayerCommand, index: nat)
    ensures Silent(s, RunLayer(m, s, display, c, index))
  {
    var s' := RunLayer(m, s, display, c, index);
    var more := s'.log[|s.log|..];
    AppendsSilently(s, s', more);
  }

  lemma {:induction false} LayersAreSilent<R>(m: ResourceManager<R>, s: Run<R>, display: int, cs: seq<LayerCommand>, index: nat)
    ensures Silent(s, RunLayers(m, s, display, cs, index))
  {
    if cs != [] {
      var before := RunLayers(m, s, display, cs[..|cs| - 1], index);
      LayersAreSilent(m, s, display, cs[..|cs| - 1], index);
      LayerIsSilent(m, before, display, cs[|cs| - 1], index);
      SilentThen(s, before, RunLayers(m, s, display, cs, index));
    }
  }

  lemma TargetIsSilent<R>(m: ResourceManager<R>, s: Run<R>, display: int, c: ClientTarget, index: nat)
    ensures Silent(s, RunClientTarget(m, s, display, c, index))
  {
    var (_, code, target) := m.clientTarget(s.resources, display, c.buffer);
    ReportIsSilent(s, RunClientTarget(m, s, display, c, index), index,
                   if code != 0 then Resource(code) else Step(s.hal, SetTarget(display, target, c.dataspace)).1);
  }

  lemma SettersAreSilent<R>(m: ResourceManager<R>, s: Run<R>, c: DisplayCommand, index: nat)
    ensures Silent(s, RunSetters(m, s, c, index))
  {
    var s1 := RunLayers(m, s, c.display, c.layers, index);
    LayersAreSilent(m, s, c.display, c.layers, index);
    var s2 := s1;
    if c.clientTarget.Some? {
      s2 := RunClientTarget(m, s1, c.display, c.clientTarget.value, index);
      TargetIsSilent(m, s1, c.display, c.clientTarget.value, index);
      SilentThen(s, s1, s2);
    }
    if c.outputBuffer.Some? {
      var s3 := RunOutputBuffer(m, s2, c.display, c.outputBuffer.value, index);
      ReportIsSilent(s2, s3, index, Resource(m.outputBuffer(s2.resources, c.display, c.outputBuffer.value).1));
      SilentThen(s, s2, s3);
    }
  }

  lemma FirstGatesAreSilent<R>(m: ResourceManager<R>, s: Run<R>, c: DisplayCommand, index: nat)
    requires s.hal.Valid()
    ensures Silent(s, RunFirstGates(m, s, c, index))
  {
    var s1 := if c.validate then RunValidate(m, s, c.display, index, false) else s;
    ValidateIsSilent(m, s, c.display, index, false);
    AcceptIsSilent(s1, c.display, index);
    SilentThen(s, s1, RunFirstGates(m, s, c, index));
  }

  /** When the gates let a present through: the must-validate gate is lifted, by this command's
      validate or earlier, and what is dirty was accepted, by its accept after a validation or earlier. */
  predicate GatesOpen(h: Hal, c: DisplayCommand) {
    && IsDisplay(c.display)
    && (c.validate || !h.mustValidate)
    && (if c.accept then c.validate || h.device.state != Modified
        else if c.validate then h.device.DirtyCount() == 0
        else h.device.state == Validated)
  }

  lemma GatesDecide<R>(m: ResourceManager<R>, s: Run<R>, c: DisplayCommand, index: nat)
    requires s.hal.Valid()
    ensures PresentHal(RunFirstGates(m, s, c, index).hal, c.display, c.drv).1 == NoError <==> GatesOpen(s.hal, c)
  {
  }

  /** A command presents exactly if it asks to and its gates are open behind its setters; on a
      display other than 0 and 1 it never does. */
  lemma CommandPresentsIff<R>(m: ResourceManager<R>, s: Run<R>, c: DisplayCommand, index: nat)
    requires s.hal.Valid()
    ensures Presents(s, RunCommand(m, s, c, index)) <==> c.present && GatesOpen(RunSetters(m, s, c, index).hal, c)
  {
    SettersKeepValid(m, s, c, index);
    var s1 := RunSetters(m, s, c, index);
    SettersAreSilent(m, s, c, index);
    var s2 := RunFirstGates(m, s1, c, index);
    FirstGatesAreSilent(m, s1, c, index);
    SilentThen(s, s1, s2);
    var s3 := if c.present then RunPresent(s2, c.display, c.drv) else s2;
    var s4 := RunCommand(m, s, c, index);
    ValidateIsSilent(m, s3, c.display, index, true);
    if c.present {
      PresentShows(s, s2, s4, c.display, c.drv);
      GatesDecide(m, s1, c, index);
    } else {
      SilentThen(s, s2, s4);
    }
  }

  // -------------------------------------------------- a batch is a run of HAL calls

  ghost predicate Reaches(h: Hal, h': Hal) {
    exists ops: seq<Op> :: h' == StateAt(h, ops, |ops|)
  }

  lemma {:induction false} StateOfConcat(h: Hal, a: seq<Op>, b: seq<Op>, k: nat)
    requires k <= |b|
    ensures StateAt(h, a + b, |a| + k) == StateAt(StateAt(h, a, |a|), b, k)
  {
    if k == 0 {
      StateOfPrefix(h, a, b, |a|);
    } else {
      StateOfConcat(h, a, b, k - 1);
    }
  }

  lemma {:induction false} StateOfPrefix(h: Hal, a: seq<Op>, b: seq<Op>, k: nat)
    requires k <= |a|
    ensures StateAt(h, a + b, k) == StateAt(h, a, k)
  {
    if k > 0 {
      StateOfPrefix(h, a, b, k - 1);
    }
  }

  lemma ReachesThen(h: Hal, h1: Hal, h2: Hal)
    requires Reaches(h, h1) && Reaches(h1, h2)
    ensures Reaches(h, h2)
  {
    var a :| h1 == StateAt(h, a, |a|);
    var b :| h2 == StateAt(h1, b, |b|);
    StateOfConcat(h, a, b, |b|);
    assert h2 == StateAt(h, a + b, |a + b|);
  }

  lemma ReachesByCall(h: Hal, h1: Hal, op: Op)
    requires Reaches(h, h1)
    ensures Reaches(h, Step(h1, op).0)
  {
    assert StateAt(h1, [op], 0) == h1;
    assert Step(h1, op).0 == StateAt(h1, [op], |[op]|);
    ReachesThen(h, h1, Step(h1, op).0);
  }

  lemma {:induction false} LayersReach<R>(m: ResourceManager<R>, h: Hal, s: Run<R>, display: int,
                                          cs: seq<LayerCommand>, index: nat)
    requires Reaches(h, s.hal)
    ensures Reaches(h, RunLayers(m, s, display, cs, index).hal)
  {
    if cs != [] {
      LayersReach(m, h, s, display, cs[..|cs| - 1], index);
      var before, c := RunLayers(m, s, display, cs[..|cs| - 1], index), cs[|cs| - 1];
      if c.composition.Some? {
        ReachesByCall(h, before.hal, SetType(display, c.layer, c.composition.value));
      }
    }
  }

  lemma CommandReaches<R>(m: ResourceManager<R>, h: Hal, s: Run<R>, c: DisplayCommand, index: nat)
    requires s.hal.Valid() && Reaches(h, s.hal)
    ensures Reaches(h, RunCommand(m, s, c, index).hal)
  {
    LayersReach(m, h, s, c.display, c.layers, index);
    var s0 := RunLayers(m, s, c.display, c.layers, index);
    if c.clientTarget.Some? {
      var t := c.clientTarget.value;
      ReachesByCall(h, s0.hal, SetTarget(c.display, m.clientTarget(s0.resources, c.display, t.buffer).2, t.dataspace));
    }
    SettersKeepValid(m, s, c, index);
    GatesReach(m, h, RunSetters(m, s, c, index), c, index);
  }

  lemma GatesReach<R>(m: ResourceManager<R>, h: Hal, s: Run<R>, c: DisplayCommand, index: nat)
    requires s.hal.Valid() && Reaches(h, s.hal)
    ensures Reaches(h, RunGates(m, s, c, index).hal)
  {
    var s1 := if c.validate then RunValidate(m, s, c.display, index, false) else s;
    ReachesByCall(h, s.hal, Validate(c.display));
    var s2 := if c.accept then RunAccept(s1, c.display, index) else s1;
    ReachesByCall(h, s1.hal, Accept(c.display));
    var s3 := if c.present then RunPresent(s2, c.display, c.drv) else s2;
    ReachesByCall(h, s2.hal, Present(c.display, c.drv));
    ReachesByCall(h, s3.hal, Validate(c.display));
  }

  /** Whatever a batch contains, it drives the HAL through a run of HAL calls, so what every
      such run keeps, every batch keeps. */
  lemma {:induction false} BatchIsHalRun<R>(m: ResourceManager<R>, s: Run<R>, batch: seq<DisplayCommand>)
    requires s.hal.Valid()
    ensures Reaches(s.hal, RunBatch(m, s, batch).hal)
    decreases |batch|
  {
    if batch == [] {
      var none: seq<Op> := [];
      assert s.hal == StateAt(s.hal, none, |none|);
    } else {
      BatchIsHalRun(m, s, batch[..|batch| - 1]);
      CommandReaches(m, s.hal, RunBatch(m, s, batch[..|batch| - 1]), batch[|batch| - 1], |batch| - 1);
    }
  }

  // -------------------------------------------------- which calls a command makes

  /** A question to the resource cache with its answer, or a call of the HAL; `instead` marks the
      validation that stands in for a present-or-validate. */
  datatype Call = CacheCall(code: int) | HalCall(op: Op, instead: bool)

  function OpsOf(calls: seq<Call>): seq<Op> {
    if calls == [] then []
    else OpsOf(calls[..|calls| - 1]) + if calls[|calls| - 1].HalCall? then [calls[|calls| - 1].op] else []
  }

  /** The calls of one layer command, and the cache after them. */
  function LayerCalls<R>(m: ResourceManager<R>, r: R, display: int, c: LayerCommand): (R, seq<Call>) {
    var (r1, first) :=
      if c.buffer.None? then (r, [])
      else var (r1, code) := m.layerBuffer(r, display, c.layer, c.buffer.value); (r1, [CacheCall(code)]);
    (if c.sidebandStream.None? then r1 else m.sidebandStream(r1, display, c.layer, c.sidebandStream.value).0,
     first + if c.composition.None? then [] else [HalCall(SetType(display, c.layer, c.composition.value), false)])
  }

  function LayersCalls<R>(m: ResourceManager<R>, r: R, display: int, cs: seq<LayerCommand>): (R, seq<Call>) {
    if cs == [] then (r, [])
    else
      var (r1, before) := LayersCalls(m, r, display, cs[..|cs| - 1]);
      var (r2, last) := LayerCalls(m, r1, display, cs[|cs| - 1]);
      (r2, before + last)
  }

  /** The cached handle is set as the target exactly if the cache has one. */
  function TargetCalls<R>(m: ResourceManager<R>, r: R, display: int, c: ClientTarget): (R, seq<Call>) {
    var (r1, code, target) := m.clientTarget(r, display, c.buffer);
    (r1, [CacheCall(code)] + if code == 0 then [HalCall(SetTarget(display, target, c.dataspace), false)] else [])
  }

  function SetterCalls<R>(m: ResourceManager<R>, r: R, c: DisplayCommand): (R, seq<Call>) {
    var (r1, layers) := LayersCalls(m, r, c.display, c.layers);
    var (r2, target) := if c.clientTarget.None? then (r1, []) else TargetCalls(m, r1, c.display, c.clientTarget.value);
    if c.outputBuffer.None? then (r2, layers + target)
    else
      var (r3, code) := m.outputBuffer(r2, c.display, c.outputBuffer.value);
      (r3, layers + target + [CacheCall(code)])
  }

  function FirstGateCalls(c: DisplayCommand): seq<Call> {
    (if c.validate then [HalCall(Validate(c.display), false)] else [])
    + (if c.accept then [HalCall(Accept(c.display), false)] else [])
  }

  function LastGateCalls(c: DisplayCommand): seq<Call> {
    (if c.present then [HalCall(Present(c.display, c.drv), false)] else [])
    + (if c.presentOrValidate then [HalCall(Validate(c.display), true)] else [])
  }

  function GateCalls(c: DisplayCommand): seq<Call> {
    FirstGateCalls(c) + LastGateCalls(c)
  }

  function CommandCalls<R>(m: ResourceManager<R>, r: R, c: DisplayCommand): (R, seq<Call>) {
    var (r1, setters) := SetterCalls(m, r, c);
    (Validations(m, r1, c.display, (if c.validate then 1 else 0) + if c.presentOrValidate then 1 else 0),
     setters + GateCalls(c))
  }

  /** The cache after `n` validations. */
  function Validations<R>(m: ResourceManager<R>, r: R, display: int, n: nat): R {
    if n == 0 then r else m.setMustValidate(Validations(m, r, display, n - 1), display, false)
  }

  /** What one call adds to the log: its error, if it is no present, or what it yields. */
  ghost function Logged(h: Hal, call: Call, index: nat): seq<Result>
    requires h.Valid()
  {
    match call
    case CacheCall(code) => if code == 0 then [] else [CommandError(index, ResourceError(code))]
    case HalCall(op, instead) =>
      var err := Step(h, op).1;
      if op.Present? then
        if err == NoError
        then [PresentFence(op.display, PresentHal(h, op.display, op.drv).2), ReleaseFences(op.display)] else []
      else if err != NoError then [CommandError(index, err)]
      else if op.Validate? then
        [ChangedCompositionTypes(op.display, Reported(h.device)), DisplayRequests(op.display),
         ClientTargetProperty(op.display)] + if instead then [ValidatedInstead(op.display)] else []
      else []
  }

  ghost function HalAfter(h: Hal, calls: seq<Call>): (r: Hal)
    requires h.Valid()
    ensures r.Valid()
  {
    RunKeepsValid(h, OpsOf(calls), |OpsOf(calls)|);
    StateAt(h, OpsOf(calls), |OpsOf(calls)|)
  }

  ghost function LogOf(h: Hal, calls: seq<Call>, index: nat): seq<Result>
    requires h.Valid()
  {
    if calls == [] then []
    else
      var init := calls[..|calls| - 1];
      LogOf(h, init, index) + Logged(HalAfter(h, init), calls[|calls| - 1], index)
  }

  /** `after` is `before` with these calls made and logged. */
  ghost predicate Does<R>(before: Run<R>, after: Run<R>, calls: seq<Call>, index: nat)
    requires before.hal.Valid()
  {
    after.hal == HalAfter(before.hal, calls) && after.log == before.log + LogOf(before.hal, calls, index)
  }

  lemma OpsSnoc(calls: seq<Call>, c: Call)
    ensures OpsOf(calls + [c]) == OpsOf(calls) + if c.HalCall? then [c.op] else []
  {
    assert (calls + [c])[..|calls|] == calls;
  }

  lemma HalSnoc(h: Hal, calls: seq<Call>, c: Call)
    requires h.Valid()
    ensures HalAfter(h, calls + [c]) == if c.HalCall? then Step(HalAfter(h, calls), c.op).0 else HalAfter(h, calls)
  {
    OpsSnoc(calls, c);
    if c.HalCall? {
      StateOfPrefix(h, OpsOf(calls), [c.op], |OpsOf(calls)|);
    } else {
      assert OpsOf(calls) + [] == OpsOf(calls);
    }
  }

  lemma LogSnoc(h: Hal, calls: seq<Call>, c: Call, index: nat)
    requires h.Valid()
    ensures LogOf(h, calls + [c], index) == LogOf(h, calls, index) + Logged(HalAfter(h, calls), c, index)
  {
    assert (calls + [c])[..|calls|] == calls;
  }

  lemma DoesNothing<R>(s: Run<R>, s': Run<R>, index: nat)
    requires s.hal.Valid() && s'.hal == s.hal && s'.log == s.log
    ensures Does(s, s', [], index)
  {
    assert StateAt(s.hal, [], 0) == s.hal;
  }

  lemma Regroup<T>(a: seq<T>, b: seq<T>, c: seq<T>)
    ensures a + b + c == a + (b + c)
  {
  }

  lemma DoesOneMore<R>(a: Run<R>, b: Run<R>, c: Run<R>, calls: seq<Call>, call: Call, index: nat)
    requires a.hal.Valid() && Does(a, b, calls, index) && b.hal.Valid()
    requires c.hal == if call.HalCall? then Step(b.hal, call.op).0 else b.hal
    requires c.log == b.log + Logged(b.hal, call, index)
    ensures Does(a, c, calls + [call], index)
  {
    assert c.hal == HalAfter(a.hal, calls + [call]) by {
      HalSnoc(a.hal, calls, call);
    }
    assert c.log == a.log + LogOf(a.hal, calls + [call], index) by {
      LogSnoc(a.hal, calls, call, index);
      Regroup(a.log, LogOf(a.hal, calls, index), Logged(b.hal, call, index));
    }
  }

  lemma LayerDoes<R>(m: ResourceManager<R>, a: Run<R>, s: Run<R>, calls: seq<Call>, display: int, c: LayerCommand, index: nat)
    requires a.hal.Valid() && s.hal.Valid() && Does(a, s, calls, index)
    ensures var s' := RunLayer(m, s, display, c, index); var (r, more) := LayerCalls(m, s.resources, display, c);
      s'.resources == r && s'.hal.Valid() && Does(a, s', calls + more, index)
  {
    var s' := RunLayer(m, s, display, c, index);
    var more := LayerCalls(m, s.resources, display, c).1;
    var s1, calls1 := s, calls;
    if c.buffer.Some? {
      var (r, code) := m.layerBuffer(s.resources, display, c.layer, c.buffer.value);
      s1 := s.(resources := r, log := s.log + Report(index, Resource(code)));
      DoesOneMore(a, s, s1, calls, CacheCall(code), index);
      calls1 := calls + [CacheCall(code)];
    }
    if c.composition.Some? {
      var op := SetType(display, c.layer, c.composition.value);
      StepKeepsValid(s1.hal, op);
      DoesOneMore(a, s1, s', calls1, HalCall(op, false), index);
      calls1 := calls1 + [HalCall(op, false)];
    }
    assert calls + more == calls1;
  }

  lemma {:induction false} LayersDo<R>(m: ResourceManager<R>, s: Run<R>, display: int, cs: seq<LayerCommand>, index: nat)
    requires s.hal.Valid()
    ensures var s' := RunLayers(m, s, display, cs, index); var (r, calls) := LayersCalls(m, s.resources, display, cs);
      s'.resources == r && s'.hal.Valid() && Does(s, s', calls, index)
  {
    if cs == [] {
      DoesNothing(s, s, index);
    } else {
      var init, last := cs[..|cs| - 1], cs[|cs| - 1];
      LayersDo(m, s, display, init, index);
      LayerDoes(m, s, RunLayers(m, s, display, init, index), LayersCalls(m, s.resources, display, init).1,
                display, last, index);
    }
  }

  lemma TargetDoes<R>(m: ResourceManager<R>, a: Run<R>, s: Run<R>, calls: seq<Call>, display: int, c: ClientTarget, index: nat)
    requires a.hal.Valid() && s.hal.Valid() && Does(a, s, calls, index)
    ensures var s' := RunClientTarget(m, s, display, c, index); var (r, more) := TargetCalls(m, s.resources, display, c);
      s'.resources == r && s'.hal.Valid() && Does(a, s', calls + more, index)
  {
    var s' := RunClientTarget(m, s, display, c, index);
    var (r, code, target) := m.clientTarget(s.resources, display, c.buffer);
    var s1 := s.(resources := r, log := s.log + Report(index, Resource(code)));
    DoesOneMore(a, s, s1, calls, CacheCall(code), index);
    var calls1 := calls + [CacheCall(code)];
    if code == 0 {
      var op := SetTarget(display, target, c.dataspace);
      StepKeepsValid(s.hal, op);
      DoesOneMore(a, s1, s', calls1, HalCall(op, false), index);
      calls1 := calls1 + [HalCall(op, false)];
    }
    assert calls + TargetCalls(m, s.resources, display, c).1 == calls1;
  }

  lemma SettersDo<R>(m: ResourceManager<R>, s: Run<R>, c: DisplayCommand, index: nat)
    requires s.hal.Valid()
    ensures var s' := RunSetters(m, s, c, index); var (r, calls) := SetterCalls(m, s.resources, c);
      s'.resources == r && s'.hal.Valid() && Does(s, s', calls, index)
  {
    LayersDo(m, s, c.display, c.layers, index);
    var s1, calls := RunLayers(m, s, c.display, c.layers, index), LayersCalls(m, s.resources, c.display, c.layers).1;
    if c.clientTarget.Some? {
      var t := c.clientTarget.value;
      TargetDoes(m, s, s1, calls, c.display, t, index);
      calls := calls + TargetCalls(m, s1.resources, c.display, t).1;
      s1 := RunClientTarget(m, s1, c.display, t, index);
    } else {
      assert calls + [] == calls;
    }
    if c.outputBuffer.Some? {
      var code := m.outputBuffer(s1.resources, c.display, c.outputBuffer.value).1;
      DoesOneMore(s, s1, RunOutputBuffer(m, s1, c.display, c.outputBuffer.value, index), calls, CacheCall(code), index);
    }
  }

  lemma ValidateDoes<R>(m: ResourceManager<R>, a: Run<R>, s: Run<R>, calls: seq<Call>, display: int, instead: bool, index: nat)
    requires a.hal.Valid() && s.hal.Valid() && Does(a, s, calls, index)
    ensures Does(a, RunValidate(m, s, display, index, instead), calls + [HalCall(Validate(display), instead)], index)
  {
    DoesOneMore(a, s, RunValidate(m, s, display, index, instead), calls, HalCall(Validate(display), instead), index);
  }

  lemma AcceptDoes<R>(a: Run<R>, s: Run<R>, calls: seq<Call>, display: int, index: nat)
    requires a.hal.Valid() && s.hal.Valid() && Does(a, s, calls, index)
    ensures Does(a, RunAccept(s, display, index), calls + [HalCall(Accept(display), false)], index)
  {
    DoesOneMore(a, s, RunAccept(s, display, index), calls, HalCall(Accept(display), false), index);
  }

  lemma PresentDoes<R>(a: Run<R>, s: Run<R>, calls: seq<Call>, display: int, drv: Driver, index: nat)
    requires a.hal.Valid() && s.hal.Valid() && Does(a, s, calls, index)
    ensures Does(a, RunPresent(s, display, drv), calls + [HalCall(Present(display, drv), false)], index)
  {
    DoesOneMore(a, s, RunPresent(s, display, drv), calls, HalCall(Present(display, drv), false), index);
  }

  lemma FirstGatesDo<R>(m: ResourceManager<R>, a: Run<R>, s: Run<R>, calls: seq<Call>, c: DisplayCommand, index: nat)
    requires a.hal.Valid() && s.hal.Valid() && Does(a, s, calls, index)
    ensures Does(a, RunFirstGates(m, s, c, index), calls + FirstGateCalls(c), index)
  {
    var s1, calls1 := s, calls;
    if c.validate {
      ValidateDoes(m, a, s1, calls1, c.display, false, index);
      s1, calls1 := RunValidate(m, s1, c.display, index, false), calls1 + [HalCall(Validate(c.display), false)];
      StepKeepsValid(s.hal, Validate(c.display));
    }
    if c.accept {
      AcceptDoes(a, s1, calls1, c.display, index);
      calls1 := calls1 + [HalCall(Accept(c.display), false)];
    }
    assert calls + FirstGateCalls(c) == calls1;
  }

  lemma MaybePresentDoes<R>(a: Run<R>, s: Run<R>, calls: seq<Call>, c: DisplayCommand, index: nat)
    requires a.hal.Valid() && s.hal.Valid() && Does(a, s, calls, index)
    ensures var s' := if c.present then RunPresent(s, c.display, c.drv) else s;
      s'.hal.Valid() && Does(a, s', calls + if c.present then [HalCall(Present(c.display, c.drv), false)] else [], index)
  {
    if c.present {
      PresentDoes(a, s, calls, c.display, c.drv, index);
      StepKeepsValid(s.hal, Present(c.display, c.drv));
    } else {
      assert calls + [] == calls;
    }
  }

  lemma MaybeValidateDoes<R>(m: ResourceManager<R>, a: Run<R>, s: Run<R>, calls: seq<Call>, c: DisplayCommand, index: nat)
    requires a.hal.Valid() && s.hal.Valid() && Does(a, s, calls, index)
    ensures Does(a, if c.presentOrValidate then RunValidate(m, s, c.display, index, true) else s,
                 calls + if c.presentOrValidate then [HalCall(Validate(c.display), true)] else [], index)
  {
    if c.presentOrValidate {
      ValidateDoes(m, a, s, calls, c.display, true, index);
    } else {
      assert calls + [] == calls;
    }
  }

  lemma LastGatesDo<R>(m: ResourceManager<R>, a: Run<R>, s: Run<R>, calls: seq<Call>, c: DisplayCommand, index: nat)
    requires a.hal.Valid() && s.hal.Valid() && Does(a, s, calls, index)
    ensures Does(a, RunLastGates(m, s, c, index), calls + LastGateCalls(c), index)
  {
    var s' := if c.present then RunPresent(s, c.display, c.drv) else s;
    var first := if c.present then [HalCall(Present(c.display, c.drv), false)] else [];
    var second := if c.presentOrValidate then [HalCall(Validate(c.display), true)] else [];
    MaybePresentDoes(a, s, calls, c, index);
    MaybeValidateDoes(m, a, s', calls + first, c, index);
    Regroup(calls, first, second);
  }

  lemma GatesDo<R>(m: ResourceManager<R>, a: Run<R>, s: Run<R>, calls: seq<Call>, c: DisplayCommand, index: nat)
    requires a.hal.Valid() && s.hal.Valid() && Does(a, s, calls, index)
    ensures Does(a, RunGates(m, s, c, index), calls + GateCalls(c), index)
  {
    FirstGatesDo(m, a, s, calls, c, index);
    LastGatesDo(m, a, RunFirstGates(m, s, c, index), calls + FirstGateCalls(c), c, index);
    Regroup(calls, FirstGateCalls(c), LastGateCalls(c));
  }

  lemma GatesResources<R>(m: ResourceManager<R>, s: Run<R>, c: DisplayCommand, index: nat)
    requires s.hal.Valid()
    ensures RunGates(m, s, c, index).resources ==
            Validations(m, s.resources, c.display, (if c.validate then 1 else 0) + if c.presentOrValidate then 1 else 0)
  {
    var s2 := RunFirstGates(m, s, c, index);
    assert s2.resources == Validations(m, s.resources, c.display, if c.validate then 1 else 0);
  }

  /** A command makes exactly these calls, in this order, of the cache and of the HAL, and the log
      gets exactly their results: each error under the command's index, a present's result or
      nothing, a validation's report. */
  lemma CommandIsItsCalls<R>(m: ResourceManager<R>, s: Run<R>, c: DisplayCommand, index: nat)
    requires s.hal.Valid()
    ensures var s' := RunCommand(m, s, c, index); var (r, calls) := CommandCalls(m, s.resources, c);
      && s'.resources == r
      && s'.hal == HalAfter(s.hal, calls)
      && s'.log == s.log + LogOf(s.hal, calls, index)
  {
    SettersKeepValid(m, s, c, index);
    SettersDo(m, s, c, index);
    GatesDo(m, s, RunSetters(m, s, c, index), SetterCalls(m, s.resources, c).1, c, index);
    GatesResources(m, RunSetters(m, s, c, index), c, index);
  }

  // -------------------------------------------------- what the setters achieve

  /** The last composition type that the commands give to layer `l`. */
  function LastType(cs: seq<LayerCommand>, l: LayerId): Option<int> {
    if cs == [] then None
    else if cs[|cs| - 1].layer == l && cs[|cs| - 1].composition.Some? then cs[|cs| - 1].composition
    else LastType(cs[..|cs| - 1], l)
  }

  /** Behind the layer commands of a display 0 or 1 an existing layer is dirty exactly if the last
      type they give it is not CLIENT or, without one, if it was dirty before. */
  lemma {:induction false} LayersAchieve<R>(m: ResourceManager<R>, s: Run<R>, display: int, cs: seq<LayerCommand>, index: nat)
    requires s.hal.Valid()
    ensures var d, d' := s.hal.device, RunLayers(m, s, display, cs, index).hal.device;
      && d'.layers == d.layers && d'.target == d.target && d'.kms == d.kms && d'.nextLayerId == d.nextLayerId
      && (forall l :: l in d'.dirty <==>
            if (display == 0 || display == 1) && l in d.layers && LastType(cs, l).Some?
            then LastType(cs, l).value != COMPOSITION_CLIENT else l in d.dirty)
  {
    if cs != [] {
      LayersAchieve(m, s, display, cs[..|cs| - 1], index);
    }
  }

  /** Behind all setters: the layers as above, and the target is the cached handle if the command
      has one, the cache knows it, its dataspace is unknown and the display is 0 or 1. */
  lemma SettersAchieve<R>(m: ResourceManager<R>, s: Run<R>, c: DisplayCommand, index: nat)
    requires s.hal.Valid()
    ensures var d, d' := s.hal.device, RunSetters(m, s, c, index).hal.device;
      && d'.layers == d.layers && d'.kms == d.kms
      && (forall l :: l in d'.dirty <==>
            if (c.display == 0 || c.display == 1) && l in d.layers && LastType(c.layers, l).Some?
            then LastType(c.layers, l).value != COMPOSITION_CLIENT else l in d.dirty)
      && d'.target ==
           if c.clientTarget.None? || (c.display != 0 && c.display != 1) || c.clientTarget.value.dataspace != 0 then d.target
           else
             var (_, code, cached) := m.clientTarget(LayersCalls(m, s.resources, c.display, c.layers).0, c.display,
                                                     c.clientTarget.value.buffer);
             if code == 0 then cached else d.target
  {
    LayersAchieve(m, s, c.display, c.layers, index);
    LayersDo(m, s, c.display, c.layers, index);
  }

  // -------------------------------------------------- which calls a batch makes

  function BatchOps<R>(m: ResourceManager<R>, r: R, batch: seq<DisplayCommand>): (R, seq<Op>) {
    if batch == [] then (r, [])
    else
      var (r1, before) := BatchOps(m, r, batch[..|batch| - 1]);
      var (r2, calls) := CommandCalls(m, r1, batch[|batch| - 1]);
      (r2, before + OpsOf(calls))
  }

  lemma CallsAddTheirOps(h: Hal, mid: Hal, before: seq<Op>, calls: seq<Call>)
    requires mid.Valid() && mid == StateAt(h, before, |before|)
    ensures HalAfter(mid, calls) == StateAt(h, before + OpsOf(calls), |before + OpsOf(calls)|)
  {
    StateOfConcat(h, before, OpsOf(calls), |OpsOf(calls)|);
  }

  /** A batch drives the HAL through exactly the calls that its commands name, in order; so what is
      proved of runs of HAL calls holds of batches. */
  lemma {:induction false} BatchIsItsOps<R>(m: ResourceManager<R>, s: Run<R>, batch: seq<DisplayCommand>)
    requires s.hal.Valid()
    ensures var (r, ops) := BatchOps(m, s.resources, batch);
      RunBatch(m, s, batch).resources == r && RunBatch(m, s, batch).hal == StateAt(s.hal, ops, |ops|)
    decreases |batch|
  {
    if batch != [] {
      var init, last := batch[..|batch| - 1], batch[|batch| - 1];
      BatchIsItsOps(m, s, init);
      var (r, before) := BatchOps(m, s.resources, init);
      CommandIsItsCalls(m, RunBatch(m, s, init), last, |init|);
      CallsAddTheirOps(s.hal, RunBatch(m, s, init).hal, before, CommandCalls(m, r, last).1);
    }
  }

  // -------------------------------------------------- the engine as an object

  class ComposerCommandEngine<R> {
    const hal: ComposerHal
    const manager: ResourceManager<R>
    var resources: R
    var writer: seq<Result>
    var commandIndex: nat

    ghost function View(): Run<R>
      reads this, hal, hal.device, hal.device.context
    {
      Run(hal.View(), resources, writer)
    }

    constructor (hal: ComposerHal, manager: ResourceManager<R>, resources: R)
      ensures this.hal == hal && this.manager == manager && View() == Run(hal.View(), resources, [])
    {
      this.hal, this.manager, this.resources := hal, manager, resources;
      writer, commandIndex := [], 0;
    }

    method SetError(err: Error)
      modifies this`writer
      ensures writer == old(writer) + Report(commandIndex, err)
    {
      if err != NoError {
        writer := writer + [CommandError(commandIndex, err)];
      }
    }

    method DispatchLayerCommand(display: int, c: LayerCommand)
      modifies this`resources, this`writer, hal.device
      ensures View() == RunLayer(manager, old(View()), display, c, commandIndex)
    {
      if c.buffer.Some? {
        var (r, code) := manager.layerBuffer(resources, display, c.layer, c.buffer.value);
        resources := r;
        SetError(Resource(code));
      }
      if c.composition.Some? {
        var err := hal.SetLayerCompositionType(display, c.layer, c.composition.value);
        SetError(err);
      }
      if c.sidebandStream.Some? {
        var (r, code) := manager.sidebandStream(resources, display, c.layer, c.sidebandStream.value);
        resources := r;
      }
    }

    method ExecuteSetClientTarget(display: int, c: ClientTarget)
      modifies this`resources, this`writer, hal.device
      ensures View() == RunClientTarget(manager, old(View()), display, c, commandIndex)
    {
      var (r, code, target) := manager.clientTarget(resources, display, c.buffer);
      resources := r;
      if code == 0 {
        var err := hal.SetClientTarget(display, target, c.dataspace);
        SetError(err);
      } else {
        SetError(Resource(code));
      }
    }

    method ExecuteSetOutputBuffer(display: int, b: BufferRef)
      modifies this`resources, this`writer
      ensures View() == RunOutputBuffer(manager, old(View()), display, b, commandIndex)
    {
      var (r, code) := manager.outputBuffer(resources, display, b);
      resources := r;
      SetError(Resource(code));
    }

    method ExecuteValidateDisplayInternal(display: int) returns (err: Error)
      requires hal.View().Valid()
      modifies this`resources, this`writer, hal, hal.device
      ensures View() == RunValidate(manager, old(View()), display, commandIndex, false)
      ensures err == Step(old(hal.View()), Validate(display)).1
    {
      var changedLayers, types;
      err, changedLayers, types := hal.ValidateDisplay(display);
      resources := manager.setMustValidate(resources, display, false);
      if err == NoError {
        writer := writer + [ChangedCompositionTypes(display, changedLayers)];
        writer := writer + [DisplayRequests(display)];
        writer := writer + [ClientTargetProperty(display)];
      } else {
        writer := writer + [CommandError(commandIndex, err)];
      }
    }

    method ExecutePresentOrValidateDisplay(display: int)
      requires hal.View().Valid()
      modifies this`resources, this`writer, hal, hal.device
      ensures View() == RunValidate(manager, old(View()), display, commandIndex, true)
    {
      var err := ExecuteValidateDisplayInternal(display);
      if err == NoError {
        writer := writer + [ValidatedInstead(display)];
      }
    }

    method ExecuteAcceptDisplayChanges(display: int)
      modifies this`writer, hal.device
      ensures View() == RunAccept(old(View()), display, commandIndex)
    {
      var err := hal.AcceptDisplayChanges(display);
      SetError(err);
    }

    method ExecutePresentDisplay(display: int, drv: Driver) returns (err: Error)
      modifies this`writer, hal, hal.device, hal.device.context
      ensures View() == RunPresent(old(View()), display, drv)
      ensures err == PresentHal(old(hal.View()), display, drv).1
    {
      var fence;
      err, fence := hal.PresentDisplay(display, drv);
      if err == NoError {
        writer := writer + [PresentFence(display, fence)];
        writer := writer + [ReleaseFences(display)];
      }
    }

    method DispatchSetters(c: DisplayCommand)
      modifies this`resources, this`writer, hal.device
      ensures View() == RunSetters(manager, old(View()), c, commandIndex)
    {
      var i := 0;
      while i < |c.layers|
        invariant 0 <= i <= |c.layers|
        invariant View() == RunLayers(manager, old(View()), c.display, c.layers[..i], commandIndex)
      {
        DispatchLayerCommand(c.display, c.layers[i]);
        assert c.layers[..i + 1][..i] == c.layers[..i];
        i := i + 1;
      }
      assert c.layers[..i] == c.layers;
      if c.clientTarget.Some? {
        ExecuteSetClientTarget(c.display, c.clientTarget.value);
      }
      if c.outputBuffer.Some? {
        ExecuteSetOutputBuffer(c.display, c.outputBuffer.value);
      }
    }

    method DispatchGates(c: DisplayCommand)
      requires hal.View().Valid()
      modifies this`resources, this`writer, hal, hal.device, hal.device.context
      ensures View() == RunGates(manager, old(View()), c, commandIndex)
    {
      if c.validate {
        var err := ExecuteValidateDisplayInternal(c.display);
      }
      if c.accept {
        ExecuteAcceptDisplayChanges(c.display);
      }
      if c.present {
        var err := ExecutePresentDisplay(c.display, c.drv);
      }
      if c.presentOrValidate {
        ExecutePresentOrValidateDisplay(c.display);
      }
    }

    method DispatchDisplayCommand(c: DisplayCommand)
      requires hal.View().Valid()
      modifies this`resources, this`writer, hal, hal.device, hal.device.context
      ensures View() == RunCommand(manager, old(View()), c, commandIndex)
    {
      SettersKeepValid(manager, View(), c, commandIndex);
      DispatchSetters(c);
      DispatchGates(c);
    }

    method Execute(commands: seq<DisplayCommand>) returns (result: seq<Result>)
      requires hal.View().Valid() && writer == []
      modifies this, hal, hal.device, hal.device.context
      ensures var r := RunBatch(manager, Run(old(hal.View()), old(resources), []), commands);
              result == r.log && View() == r.(log := [])
    {
      commandIndex := 0;
      while commandIndex < |commands|
        invariant 0 <= commandIndex <= |commands|
        invariant View() == RunBatch(manager, old(View()), commands[..commandIndex])
      {
        DispatchDisplayCommand(commands[commandIndex]);
        assert commands[..commandIndex + 1][..commandIndex] == commands[..commandIndex];
        commandIndex := commandIndex + 1;
      }
      assert commands[..commandIndex] == commands;
      result := writer;
      writer := [];
    }
  }
}
