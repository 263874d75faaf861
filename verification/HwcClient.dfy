/** What a composer client does to the device when it goes away. */
module HwcClient {
  import opened HwcKms
  import opened HwcDevice
  import opened HwcHal

  /** A display in the client's resource cache; `drv` is what the kernel answers to its last frame. */
  datatype CachedDisplay = CachedDisplay(display: int, isVirtual: bool, layers: seq<LayerId>, drv: Driver)
  {
    predicate ShowsLastFrame() {
      IsDisplay(display) && !isVirtual
    }
  }

  ghost function Members(layers: seq<LayerId>): set<LayerId> {
    set l | l in layers
  }

  /** The device without some layers, whether they existed or not. */
  ghost function LayersGone(d: Device, display: int, layers: set<LayerId>): Device {
    if !IsDisplay(display) then d
    else d.(layers := d.layers - layers, dirty := d.dirty - layers,
            state := if layers !! d.layers then d.state else Modified)
  }

  /** The device after a client's layers on a display are gone and its last frame is shown. */
  ghost function Cleared(d: Device, c: CachedDisplay): Device {
    var d1 := LayersGone(d, c.display, Members(c.layers));
    if c.ShowsLastFrame()
    then d1.(state := Validated, dirty := {}, kms := Post(d1.kms, c.display, d1.target, c.drv, -1).kms)
    else d1
  }

  ghost function AllCleared(d: Device, cs: seq<CachedDisplay>): Device {
    if cs == [] then d else Cleared(AllCleared(d, cs[..|cs| - 1]), cs[|cs| - 1])
  }

  lemma NothingGone(d: Device, display: int)
    ensures LayersGone(d, display, Members([])) == d
  {
    assert d.layers - {} == d.layers && d.dirty - {} == d.dirty;
  }

  lemma DestroyOneMore(h: Hal, start: Device, display: int, layers: seq<LayerId>, i: nat)
    requires i < |layers| && h.Valid() && h.device == LayersGone(start, display, Members(layers[..i]))
    ensures Step(h, Destroy(display, layers[i])).0.device == LayersGone(start, display, Members(layers[..i + 1]))
    ensures Step(h, Destroy(display, layers[i])).0.Valid()
  {
    StepKeepsValid(h, Destroy(display, layers[i]));
    var done, l := Members(layers[..i]), layers[i];
    assert Members(layers[..i + 1]) == done + {l};
    if IsDisplay(display) {
      assert start.layers - done - {l} == start.layers - (done + {l});
      assert start.dirty - done - {l} == start.dirty - (done + {l});
      assert done + {l} !! start.layers <==> done !! start.layers && l !in start.layers - done;
    }
  }

  lemma LastFrameKeepsValid(h: Hal, display: int, drv: Driver)
    requires h.Valid()
    ensures Step(Step(Step(h, Validate(display)).0, Accept(display)).0, Present(display, drv)).0.Valid()
  {
    var h1 := Step(h, Validate(display)).0;
    StepKeepsValid(h, Validate(display));
    StepKeepsValid(h1, Accept(display));
    StepKeepsValid(Step(h1, Accept(display)).0, Present(display, drv));
  }

  class ComposerClient {
    const hal: ComposerHal

    constructor (hal: ComposerHal)
      ensures this.hal == hal
    {
      this.hal := hal;
    }

    method DestroyLayers(display: int, layers: seq<LayerId>)
      requires hal.View().Valid()
      modifies hal.device
      ensures hal.View().Valid()
      ensures hal.View().device == LayersGone(old(hal.View()).device, display, Members(layers))
    {
      ghost var start := hal.View().device;
      NothingGone(start, display);
      assert layers[..0] == [];
      var i := 0;
      while i < |layers|
        invariant 0 <= i <= |layers|
        invariant hal.View().Valid()
        invariant hal.View().device == LayersGone(start, display, Members(layers[..i]))
      {
        DestroyOneMore(hal.View(), start, display, layers, i);
        var err := hal.DestroyLayer(display, layers[i]);
        i := i + 1;
      }
      assert layers[..i] == layers;
    }

    /** The last frame of a display: validated, accepted and presented.  The gates refuse
        none of the three. */
    method PresentLastFrame(display: int, drv: Driver) returns (presented: Error)
      requires hal.View().Valid()
      modifies hal, hal.device, hal.device.context
      ensures hal.View().Valid()
      ensures presented == NoError <==> IsDisplay(display)
      ensures IsDisplay(display) ==>
        var before := old(hal.View()).device;
        hal.View().device == before.(state := Validated, dirty := {},
                                     kms := Post(before.kms, display, before.target, drv, -1).kms)
      ensures !IsDisplay(display) ==> hal.View().device == old(hal.View()).device
    {
      ValidateAcceptPresent(hal.View(), display, drv);
      LastFrameKeepsValid(hal.View(), display, drv);
      var err, changed, types := hal.ValidateDisplay(display);
      err := hal.AcceptDisplayChanges(display);
      var fence;
      presented, fence := hal.PresentDisplay(display, drv);
    }

    /** What the client destructor does for one display of the resource cache; a virtual one
        shows no last frame. */
    method DestroyDisplayResources(c: CachedDisplay) returns (presented: Error)
      requires hal.View().Valid()
      modifies hal, hal.device, hal.device.context
      ensures hal.View().Valid()
      ensures presented == NoError <==> IsDisplay(c.display) || c.isVirtual
      ensures hal.View().device == Cleared(old(hal.View()).device, c)
    {
      DestroyLayers(c.display, c.layers);
      presented := NoError;
      if !c.isVirtual {
        presented := PresentLastFrame(c.display, c.drv);
      }
    }

    /** The client destructor over all displays of the resource cache. */
    method DestroyResources(cs: seq<CachedDisplay>) returns (presented: seq<Error>)
      requires hal.View().Valid()
      modifies hal, hal.device, hal.device.context
      ensures hal.View().Valid()
      ensures hal.View().device == AllCleared(old(hal.View()).device, cs)
      ensures |presented| == |cs|
      ensures forall i | 0 <= i < |cs| :: presented[i] == NoError <==> IsDisplay(cs[i].display) || cs[i].isVirtual
    {
      presented := [];
      var i := 0;
      while i < |cs|
        invariant 0 <= i == |presented| <= |cs|
        invariant hal.View().Valid()
        invariant hal.View().device == AllCleared(old(hal.View()).device, cs[..i])
        invariant forall j | 0 <= j < i :: presented[j] == NoError <==> IsDisplay(cs[j].display) || cs[j].isVirtual
      {
        var err := DestroyDisplayResources(cs[i]);
        presented := presented + [err];
        assert cs[..i + 1][..i] == cs[..i];
        i := i + 1;
      }
      assert cs[..i] == cs;
    }
  }

  ghost predicate Owned(cs: seq<CachedDisplay>, l: LayerId) {
    exists i | 0 <= i < |cs| :: IsDisplay(cs[i].display) && l in cs[i].layers
  }

  /** The last frames: one post of the target to each physical display, in turn. */
  function LastFrames(cs: seq<CachedDisplay>, target: Handle): seq<PostCall> {
    if cs == [] then []
    else
      var c := cs[|cs| - 1];
      LastFrames(cs[..|cs| - 1], target) +
      if IsDisplay(c.display) && !c.isVirtual then [PostCall(c.display, target, c.drv)] else []
  }

  lemma {:induction false} LastFramesAreShown(d: Device, cs: seq<CachedDisplay>)
    ensures AllCleared(d, cs).target == d.target
    ensures var posts := LastFrames(cs, d.target); AllCleared(d, cs).kms == KmsAt(d.kms, posts, |posts|)
  {
    if cs != [] {
      var init, last := cs[..|cs| - 1], cs[|cs| - 1];
      LastFramesAreShown(d, init);
      if last.ShowsLastFrame() {
        KmsAtSnoc(d.kms, LastFrames(init, d.target), PostCall(last.display, d.target, last.drv));
      } else {
        assert LastFrames(cs, d.target) == LastFrames(init, d.target);
      }
    }
  }

  /** A departed client leaves the device without its layers and with all others, with the buffer
      that was the target before shown once on each of its physical displays, and, if it had one,
      with nothing dirty. */
  lemma {:induction false} DepartedClientLeaves(d: Device, cs: seq<CachedDisplay>)
    ensures var d' := AllCleared(d, cs);
      && (forall l :: l in d'.layers <==> l in d.layers && !Owned(cs, l))
      && d'.dirty <= d.dirty
      && ((exists i | 0 <= i < |cs| :: cs[i].ShowsLastFrame()) ==> d'.dirty == {})
      && d'.target == d.target && d'.nextLayerId == d.nextLayerId
      && var posts := LastFrames(cs, d.target); d'.kms == KmsAt(d.kms, posts, |posts|)
  {
    LastFramesAreShown(d, cs);
    if cs != [] {
      var init, last := cs[..|cs| - 1], cs[|cs| - 1];
      DepartedClientLeaves(d, init);
      forall l ensures Owned(cs, l) <==> Owned(init, l) || (IsDisplay(last.display) && l in last.layers) {
        if Owned(init, l) {
          var i :| 0 <= i < |init| && IsDisplay(init[i].display) && l in init[i].layers;
          assert cs[i] == init[i];
        }
      }
    }
  }
}
