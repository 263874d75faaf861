/**
  The composer device: which layers exist, which of them still ask for device
  composition ("dirty"), and the state that gates accept and present.  One state
  is shared by displays 0 and 1.
 */
module HwcDevice {
  import opened HwcKms

  type LayerId = nat

  datatype State = Modified | ValidatedWithChanges | Validated

  datatype Error =
    | NoError
    | BadDisplay
    | BadLayer
    | BadParameter
    | HasChanges
    | NotValidated
    | ResourceError(code: int)

  const UINT32_RANGE := 0x1_0000_0000
  const UINT64_RANGE := 0x1_0000_0000_0000_0000
  const COMPOSITION_CLIENT := 1
  const DATASPACE_UNKNOWN := 0

  /** The 64-bit increment of the layer counter. */
  function NextId(n: nat): nat {
    if n + 1 == UINT64_RANGE then 0 else n + 1
  }

  predicate IsDisplay(display: int) {
    display == 0 || display == 1
  }

  // -------------------------------------------------- iterating an unordered set

  ghost predicate Distinct<T(!new)>(s: seq<T>) {
    forall i, j | 0 <= i < j < |s| :: s[i] != s[j]
  }

  ghost predicate Lists<T(!new)>(s: seq<T>, elements: set<T>) {
    Distinct(s) && forall x :: x in s <==> x in elements
  }

  /** `order` is the iteration order of the hash set, unknown but fixed by the contents. */
  ghost predicate IsIterationOrder(order: set<LayerId> -> seq<LayerId>) {
    forall s :: Lists(order(s), s)
  }

  lemma {:induction false} ListLength<T(!new)>(s: seq<T>, elements: set<T>)
    requires Lists(s, elements)
    ensures |s| == |elements|
    decreases |s|
  {
    if s == [] {
      assert elements == {};
    } else {
      assert s[0] in s;
      forall x ensures x in s[1..] <==> x in elements - {s[0]} {
        assert x in s <==> x == s[0] || x in s[1..];
      }
      ListLength(s[1..], elements - {s[0]});
    }
  }

  // -------------------------------------------------- the device as a value

  datatype Device = Device(
    state: State,
    nextLayerId: nat,
    layers: set<LayerId>,
    dirty: set<LayerId>,
    target: Handle,
    kms: Kms,
    order: set<LayerId> -> seq<LayerId>)
  {
    /** The count as the 32-bit number that the device reports. */
    function DirtyCount(): (n: nat)
      ensures n <= |dirty|
      ensures |dirty| < UINT32_RANGE ==> n == |dirty|
    {
      |dirty| % UINT32_RANGE
    }

    ghost predicate Valid() {
      && IsIterationOrder(order)
      && dirty <= layers
      && nextLayerId < UINT64_RANGE
      && (state == Validated ==> DirtyCount() == 0)
      && (state == ValidatedWithChanges ==> DirtyCount() != 0)
    }
  }

  function CreateLayer(d: Device, display: int): (Device, Error, LayerId) {
    if !IsDisplay(display) then (d, BadDisplay, 0)
    else
      var id := NextId(d.nextLayerId);
      (d.(state := Modified, nextLayerId := id, layers := d.layers + {id}, dirty := d.dirty + {id}), NoError, id)
  }

  function DestroyLayer(d: Device, display: int, layer: LayerId): (Device, Error) {
    if !IsDisplay(display) then (d, BadDisplay)
    else
      var d1 := d.(dirty := d.dirty - {layer}, layers := d.layers - {layer});
      if layer in d.layers then (d1.(state := Modified), NoError) else (d1, BadLayer)
  }

  function SetLayerCompositionType(d: Device, display: int, layer: LayerId, composition: int): (Device, Error) {
    if !IsDisplay(display) then (d, BadDisplay)
    else if layer !in d.layers then (d, BadLayer)
    else
      var dirty := if composition != COMPOSITION_CLIENT then d.dirty + {layer} else d.dirty - {layer};
      (d.(state := Modified, dirty := dirty), NoError)
  }

  function SetClientTarget(d: Device, display: int, target: Handle, dataspace: int): (Device, Error) {
    if !IsDisplay(display) then (d, BadDisplay)
    else if dataspace != DATASPACE_UNKNOWN then (d, BadParameter)
    else (d.(target := target), NoError)
  }

  function ValidateDisplay(d: Device, display: int): (Device, Error) {
    if !IsDisplay(display) then (d, BadDisplay)
    else if d.DirtyCount() > 0 then (d.(state := ValidatedWithChanges), HasChanges)
    else (d.(state := Validated), NoError)
  }

  function AcceptDisplayChanges(d: Device, display: int): (Device, Error) {
    if !IsDisplay(display) then (d, BadDisplay)
    else if d.state == Modified then (d, NotValidated)
    else (d.(dirty := {}, state := Validated), NoError)
  }

  /** What the post itself answers is ignored. */
  function PresentDisplay(d: Device, display: int, drv: Driver): (Device, Error, int) {
    if !IsDisplay(display) then (d, BadDisplay, -1)
    else if d.state != Validated then (d, NotValidated, -1)
    else
      var r := Post(d.kms, display, d.target, drv, -1);
      (d.(kms := r.kms), NoError, r.fence)
  }

  // -------------------------------------------------- the device as an object

  class Hwc2Device {
    const order: set<LayerId> -> seq<LayerId>
    const context: HwcContext
    var state: State
    var nextLayerId: nat
    var layers: set<LayerId>
    var dirtyLayers: set<LayerId>
    var buffer: Handle

    ghost function View(): Device
      reads this, context
    {
      Device(state, nextLayerId, layers, dirtyLayers, buffer, context.View(), order)
    }

    constructor (order: set<LayerId> -> seq<LayerId>)
      ensures View() == Device(Modified, 0, {}, {}, NullHandle, Kms(true, true, map[]), order)
      ensures fresh(context)
    {
      this.order := order;
      context := new HwcContext();
      state, nextLayerId, layers, dirtyLayers, buffer := Modified, 0, {}, {}, NullHandle;
    }

    method AddLayer() returns (id: LayerId)
      modifies this
      ensures id == NextId(old(nextLayerId))
      ensures View() == old(View()).(nextLayerId := id, layers := old(layers) + {id}, dirty := old(dirtyLayers) + {id})
    {
      nextLayerId := NextId(nextLayerId);
      id := nextLayerId;
      layers := layers + {id};
      dirtyLayers := dirtyLayers + {id};
    }

    method RemoveLayer(layer: LayerId) returns (removed: bool)
      modifies this
      ensures removed == (layer in old(layers))
      ensures View() == old(View()).(dirty := old(dirtyLayers) - {layer}, layers := old(layers) - {layer})
    {
      dirtyLayers := dirtyLayers - {layer};
      removed := layer in layers;
      layers := layers - {layer};
    }

    method MarkLayerDirty(layer: LayerId, dirty: bool) returns (marked: bool)
      modifies this
      ensures marked == (layer in old(layers))
      ensures marked ==>
        View() == old(View()).(dirty := if dirty then old(dirtyLayers) + {layer} else old(dirtyLayers) - {layer})
      ensures !marked ==> View() == old(View())
    {
      if layer !in layers {
        return false;
      }
      if dirty {
        dirtyLayers := dirtyLayers + {layer};
      } else {
        dirtyLayers := dirtyLayers - {layer};
      }
      return true;
    }

    method Create(display: int) returns (err: Error, id: LayerId)
      modifies this
      ensures (View(), err, id) == CreateLayer(old(View()), display)
    {
      if display != 0 && display != 1 {
        return BadDisplay, 0;
      }
      id := AddLayer();
      state := Modified;
      err := NoError;
    }

    method Destroy(display: int, layer: LayerId) returns (err: Error)
      modifies this
      ensures (View(), err) == DestroyLayer(old(View()), display, layer)
    {
      if display != 0 && display != 1 {
        return BadDisplay;
      }
      var removed := RemoveLayer(layer);
      if removed {
        state := Modified;
        return NoError;
      } else {
        return BadLayer;
      }
    }

    method SetComposition(display: int, layer: LayerId, composition: int) returns (err: Error)
      modifies this
      ensures (View(), err) == SetLayerCompositionType(old(View()), display, layer, composition)
    {
      if display != 0 && display != 1 {
        return BadDisplay;
      }
      var marked := MarkLayerDirty(layer, composition != COMPOSITION_CLIENT);
      if !marked {
        return BadLayer;
      }
      state := Modified;
      return NoError;
    }

    method SetTarget(display: int, target: Handle, dataspace: int) returns (err: Error)
      modifies this
      ensures (View(), err) == SetClientTarget(old(View()), display, target, dataspace)
    {
      if display != 0 && display != 1 {
        return BadDisplay;
      }
      if dataspace != DATASPACE_UNKNOWN {
        return BadParameter;
      }
      buffer := target;
      return NoError;
    }

    method Validate(display: int) returns (err: Error, types: nat, requests: nat)
      modifies this
      ensures (View(), err) == ValidateDisplay(old(View()), display)
      ensures IsDisplay(display) ==> types == old(View()).DirtyCount() && requests == 0
    {
      types, requests := 0, 0;
      if display != 0 && display != 1 {
        err := BadDisplay;
        return;
      }
      types := |dirtyLayers| % UINT32_RANGE;
      if types > 0 {
        state := ValidatedWithChanges;
        err := HasChanges;
      } else {
        state := Validated;
        err := NoError;
      }
    }

    method Accept(display: int) returns (err: Error)
      modifies this
      ensures (View(), err) == AcceptDisplayChanges(old(View()), display)
    {
      if display != 0 && display != 1 {
        return BadDisplay;
      }
      if state == Modified {
        return NotValidated;
      }
      dirtyLayers := {};
      state := Validated;
      return NoError;
    }

    method Present(display: int, drv: Driver) returns (err: Error, fence: int)
      modifies this, context
      ensures (View(), err, fence) == PresentDisplay(old(View()), display, drv)
    {
      fence := -1;
      if display != 0 && display != 1 {
        return BadDisplay, fence;
      }
      if state != Validated {
        return NotValidated, fence;
      }
      var ignored;
      ignored, fence := context.HwcPost(display, buffer, drv, fence);
      err := NoError;
    }

    /** The count alone: what a call without output arrays reports. */
    method CountChangedCompositionTypes(display: int) returns (err: Error, count: nat)
      ensures err == if !IsDisplay(display) then BadDisplay else if state == Modified then NotValidated else NoError
      ensures err == NoError ==> count == View().DirtyCount()
    {
      count := 0;
      if display != 0 && display != 1 {
        return BadDisplay, count;
      }
      if state == Modified {
        return NotValidated, count;
      }
      return NoError, |dirtyLayers| % UINT32_RANGE;
    }

    /** At most `room` dirty layers in iteration order, each with type CLIENT. */
    method GetChangedCompositionTypes(display: int, room: nat)
      returns (err: Error, outLayers: seq<LayerId>, outTypes: seq<int>)
      requires IsIterationOrder(order)
      ensures err == if !IsDisplay(display) then BadDisplay else if state == Modified then NotValidated else NoError
      ensures err == NoError ==>
        var n := if room < View().DirtyCount() then room else View().DirtyCount();
        && n <= |order(dirtyLayers)| && outLayers == order(dirtyLayers)[..n]
        && |outTypes| == n && forall t | t in outTypes :: t == COMPOSITION_CLIENT
    {
      outLayers, outTypes := [], [];
      if display != 0 && display != 1 {
        err := BadDisplay;
        return;
      }
      if state == Modified {
        err := NotValidated;
        return;
      }
      var size := |dirtyLayers| % UINT32_RANGE;
      var count := if room < size then room else size;
      var iter := order(dirtyLayers);
      ListLength(iter, dirtyLayers);
      var i := 0;
      while i < count
        invariant 0 <= i <= count <= |iter|
        invariant outLayers == iter[..i]
        invariant |outTypes| == i && forall t | t in outTypes :: t == COMPOSITION_CLIENT
      {
        outLayers := outLayers + [iter[i]];
        outTypes := outTypes + [COMPOSITION_CLIENT];
        i := i + 1;
      }
      err := NoError;
    }
  }
}
