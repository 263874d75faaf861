/**
  Posting a buffer to a KMS output: framebuffer creation, the first mode set of
  each display, and the page flips that follow it.
 */
module HwcKms {

  datatype Handle = NullHandle | Handle(id: nat)

  const EBUSY := 16
  const EINVAL := 22

  /** What the kernel answers to the calls one post may make.  `valid` says whether
      the handle passes the magic check; `fbId` is the id a successful framebuffer
      creation stores, and kernel object ids are never zero. */
  datatype Driver = Driver(
    valid: bool, prime: int, addFb: int, fbId: nat,
    setCrtc: int, commit: int, errno: int, fence: int)
  {
    ghost predicate Sane() {
      fbId != 0
    }
  }

  /** Two "mode must be set first" flags, and the fb_id stored in each buffer handle. */
  datatype Kms = Kms(firstPost: bool, firstPost2: bool, fbs: map<Handle, nat>) {
    function FbOf(h: Handle): nat {
      if h in fbs then fbs[h] else 0
    }

    predicate NeedsModeSet(display: int) {
      if display == 0 then firstPost else firstPost2
    }

    function WithFlag(display: int, flag: bool): Kms {
      if display == 0 then this.(firstPost := flag)
      else if display == 1 then this.(firstPost2 := flag)
      else this
    }
  }

  /** What a post did with the display hardware. */
  datatype Action =
    | Rejected
    | ModeSet(fb: nat, ok: bool)
    | Commit(fb: nat, ok: bool, busy: bool)

  datatype PostResult = PostResult(kms: Kms, err: int, fence: int, action: Action)

  predicate CreatesFb(k: Kms, h: Handle, drv: Driver) {
    k.FbOf(h) == 0 && drv.prime == 0 && drv.addFb == 0
  }

  function AddFb(k: Kms, h: Handle, drv: Driver): (Kms, int) {
    if k.FbOf(h) != 0 then (k, 0)
    else if drv.prime != 0 then (k, drv.prime)
    else if drv.addFb != 0 then (k, drv.addFb)
    else (k.(fbs := k.fbs[h := drv.fbId]), 0)
  }

  predicate ValidHandle(h: Handle, drv: Driver) {
    h != NullHandle && drv.valid
  }

  function Post(k: Kms, display: int, h: Handle, drv: Driver, fence: int): PostResult {
    if !ValidHandle(h, drv) then PostResult(k, -EINVAL, fence, Rejected)
    else
      var (k1, err) := AddFb(k, h, drv);
      if err != 0 then PostResult(k1, err, fence, Rejected)
      else if display != 0 && display != 1 then PostResult(k1, -EINVAL, fence, Rejected)
      else if k1.NeedsModeSet(display) then
        PostResult(if drv.setCrtc == 0 then k1.WithFlag(display, false) else k1,
                   drv.setCrtc, -1, ModeSet(k1.FbOf(h), drv.setCrtc == 0))
      else
        var failed := drv.commit < 0;
        PostResult(if failed && drv.errno != EBUSY then k1.WithFlag(display, true) else k1,
                   if failed then drv.commit else 0, drv.fence,
                   Commit(k1.FbOf(h), !failed, failed && drv.errno == EBUSY))
  }

  class HwcContext {
    var firstPost: bool
    var firstPost2: bool
    var fbs: map<Handle, nat>

    ghost function View(): Kms
      reads this
    {
      Kms(firstPost, firstPost2, fbs)
    }

    /** The state that a successful KMS initialisation leaves. */
    constructor ()
      ensures View() == Kms(true, true, map[])
    {
      firstPost, firstPost2, fbs := true, true, map[];
    }

    method AddFramebuffer(h: Handle, drv: Driver) returns (err: int)
      modifies this
      ensures (View(), err) == AddFb(old(View()), h, drv)
    {
      if h in fbs && fbs[h] != 0 {
        return 0;
      }
      if drv.prime != 0 {
        return drv.prime;
      }
      if drv.addFb == 0 {
        fbs := fbs[h := drv.fbId];
      }
      return drv.addFb;
    }

    method AtomicCommit(display: int, drv: Driver) returns (err: int)
      requires display == 0 || display == 1
      modifies this
      ensures err == if drv.commit < 0 then drv.commit else 0
      ensures View() == if drv.commit < 0 && drv.errno != EBUSY
                        then old(View()).WithFlag(display, true) else old(View())
    {
      if drv.commit < 0 {
        if drv.errno != EBUSY {
          if display == 0 {
            firstPost := true;
          } else if display == 1 {
            firstPost2 := true;
          }
        }
      }
      return if drv.commit < 0 then drv.commit else 0;
    }

    method HwcPost(display: int, buffer: Handle, drv: Driver, fenceIn: int) returns (err: int, fence: int)
      modifies this
      ensures var r := Post(old(View()), display, buffer, drv, fenceIn);
              View() == r.kms && err == r.err && fence == r.fence
    {
      fence := fenceIn;
      if buffer == NullHandle || !drv.valid {
        return -EINVAL, fence;
      }
      if buffer !in fbs || fbs[buffer] == 0 {
        err := AddFramebuffer(buffer, drv);
        if err != 0 {
          return;
        }
      }
      if display == 0 {
        if firstPost {
          if drv.setCrtc == 0 {
            firstPost := false;
          }
          return drv.setCrtc, -1;
        }
      } else if display == 1 {
        if firstPost2 {
          if drv.setCrtc == 0 {
            firstPost2 := false;
          }
          return drv.setCrtc, -1;
        }
      } else {
        return -EINVAL, fence;
      }
      err := AtomicCommit(display, drv);
      fence := drv.fence;
    }
  }

  /** A post reports success exactly when the buffer's framebuffer reached the screen, by mode set
      or by flip; only a flip yields the driver's fence, and a mode set yields none. */
  lemma PostSucceedsIffShown(k: Kms, display: int, h: Handle, drv: Driver, fence: int)
    requires drv.Sane()
    ensures var r := Post(k, display, h, drv, fence);
      && (r.err == 0 <==> !r.action.Rejected? && r.action.ok)
      && (!r.action.Rejected? ==> IsShownFb(r.kms, h, r.action.fb))
      && r.fence == (if r.action.Rejected? then fence else if r.action.ModeSet? then -1 else drv.fence)
  {
  }

  predicate IsShownFb(k: Kms, h: Handle, fb: nat) {
    fb != 0 && k.FbOf(h) == fb
  }

  // ---------------------------------------------------------------- runs of posts

  datatype PostCall = PostCall(display: int, handle: Handle, drv: Driver)

  ghost function KmsAt(init: Kms, calls: seq<PostCall>, k: nat): Kms
    requires k <= |calls|
    decreases k, 0
  {
    if k == 0 then init else ResultAt(init, calls, k - 1).kms
  }

  ghost function ResultAt(init: Kms, calls: seq<PostCall>, k: nat): PostResult
    requires k < |calls|
    decreases k, 1
  {
    Post(KmsAt(init, calls, k), calls[k].display, calls[k].handle, calls[k].drv, -1)
  }

  ghost predicate ModeSetOk(init: Kms, calls: seq<PostCall>, i: nat, display: int)
    requires i < |calls|
  {
    calls[i].display == display && ResultAt(init, calls, i).action.ModeSet? && ResultAt(init, calls, i).action.ok
  }

  /** Post `j` made a page flip on `display` that failed for a reason other than EBUSY. */
  ghost predicate FlipBroke(init: Kms, calls: seq<PostCall>, j: nat, display: int)
    requires j < |calls|
  {
    calls[j].display == display && ResultAt(init, calls, j).action.Commit?
    && !ResultAt(init, calls, j).action.ok && !ResultAt(init, calls, j).action.busy
  }

  /** Some earlier post set the mode of `display`, and no flip on it broke since. */
  ghost predicate ModeStands(init: Kms, calls: seq<PostCall>, k: nat, display: int)
    requires k <= |calls|
  {
    exists i: nat | i < k ::
      ModeSetOk(init, calls, i, display) && forall j: nat | i < j < k :: !FlipBroke(init, calls, j, display)
  }

  lemma ModeStandsSnoc(init: Kms, calls: seq<PostCall>, p: nat, display: int)
    requires p < |calls|
    ensures ModeStands(init, calls, p + 1, display) <==>
      ModeSetOk(init, calls, p, display)
      || (ModeStands(init, calls, p, display) && !FlipBroke(init, calls, p, display))
  {
    if ModeStands(init, calls, p, display) && !FlipBroke(init, calls, p, display) {
      var i: nat :| i < p && ModeSetOk(init, calls, i, display)
                    && forall j: nat | i < j < p :: !FlipBroke(init, calls, j, display);
      assert forall j: nat | i < j < p + 1 :: !FlipBroke(init, calls, j, display);
    }
  }

  lemma FlagStep(k: Kms, display: int, call: PostCall)
    requires display == 0 || display == 1
    ensures var r := Post(k, call.display, call.handle, call.drv, -1);
      var done := call.display == display && r.action.ModeSet? && r.action.ok;
      var broke := call.display == display && r.action.Commit? && !r.action.ok && !r.action.busy;
      !r.kms.NeedsModeSet(display) <==> done || (!k.NeedsModeSet(display) && !broke)
  {
  }

  lemma {:induction false} FlagTracksHistory(init: Kms, calls: seq<PostCall>, k: nat, display: int)
    requires k <= |calls| && (display == 0 || display == 1)
    requires init.firstPost && init.firstPost2
    ensures KmsAt(init, calls, k).NeedsModeSet(display) <==> !ModeStands(init, calls, k, display)
  {
    if k > 0 {
      FlagTracksHistory(init, calls, k - 1, display);
      FlagStep(KmsAt(init, calls, k - 1), display, calls[k - 1]);
      ModeStandsSnoc(init, calls, k - 1, display);
    }
  }

  /** A page flip is attempted exactly when the mode of that display stands, among the
      posts that get as far as the hardware; otherwise the mode is set first. */
  lemma FlipOnlyWhenModeStands(init: Kms, calls: seq<PostCall>, k: nat)
    requires k < |calls|
    requires init.firstPost && init.firstPost2
    ensures ResultAt(init, calls, k).action.Commit? ==> ModeStands(init, calls, k, calls[k].display)
    ensures ResultAt(init, calls, k).action.ModeSet? ==> !ModeStands(init, calls, k, calls[k].display)
  {
    if calls[k].display == 0 || calls[k].display == 1 {
      FlagTracksHistory(init, calls, k, calls[k].display);
    }
  }

  /** A post on one display leaves the other display's flag as it was. */
  lemma DisplaysAreIndependent(k: Kms, display: int, other: int, h: Handle, drv: Driver, fence: int)
    requires (other == 0 || other == 1) && display != other
    ensures Post(k, display, h, drv, fence).kms.NeedsModeSet(other) == k.NeedsModeSet(other)
  {
  }

  ghost predicate CreatesFbAt(init: Kms, calls: seq<PostCall>, i: nat)
    requires i < |calls|
  {
    var c := calls[i];
    ValidHandle(c.handle, c.drv) && CreatesFb(KmsAt(init, calls, i), c.handle, c.drv)
  }

  lemma {:induction false} FbStays(init: Kms, calls: seq<PostCall>, i: nat, j: nat, h: Handle)
    requires i <= j <= |calls|
    requires forall c | c in calls :: c.drv.Sane()
    requires KmsAt(init, calls, i).FbOf(h) != 0
    ensures KmsAt(init, calls, j).FbOf(h) == KmsAt(init, calls, i).FbOf(h)
    decreases j
  {
    if i < j {
      FbStays(init, calls, i, j - 1, h);
      assert calls[j - 1].drv.Sane();
    }
  }

  /** Each handle has at most one successful framebuffer creation, and every later post
      of that handle that reaches the hardware shows that framebuffer. */
  lemma OneFramebufferPerHandle(init: Kms, calls: seq<PostCall>, i: nat, j: nat)
    requires i < j < |calls| && calls[i].handle == calls[j].handle
    requires forall c | c in calls :: c.drv.Sane()
    requires CreatesFbAt(init, calls, i)
    ensures !CreatesFbAt(init, calls, j)
    ensures var a := ResultAt(init, calls, j).action; a.Rejected? || a.fb == calls[i].drv.fbId
  {
    assert calls[i].drv.Sane();
    assert KmsAt(init, calls, i + 1) == ResultAt(init, calls, i).kms;
    FbStays(init, calls, i + 1, j, calls[i].handle);
  }

  // ---------------------------------------------------------------- which posts reach the screen

  /** A valid post for which the kernel would make a framebuffer. */
  predicate CanCreate(c: PostCall, h: Handle) {
    c.handle == h && h != NullHandle && c.drv.valid && c.drv.prime == 0 && c.drv.addFb == 0
  }

  ghost predicate FirstCreation(calls: seq<PostCall>, i: nat, h: Handle)
    requires i < |calls|
  {
    CanCreate(calls[i], h) && forall j | 0 <= j < i :: !CanCreate(calls[j], h)
  }

  /** Some post up to the `n`-th could make the framebuffer. */
  ghost predicate FbMade(calls: seq<PostCall>, n: nat, h: Handle)
    requires n <= |calls|
  {
    exists i | 0 <= i < n :: CanCreate(calls[i], h)
  }

  lemma FbStep(k: Kms, c: PostCall, h: Handle)
    requires c.drv.Sane()
    ensures Post(k, c.display, c.handle, c.drv, -1).kms.FbOf(h) ==
            if k.FbOf(h) == 0 && CanCreate(c, h) then c.drv.fbId else k.FbOf(h)
  {
  }

  /** A handle's framebuffer is that of the first post that could make one. */
  lemma {:induction false} FbTracksHistory(init: Kms, calls: seq<PostCall>, k: nat, h: Handle)
    requires k <= |calls| && init.fbs == map[] && forall c | c in calls :: c.drv.Sane()
    ensures KmsAt(init, calls, k).FbOf(h) == 0 <==> !FbMade(calls, k, h)
    ensures forall i: nat | i < k && FirstCreation(calls, i, h) :: KmsAt(init, calls, k).FbOf(h) == calls[i].drv.fbId
  {
    if k > 0 {
      FbTracksHistory(init, calls, k - 1, h);
      assert calls[k - 1] in calls;
      FbStep(KmsAt(init, calls, k - 1), calls[k - 1], h);
      assert FbMade(calls, k, h) <==> FbMade(calls, k - 1, h) || CanCreate(calls[k - 1], h);
    }
  }

  /** The hardware action of a post whose handle, display and framebuffer are in order: a flip if
      the mode stands, otherwise a mode set. */
  function Shown(c: PostCall, fb: nat, modeStands: bool): (Action, int, int) {
    if modeStands
    then (Commit(fb, c.drv.commit >= 0, c.drv.commit < 0 && c.drv.errno == EBUSY),
          if c.drv.commit < 0 then c.drv.commit else 0, c.drv.fence)
    else (ModeSet(fb, c.drv.setCrtc == 0), c.drv.setCrtc, -1)
  }

  /** Why a post does not get that far. */
  function Refusal(c: PostCall, fbMade: bool): int {
    if c.handle == NullHandle || !c.drv.valid || fbMade then -EINVAL
    else if c.drv.prime != 0 then c.drv.prime
    else c.drv.addFb
  }

  /** In every run after a successful initialisation, what a post does, answers and signals is
      decided by its arguments and the history: it reaches the hardware exactly if its handle is
      valid, its display is 0 or 1 and some post of that handle so far could make the framebuffer. */
  lemma PostIsDecided(init: Kms, calls: seq<PostCall>, k: nat)
    requires k < |calls| && init == Kms(true, true, map[]) && forall c | c in calls :: c.drv.Sane()
    ensures var c, r := calls[k], ResultAt(init, calls, k); var fbMade := FbMade(calls, k + 1, c.handle);
      if c.handle != NullHandle && c.drv.valid && fbMade && (c.display == 0 || c.display == 1)
      then
        && !r.action.Rejected?
        && (r.action, r.err, r.fence) == Shown(c, r.action.fb, ModeStands(init, calls, k, c.display))
        && forall i: nat | i <= k && FirstCreation(calls, i, c.handle) :: r.action.fb == calls[i].drv.fbId
      else r.action == Rejected && r.err == Refusal(c, fbMade) && r.fence == -1
  {
    var c := calls[k];
    assert c in calls;
    FbTracksHistory(init, calls, k, c.handle);
    FbTracksHistory(init, calls, k + 1, c.handle);
    FbStep(KmsAt(init, calls, k), c, c.handle);
    assert FbMade(calls, k + 1, c.handle) <==> FbMade(calls, k, c.handle) || CanCreate(c, c.handle);
    if c.display == 0 || c.display == 1 {
      FlagTracksHistory(init, calls, k, c.display);
    }
  }

  // ---------------------------------------------------------------- CRTC assignment

  /** `possible[i]` is bit i of the encoder's mask of usable CRTCs. */
  predicate Usable(possible: seq<bool>, used: set<nat>, i: nat) {
    i < |possible| && possible[i] && i !in used
  }

  ghost predicate PicksCrtc(possible: seq<bool>, used: set<nat>, crtc: int) {
    if exists i: nat :: Usable(possible, used, i)
    then crtc >= 0 && Usable(possible, used, crtc) && forall i: nat | i < crtc :: !Usable(possible, used, i)
    else crtc == -EINVAL
  }

  class CrtcTable {
    var used: set<nat>

    constructor ()
      ensures used == {}
    {
      used := {};
    }

    /** The search marks the bit it stopped at, which is one past the last CRTC when it fails. */
    method Assign(possible: seq<bool>) returns (crtc: int)
      modifies this
      ensures PicksCrtc(possible, old(used), crtc)
      ensures used == old(used) + {if crtc < 0 then |possible| else crtc}
    {
      var i := 0;
      while i < |possible|
        invariant 0 <= i <= |possible|
        invariant forall j: nat | j < i :: !Usable(possible, used, j)
      {
        if possible[i] && i !in used {
          break;
        }
        i := i + 1;
      }
      assert i < |possible| ==> Usable(possible, used, i);
      used := used + {i};
      if i == |possible| {
        return -EINVAL;
      }
      return i;
    }
  }

  /** The outputs of a sequence of searches over encoders of the same card. */
  ghost predicate AssignmentRun(masks: seq<seq<bool>>, count: nat, outs: seq<int>, useds: seq<set<nat>>) {
    && |outs| == |masks| && |useds| == |masks| + 1
    && (forall k | 0 <= k < |masks| :: |masks[k]| == count && PicksCrtc(masks[k], useds[k], outs[k]))
    && (forall k | 0 <= k < |masks| :: useds[k + 1] == useds[k] + {if outs[k] < 0 then count else outs[k]})
  }

  lemma {:induction false} UsedGrows(masks: seq<seq<bool>>, count: nat, outs: seq<int>, useds: seq<set<nat>>, i: nat, j: nat)
    requires AssignmentRun(masks, count, outs, useds)
    requires i <= j <= |masks|
    ensures useds[i] <= useds[j]
    decreases j
  {
    if i < j {
      UsedGrows(masks, count, outs, useds, i, j - 1);
      assert useds[j - 1 + 1] == useds[j - 1] + {if outs[j - 1] < 0 then count else outs[j - 1]};
    }
  }

  /** Successful searches never hand out a CRTC twice, and only ones the encoder permits. */
  lemma CrtcsAreDistinct(masks: seq<seq<bool>>, count: nat, outs: seq<int>, useds: seq<set<nat>>, i: nat, j: nat)
    requires AssignmentRun(masks, count, outs, useds)
    requires i < j < |masks| && outs[i] >= 0 && outs[j] >= 0
    ensures outs[i] != outs[j]
    ensures outs[j] < count && masks[j][outs[j]]
  {
    assert PicksCrtc(masks[i], useds[i], outs[i]) && PicksCrtc(masks[j], useds[j], outs[j]);
    assert useds[i + 1] == useds[i] + {outs[i]};
    UsedGrows(masks, count, outs, useds, i + 1, j);
  }
}
