/**
  The allocator service: a request for several equal buffers either yields all of them or
  none, and in both cases the buffer registry is left as it was; only duplicated
  descriptors go out.
 */
module Allocator {
  import opened Wrappers
  import opened BoLock
  import opened Gralloc

  const UNKNOWN_ERROR := -0x8000_0000

  /** A buffer the driver made: the new handle's address, the object, its descriptor. */
  datatype Made = Made(address: Address, bo: BoId, fd: int)

  /** What one attempt meets: a buffer with its stride in bytes, or an error number. */
  datatype Attempt = Yields(made: Made, byteStride: nat) | Fails(errno: int)

  /** New handles, objects and descriptors, none of them in use.  A stale empty entry at a new
      address is possible, an entry with an object is not. */
  ghost predicate Fresh(base: Registry, hs: seq<Made>) {
    && (forall i | 0 <= i < |hs| :: !base.Known(hs[i].address) && hs[i].bo !in base.live + base.destroyed + base.data.Keys
                                    && hs[i].fd !in base.fds)
    && (forall i, j | 0 <= i < j < |hs| :: hs[i].address != hs[j].address && hs[i].bo != hs[j].bo && hs[i].fd != hs[j].fd)
  }

  ghost function Addresses(hs: seq<Made>, from: nat, to: nat): set<Address>
    requires from <= to <= |hs|
  {
    set i | from <= i < to :: hs[i].address
  }

  ghost function Objects(hs: seq<Made>, from: nat, to: nat): set<BoId>
    requires from <= to <= |hs|
  {
    set i | from <= i < to :: hs[i].bo
  }

  ghost function Descriptors(hs: seq<Made>, from: nat, to: nat): set<int>
    requires from <= to <= |hs|
  {
    set i | from <= i < to :: hs[i].fd
  }

  /** The objects among the first `n` whose handle got a stale address. */
  ghost function Stranded(base: Registry, hs: seq<Made>, n: nat): set<BoId>
    requires n <= |hs|
  {
    set i | 0 <= i < n && hs[i].address in base.handles :: hs[i].bo
  }

  ghost predicate HandlesHold(handles: map<Address, Option<BoId>>, base: Registry, hs: seq<Made>, from: nat, to: nat)
    requires from <= to <= |hs|
  {
    && handles.Keys == base.handles.Keys + Addresses(hs, from, to)
    && (forall a | a in base.handles :: handles[a] == base.handles[a])
    && (forall i | from <= i < to && hs[i].address !in base.handles :: handles[hs[i].address] == Some(hs[i].bo))
  }

  ghost predicate ObjectsHold(live: set<BoId>, destroyed: set<BoId>, base: Registry, hs: seq<Made>, from: nat, to: nat)
    requires from <= to <= |hs|
  {
    && live == base.live + Objects(hs, from, to) + Stranded(base, hs, from)
    && destroyed == base.destroyed + (Objects(hs, 0, from) - Stranded(base, hs, from))
  }

  /** `now` is `base` with buffers from..to registered and the first `from` freed again; a buffer
      at a stale address is never entered, so freeing it destroys nothing. */
  ghost predicate Holds(now: Registry, base: Registry, hs: seq<Made>, from: nat, to: nat)
    requires from <= to <= |hs|
  {
    && now.data == base.data
    && HandlesHold(now.handles, base, hs, from, to)
    && ObjectsHold(now.live, now.destroyed, base, hs, from, to)
    && now.fds == base.fds + Descriptors(hs, from, to)
  }

  function CreateMade(r: Registry, h: Made): Registry {
    Create(r, h.address, h.bo, h.fd)
  }

  function FreeMade(r: Registry, h: Made): Registry {
    var r1 := Free(r, h.address);
    r1.(fds := r1.fds - {h.fd})
  }

  lemma HandlesExtend(handles: map<Address, Option<BoId>>, base: Registry, hs: seq<Made>, n: nat)
    requires n < |hs| && Fresh(base, hs) && HandlesHold(handles, base, hs, 0, n)
    ensures HandlesHold(if hs[n].address in handles then handles else handles[hs[n].address := Some(hs[n].bo)],
                        base, hs, 0, n + 1)
  {
    assert Addresses(hs, 0, n + 1) == Addresses(hs, 0, n) + {hs[n].address};
    assert hs[n].address !in Addresses(hs, 0, n);
  }

  lemma ObjectsExtend(live: set<BoId>, destroyed: set<BoId>, base: Registry, hs: seq<Made>, n: nat)
    requires n < |hs| && ObjectsHold(live, destroyed, base, hs, 0, n)
    ensures ObjectsHold(live + {hs[n].bo}, destroyed, base, hs, 0, n + 1)
  {
    assert Objects(hs, 0, n + 1) == Objects(hs, 0, n) + {hs[n].bo};
  }

  lemma DescriptorsExtend(base: set<int>, hs: seq<Made>, n: nat)
    requires n < |hs|
    ensures base + Descriptors(hs, 0, n) + {hs[n].fd} == base + Descriptors(hs, 0, n + 1)
  {
    assert Descriptors(hs, 0, n + 1) == Descriptors(hs, 0, n) + {hs[n].fd};
  }

  lemma CreateExtends(now: Registry, base: Registry, hs: seq<Made>, n: nat)
    requires n < |hs| && Fresh(base, hs) && Holds(now, base, hs, 0, n)
    ensures Holds(CreateMade(now, hs[n]), base, hs, 0, n + 1)
  {
    HandlesExtend(now.handles, base, hs, n);
    ObjectsExtend(now.live, now.destroyed, base, hs, n);
    DescriptorsExtend(base.fds, hs, n);
  }

  lemma EntriesLeft(handles: map<Address, Option<BoId>>, base: Registry, hs: seq<Made>, from: nat, to: nat)
    requires from < to <= |hs| && Fresh(base, hs) && HandlesHold(handles, base, hs, from, to)
    ensures var a := hs[from].address;
      (if a in base.handles then handles.Keys else handles.Keys - {a}) == base.handles.Keys + Addresses(hs, from + 1, to)
  {
    assert Addresses(hs, from, to) == {hs[from].address} + Addresses(hs, from + 1, to);
    assert hs[from].address !in Addresses(hs, from + 1, to);
  }

  lemma HandlesShrink(handles: map<Address, Option<BoId>>, base: Registry, hs: seq<Made>, from: nat, to: nat)
    requires from < to <= |hs| && Fresh(base, hs) && HandlesHold(handles, base, hs, from, to)
    ensures HandlesHold(if hs[from].address in base.handles then handles else handles - {hs[from].address},
                        base, hs, from + 1, to)
  {
    EntriesLeft(handles, base, hs, from, to);
  }

  lemma ObjectsShrink(live: set<BoId>, destroyed: set<BoId>, base: Registry, hs: seq<Made>, from: nat, to: nat)
    requires from < to <= |hs| && Fresh(base, hs) && ObjectsHold(live, destroyed, base, hs, from, to)
    ensures if hs[from].address in base.handles then ObjectsHold(live, destroyed, base, hs, from + 1, to)
            else ObjectsHold(live - {hs[from].bo}, destroyed + {hs[from].bo}, base, hs, from + 1, to)
  {
    var b := hs[from].bo;
    assert Objects(hs, from, to) == {b} + Objects(hs, from + 1, to);
    assert Objects(hs, 0, from + 1) == Objects(hs, 0, from) + {b};
    assert b !in Objects(hs, from + 1, to) && b !in Objects(hs, 0, from) && b !in Stranded(base, hs, from);
    assert Stranded(base, hs, from + 1) == Stranded(base, hs, from) + if hs[from].address in base.handles then {b} else {};
  }

  lemma DescriptorsShrink(base: Registry, hs: seq<Made>, from: nat, to: nat)
    requires from < to <= |hs| && Fresh(base, hs)
    ensures base.fds + Descriptors(hs, from, to) - {hs[from].fd} == base.fds + Descriptors(hs, from + 1, to)
  {
    assert Descriptors(hs, from, to) == {hs[from].fd} + Descriptors(hs, from + 1, to);
    assert hs[from].fd !in Descriptors(hs, from + 1, to);
  }

  /** Freeing a buffer closes its descriptor; if it was entered, its entry and its object go too. */
  lemma FreeOne(now: Registry, h: Made, stale: bool)
    requires if stale then h.address in now.handles && !now.Known(h.address)
             else h.address in now.handles && now.handles[h.address] == Some(h.bo) && h.bo !in now.data
    ensures FreeMade(now, h) ==
            if stale then now.(fds := now.fds - {h.fd})
            else now.(handles := now.handles - {h.address}, live := now.live - {h.bo},
                      destroyed := now.destroyed + {h.bo}, fds := now.fds - {h.fd})
  {
    assert h.bo !in now.data ==> now.data - {h.bo} == now.data;
  }

  lemma FreeAdvances(now: Registry, base: Registry, hs: seq<Made>, from: nat, to: nat)
    requires from < to <= |hs| && Fresh(base, hs) && Holds(now, base, hs, from, to)
    ensures Holds(FreeMade(now, hs[from]), base, hs, from + 1, to)
  {
    assert hs[from].address in Addresses(hs, from, to);
    FreeOne(now, hs[from], hs[from].address in base.handles);
    HandlesShrink(now.handles, base, hs, from, to);
    ObjectsShrink(now.live, now.destroyed, base, hs, from, to);
    DescriptorsShrink(base, hs, from, to);
  }

  // -------------------------------------------------- the request

  ghost predicate FreshAttempts(base: Registry, attempts: seq<Attempt>) {
    && (forall i | 0 <= i < |attempts| && attempts[i].Yields? :: Fresh(base, [attempts[i].made]))
    && (forall i, j | 0 <= i < j < |attempts| && attempts[i].Yields? && attempts[j].Yields? ::
          attempts[i].made.address != attempts[j].made.address && attempts[i].made.bo != attempts[j].made.bo
          && attempts[i].made.fd != attempts[j].made.fd)
    && (forall i | 0 <= i < |attempts| && attempts[i].Fails? :: attempts[i].errno > 0)
  }

  /** Zero strides first, then one positive stride `s` throughout; all zero means `s` is zero. */
  ghost predicate CommonStride(strides: seq<nat>, s: nat) {
    exists z :: 0 <= z <= |strides| && SplitsAt(strides, s, z)
  }

  ghost predicate SplitsAt(strides: seq<nat>, s: nat, z: int)
    requires 0 <= z <= |strides|
  {
    (forall i | 0 <= i < z :: strides[i] == 0) && (forall i | z <= i < |strides| :: strides[i] == s)
    && (s > 0 <==> z < |strides|)
  }

  lemma StrideSnoc(strides: seq<nat>, s: nat, next: nat)
    requires CommonStride(strides, s)
    ensures s == 0 ==> CommonStride(strides + [next], next)
    ensures s == next ==> CommonStride(strides + [next], next)
    ensures s != 0 && s != next ==> forall t, more :: !CommonStride(strides + [next] + more, t)
  {
    var z :| 0 <= z <= |strides| && SplitsAt(strides, s, z);
    var longer := strides + [next];
    if s == 0 || s == next {
      assert SplitsAt(longer, next, if next == 0 then |longer| else z);
    } else {
      forall t, more ensures !CommonStride(longer + more, t) {
        assert (longer + more)[z] == s && (longer + more)[|strides|] == next;
      }
    }
  }

  ghost function StridesOf(attempts: seq<Attempt>, bpp: nat): (s: seq<nat>)
    requires bpp != 0 && forall i | 0 <= i < |attempts| :: attempts[i].Yields?
    ensures |s| == |attempts|
  {
    seq(|attempts|, i requires 0 <= i < |attempts| => attempts[i].byteStride / bpp)
  }

  ghost predicate RequestSucceeds(format: Format, attempts: seq<Attempt>, stride: nat) {
    if attempts == [] then stride == 0
    else
      && BytesPerPixel(format) != 0
      && (forall i | 0 <= i < |attempts| :: attempts[i].Yields?)
      && CommonStride(StridesOf(attempts, BytesPerPixel(format)), stride)
  }

  lemma NextStride(format: Format, attempts: seq<Attempt>, i: nat, stride: nat, next: nat)
    requires i < |attempts| && RequestSucceeds(format, attempts[..i], stride) && BytesPerPixel(format) != 0
    requires forall j | 0 <= j <= i :: attempts[j].Yields?
    requires next == attempts[i].byteStride / BytesPerPixel(format)
    ensures if stride == 0 || stride == next then RequestSucceeds(format, attempts[..i + 1], next)
            else forall s :: !RequestSucceeds(format, attempts, s)
  {
    var bpp := BytesPerPixel(format);
    var strides := StridesOf(attempts[..i], bpp);
    assert i == 0 ==> SplitsAt(strides, 0, 0);
    StrideSnoc(strides, stride, next);
    assert StridesOf(attempts[..i + 1], bpp) == strides + [next];
    forall s | stride != 0 && stride != next ensures !RequestSucceeds(format, attempts, s) {
      if forall j | 0 <= j < |attempts| :: attempts[j].Yields? {
        var all := StridesOf(attempts, bpp);
        assert all == strides + [next] + all[i + 1..];
      }
    }
  }

  /** Nothing of a request is left over but the duplicated descriptors and the objects that
      were created at a stale address. */
  ghost predicate RestoredExceptStranded(before: Registry, after: Registry, made: seq<Made>, dups: seq<int>) {
    && after.handles == before.handles && after.data == before.data
    && after.fds == before.fds + (set d | d in dups)
    && after.live == before.live + Stranded(before, made, |made|)
    && after.destroyed == before.destroyed + (Objects(made, 0, |made|) - Stranded(before, made, |made|))
  }

  lemma HoldsAll(before: Registry, base: Registry, after: Registry, made: seq<Made>, dups: seq<int>)
    requires base == before.(fds := before.fds + set d | d in dups)
    requires Holds(after, base, made, |made|, |made|)
    ensures RestoredExceptStranded(before, after, made, dups)
  {
    assert Addresses(made, |made|, |made|) == {} && Descriptors(made, |made|, |made|) == {};
    assert Objects(made, |made|, |made|) == {};
    assert Stranded(before, made, |made|) == Stranded(base, made, |made|);
  }

  lemma HoldsNone(base: Registry)
    ensures Holds(base, base, [], 0, 0)
  {
    var hs: seq<Made> := [];
    assert Addresses(hs, 0, 0) == {} && Descriptors(hs, 0, 0) == {} && Objects(hs, 0, 0) == {};
    assert Stranded(base, hs, 0) == {};
  }

  lemma HoldsWithDups(now: Registry, base: Registry, hs: seq<Made>, dups: set<int>)
    requires Fresh(base, hs) && Holds(now, base, hs, 0, |hs|)
    requires dups !! Descriptors(hs, 0, |hs|)
    ensures var base' := base.(fds := base.fds + dups);
      Fresh(base', hs) && Holds(now.(fds := now.fds + dups), base', hs, 0, |hs|)
  {
    var base' := base.(fds := base.fds + dups);
    assert forall i | 0 <= i < |hs| :: hs[i].fd in Descriptors(hs, 0, |hs|);
    assert Stranded(base, hs, 0) == Stranded(base', hs, 0);
  }

  /** Success leaves nothing behind but the duplicates if and only if no new handle was put at
      an address with an entry; and then every object made was destroyed again. */
  lemma RestoredIffNoStaleAddress(before: Registry, after: Registry, made: seq<Made>, dups: seq<int>)
    requires Fresh(before, made) && RestoredExceptStranded(before, after, made, dups)
    ensures after.live == before.live <==> forall i | 0 <= i < |made| :: made[i].address !in before.handles
    ensures after.live == before.live ==> after.destroyed == before.destroyed + Objects(made, 0, |made|)
  {
    forall i | 0 <= i < |made| && made[i].address in before.handles ensures made[i].bo in after.live - before.live {
      assert made[i].bo in Stranded(before, made, |made|);
    }
    if forall i | 0 <= i < |made| :: made[i].address !in before.handles {
      assert Stranded(before, made, |made|) == {};
    } else {
      var i :| 0 <= i < |made| && made[i].address in before.handles;
      assert made[i].bo in after.live - before.live;
    }
  }

  /** `made` are the buffers of the first attempts. */
  ghost predicate MadeBy(attempts: seq<Attempt>, made: seq<Made>) {
    && |made| <= |attempts|
    && forall j | 0 <= j < |made| :: attempts[j].Yields? && attempts[j].made == made[j]
  }

  /** `pending` are the buffers of the first attempts, all of them registered in `now`. */
  ghost predicate InProgress(base: Registry, now: Registry, attempts: seq<Attempt>, pending: seq<Made>) {
    && MadeBy(attempts, pending)
    && Fresh(base, pending) && Holds(now, base, pending, 0, |pending|)
  }

  lemma PendingAreFresh(base: Registry, attempts: seq<Attempt>, pending: seq<Made>)
    requires FreshAttempts(base, attempts) && MadeBy(attempts, pending)
    ensures Fresh(base, pending)
  {
    forall i | 0 <= i < |pending|
      ensures !base.Known(pending[i].address) && pending[i].fd !in base.fds
      ensures pending[i].bo !in base.live + base.destroyed + base.data.Keys
    {
      assert Fresh(base, [attempts[i].made]);
      assert [attempts[i].made][0] == pending[i];
    }
  }

  lemma OneMoreHolds(base: Registry, now: Registry, pending: seq<Made>, made: Made)
    requires Fresh(base, pending + [made]) && Holds(now, base, pending, 0, |pending|)
    ensures Holds(CreateMade(now, made), base, pending + [made], 0, |pending| + 1)
  {
    HoldsPrefix(now, base, pending, pending + [made]);
    CreateExtends(now, base, pending + [made], |pending|);
  }

  lemma ProgressStep(base: Registry, now: Registry, attempts: seq<Attempt>, pending: seq<Made>, made: Made)
    requires FreshAttempts(base, attempts) && InProgress(base, now, attempts, pending)
    requires MadeBy(attempts, pending + [made])
    ensures InProgress(base, CreateMade(now, made), attempts, pending + [made])
  {
    PendingAreFresh(base, attempts, pending + [made]);
    OneMoreHolds(base, now, pending, made);
  }

  lemma HoldsPrefix(now: Registry, base: Registry, hs: seq<Made>, longer: seq<Made>)
    requires hs <= longer && Holds(now, base, hs, 0, |hs|)
    ensures Holds(now, base, longer, 0, |hs|)
  {
    var n := |hs|;
    assert Addresses(hs, 0, n) == Addresses(longer, 0, n) && Descriptors(hs, 0, n) == Descriptors(longer, 0, n);
    assert Objects(hs, 0, n) == Objects(longer, 0, n) && Objects(hs, 0, 0) == Objects(longer, 0, 0);
    assert Stranded(base, hs, 0) == Stranded(base, longer, 0);
  }

  ghost predicate Succeeds(format: Format, attempts: seq<Attempt>) {
    exists s :: RequestSucceeds(format, attempts, s)
  }

  /** The error of a request that failed with `n` buffers made: that of the format, of the driver
      in the next attempt, or of a last buffer whose stride differs. */
  predicate ErrorFits(format: Format, attempts: seq<Attempt>, n: nat, err: int) {
    if BytesPerPixel(format) == 0 then n == 0 && err == -EINVAL
    else (n < |attempts| && attempts[n].Fails? && err == -attempts[n].errno) || (n > 1 && err == UNKNOWN_ERROR)
  }

  lemma AttemptFails(format: Format, attempts: seq<Attempt>, i: nat, stride: nat, err: int)
    requires i < |attempts| && RequestSucceeds(format, attempts[..i], stride)
    requires err != 0
    requires err == if BytesPerPixel(format) == 0 then -EINVAL else if attempts[i].Fails? then -attempts[i].errno else 0
    ensures ErrorFits(format, attempts, i, err) && !Succeeds(format, attempts)
  {
  }

  lemma SameStride(format: Format, attempts: seq<Attempt>, pending: seq<Made>, i: nat, stride: nat, next: nat)
    requires i < |attempts| && RequestSucceeds(format, attempts[..i], stride) && BytesPerPixel(format) != 0
    requires MadeBy(attempts, pending) && |pending| == i + 1
    requires next == attempts[i].byteStride / BytesPerPixel(format) && (stride == 0 || stride == next)
    ensures RequestSucceeds(format, attempts[..i + 1], next)
  {
    NextStride(format, attempts, i, stride, next);
  }

  lemma StrideDiffers(format: Format, attempts: seq<Attempt>, pending: seq<Made>, i: nat, stride: nat, next: nat)
    requires i < |attempts| && RequestSucceeds(format, attempts[..i], stride) && BytesPerPixel(format) != 0
    requires MadeBy(attempts, pending) && |pending| == i + 1
    requires next == attempts[i].byteStride / BytesPerPixel(format) && stride != 0 && stride != next
    ensures i > 0 && !Succeeds(format, attempts)
  {
    NextStride(format, attempts, i, stride, next);
  }

  class AllocatorService {
    const gralloc: GbmGralloc

    constructor (gralloc: GbmGralloc)
      ensures this.gralloc == gralloc
    {
      this.gralloc := gralloc;
    }

    method AllocateOneBuffer(format: Format, attempt: Attempt) returns (err: int, stride: nat)
      requires attempt.Fails? ==> attempt.errno > 0
      modifies gralloc
      ensures err == if BytesPerPixel(format) == 0 then -EINVAL else if attempt.Fails? then -attempt.errno else 0
      ensures err == 0 ==> gralloc.View() == CreateMade(old(gralloc.View()), attempt.made)
                           && stride == attempt.byteStride / BytesPerPixel(format)
      ensures err != 0 ==> gralloc.View() == old(gralloc.View())
    {
      if BytesPerPixel(format) == 0 {
        return -EINVAL, 0;
      }
      if attempt.Fails? {
        var none, zero := gralloc.BoCreate(0, format, None, 0);
        return -attempt.errno, 0;
      }
      var m := attempt.made;
      var ok, s := gralloc.BoCreate(m.address, format, Some((m.bo, m.fd)), attempt.byteStride);
      return 0, s;
    }

    method FreeBuffers(ghost base: Registry, buffers: seq<Made>)
      requires Fresh(base, buffers) && Holds(gralloc.View(), base, buffers, 0, |buffers|)
      modifies gralloc
      ensures Holds(gralloc.View(), base, buffers, |buffers|, |buffers|)
    {
      var i := 0;
      while i < |buffers|
        invariant 0 <= i <= |buffers|
        invariant Holds(gralloc.View(), base, buffers, i, |buffers|)
      {
        FreeAdvances(gralloc.View(), base, buffers, i, |buffers|);
        gralloc.GbmFree(buffers[i].address);
        gralloc.fds := gralloc.fds - {buffers[i].fd};
        i := i + 1;
      }
    }

    method Abandon(ghost base: Registry, ghost attempts: seq<Attempt>, pending: seq<Made>)
      requires InProgress(base, gralloc.View(), attempts, pending)
      modifies gralloc
      ensures RestoredExceptStranded(base, gralloc.View(), pending, [])
    {
      FreeBuffers(base, pending);
      HoldsAll(base, base, gralloc.View(), pending, []);
    }

    /** The handles are duplicated for the client, and the originals freed. */
    method HandOut(ghost base: Registry, ghost attempts: seq<Attempt>, pending: seq<Made>, dups: seq<int>)
      returns (buffers: seq<int>)
      requires InProgress(base, gralloc.View(), attempts, pending)
      requires forall i | 0 <= i < |pending| :: pending[i].fd !in dups
      modifies gralloc
      ensures buffers == dups && RestoredExceptStranded(base, gralloc.View(), pending, dups)
    {
      buffers := dups;
      ghost var out := set d | d in dups;
      HoldsWithDups(gralloc.View(), base, pending, out);
      gralloc.fds := gralloc.fds + out;
      FreeBuffers(base.(fds := base.fds + out), pending);
      HoldsAll(base, base.(fds := base.fds + out), gralloc.View(), pending, dups);
    }

    /** The allocation loop: all buffers are pending, or those made so far have been freed. */
    method MakeAll(format: Format, attempts: seq<Attempt>) returns (err: int, stride: nat, pending: seq<Made>)
      requires FreshAttempts(gralloc.View(), attempts)
      modifies gralloc
      ensures err == 0 ==> RequestSucceeds(format, attempts, stride) && |pending| == |attempts|
                           && InProgress(old(gralloc.View()), gralloc.View(), attempts, pending)
      ensures err != 0 ==> !Succeeds(format, attempts) && ErrorFits(format, attempts, |pending|, err)
                           && MadeBy(attempts, pending)
                           && RestoredExceptStranded(old(gralloc.View()), gralloc.View(), pending, [])
    {
      ghost var base := gralloc.View();
      stride, pending := 0, [];
      HoldsNone(base);
      var i := 0;
      while i < |attempts|
        invariant 0 <= i == |pending| <= |attempts|
        invariant InProgress(base, gralloc.View(), attempts, pending)
        invariant RequestSucceeds(format, attempts[..i], stride)
      {
        ghost var before := gralloc.View();
        var tmpStride;
        err, tmpStride := AllocateOneBuffer(format, attempts[i]);
        if err != 0 {
          AttemptFails(format, attempts, i, stride, err);
          Abandon(base, attempts, pending);
          return;
        }
        ProgressStep(base, before, attempts, pending, attempts[i].made);
        pending := pending + [attempts[i].made];
        if stride == 0 {
          SameStride(format, attempts, pending, i, stride, tmpStride);
          stride := tmpStride;
        } else if stride != tmpStride {
          StrideDiffers(format, attempts, pending, i, stride, tmpStride);
          Abandon(base, attempts, pending);
          err := UNKNOWN_ERROR;
          return;
        } else {
          SameStride(format, attempts, pending, i, stride, tmpStride);
        }
        i := i + 1;
      }
      assert attempts[..i] == attempts;
      err := 0;
    }

    /** `attempts` is one per requested buffer, `dups` the descriptors duplicated for the
        client, and `made` the buffers that were created on the way. */
    method Allocate(format: Format, attempts: seq<Attempt>, dups: seq<int>)
      returns (err: int, stride: nat, buffers: seq<int>, ghost made: seq<Made>)
      requires FreshAttempts(gralloc.View(), attempts)
      requires |dups| == |attempts|
      requires forall i | 0 <= i < |attempts| && attempts[i].Yields? :: attempts[i].made.fd !in dups
      modifies gralloc
      ensures err == 0 ==> RequestSucceeds(format, attempts, stride) && buffers == dups && |made| == |attempts|
      ensures err != 0 ==> !Succeeds(format, attempts) && ErrorFits(format, attempts, |made|, err) && buffers == []
      ensures MadeBy(attempts, made)
      ensures RestoredExceptStranded(old(gralloc.View()), gralloc.View(), made, buffers)
    {
      ghost var base := gralloc.View();
      var pending;
      buffers := [];
      err, stride, pending := MakeAll(format, attempts);
      made := pending;
      if err != 0 {
        return;
      }
      buffers := HandOut(base, attempts, pending, dups);
    }
  }
}
