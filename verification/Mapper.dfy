/**
  The mapper service: imports and frees handles of other processes, and locks and unlocks
  buffers for the CPU.
 */
module Mapper {
  import opened Wrappers
  import opened BoLock
  import opened Gralloc

  datatype Error = Ok | BadBuffer | BadValue | NoResources | Unsupported

  /** A clone of a native handle: its own memory and its own duplicates of the descriptors. */
  datatype Clone = Clone(handle: Handle, descriptors: set<int>)

  function Import(r: Registry, raw: bool, clone: Option<Clone>, imported: Option<BoId>): (Registry, Error) {
    if !raw then (r, BadBuffer)
    else if clone.None? then (r, NoResources)
    else
      var (r1, err) := Register(r, clone.value.handle, imported);
      if err != 0 then (r, NoResources) else (r1.(fds := r1.fds + clone.value.descriptors), Ok)
  }

  function FreeClone(r: Registry, c: Clone): Registry {
    var r1 := Free(r, c.handle.address);
    r1.(fds := r1.fds - c.descriptors)
  }

  /** The usage reaches the lock through a signed 32-bit integer. */
  function LockUsage(cpuUsage: Usage): Usage {
    SignExtend(Truncate(cpuUsage))
  }

  class MapperService {
    const gralloc: GbmGralloc

    constructor (gralloc: GbmGralloc)
      ensures this.gralloc == gralloc
    {
      this.gralloc := gralloc;
    }

    method ImportBuffer(raw: bool, clone: Option<Clone>, imported: Option<BoId>) returns (err: Error, buffer: Option<Clone>)
      requires clone.Some? ==> clone.value.handle.address != 0 && clone.value.descriptors !! gralloc.View().fds
      modifies gralloc
      ensures (gralloc.View(), err) == Import(old(gralloc.View()), raw, clone, imported)
      ensures buffer == if err == Ok then clone else None
    {
      if !raw {
        return BadBuffer, None;
      }
      if clone.None? {
        var nullHandle := Handle(0, -1, 0, 0, OtherFormat(0), 0);
        var failed := gralloc.GbmRegister(nullHandle, imported);
        return NoResources, None;
      }
      ghost var before := gralloc.fds;
      gralloc.fds := gralloc.fds + clone.value.descriptors;
      var result := gralloc.GbmRegister(clone.value.handle, imported);
      if result != 0 {
        gralloc.fds := gralloc.fds - clone.value.descriptors;
        assert gralloc.fds == before;
        return NoResources, None;
      }
      return Ok, clone;
    }

    method FreeBuffer(buffer: Option<Clone>) returns (err: Error)
      modifies gralloc
      ensures err == if buffer.None? then BadBuffer else Ok
      ensures gralloc.View() == if buffer.None? then old(gralloc.View()) else FreeClone(old(gralloc.View()), buffer.value)
    {
      if buffer.None? {
        return BadBuffer;
      }
      gralloc.GbmFree(buffer.value.handle.address);
      gralloc.fds := gralloc.fds - buffer.value.descriptors;
      return Ok;
    }

    /** `fence` is the error of taking over the acquire fence, if any. */
    method LockBuffer(buffer: Option<Handle>, cpuUsage: Usage, fence: Option<Error>, mapOk: bool) returns (err: Error)
      requires fence.Some? ==> fence.value != Ok
      modifies gralloc
      ensures buffer.None? ==> err == BadBuffer
      ensures buffer.Some? && fence.Some? ==> err == fence.value
      ensures buffer.None? || fence.Some? ==> gralloc.View() == old(gralloc.View())
      ensures buffer.Some? && fence.None? ==>
        var (r, code) := LockHandle(old(gralloc.View()), buffer.value, LockUsage(cpuUsage), mapOk);
        gralloc.View() == r && err == if code == 0 then Ok else Unsupported
    {
      if buffer.None? {
        return BadBuffer;
      }
      if fence.Some? {
        return fence.value;
      }
      var result := gralloc.GbmLock(buffer.value, LockUsage(cpuUsage), mapOk);
      return if result != 0 then Unsupported else Ok;
    }

    method UnlockBuffer(buffer: Option<Handle>) returns (err: Error)
      requires buffer.Some? ==> !UnlockFaults(gralloc.View(), buffer.value.address)
      modifies gralloc
      ensures buffer.None? ==> err == BadBuffer && gralloc.View() == old(gralloc.View())
      ensures buffer.Some? ==>
        var (r, code) := UnlockHandle(old(gralloc.View()), buffer.value.address);
        gralloc.View() == r && err == if code == 0 then Ok else Unsupported
    {
      if buffer.None? {
        return BadBuffer;
      }
      var result := gralloc.GbmUnlock(buffer.value.address);
      return if result != 0 then Unsupported else Ok;
    }

    /** Flushing is another unlock. */
    method FlushLockedBuffer(buffer: Option<Handle>) returns (err: Error)
      requires buffer.Some? ==> !UnlockFaults(gralloc.View(), buffer.value.address)
      modifies gralloc
      ensures buffer.None? ==> err == BadBuffer && gralloc.View() == old(gralloc.View())
      ensures buffer.Some? ==>
        var (r, code) := UnlockHandle(old(gralloc.View()), buffer.value.address);
        gralloc.View() == r && err == if code == 0 then Ok else Unsupported
    {
      if buffer.None? {
        return BadBuffer;
      }
      var result := gralloc.GbmUnlock(buffer.value.address);
      return if result != 0 then Unsupported else Ok;
    }
  }

  /** The usage that a lock asks for: the low 32 bits of the client's, with bit 31 copied into all
      bits above. */
  lemma LockUsageBits(cpuUsage: Usage)
    ensures LockUsage(cpuUsage) & 0xFFFF_FFFF == cpuUsage & 0xFFFF_FFFF
    ensures LockUsage(cpuUsage) >> 32 == if cpuUsage & 0x8000_0000 == 0 then 0 else 0xFFFF_FFFF
  {
  }

  /** So a client's lock is for the CPU exactly if it has one of the bits 0x66. */
  lemma LockUsageForCpu(cpuUsage: Usage)
    ensures ForCpu(LockUsage(cpuUsage)) <==> cpuUsage & 0x66 != 0
  {
    CpuBitsSurvive(cpuUsage);
  }

  /** An import succeeds exactly when the clone was made, its address has no entry, stale ones
      included, its descriptor is valid and the driver imports it; a failed one changes nothing,
      descriptors included, and a successful one enters the new object and opens the clone's
      descriptors. */
  lemma ImportSucceedsIff(r: Registry, raw: bool, clone: Option<Clone>, imported: Option<BoId>)
    ensures Import(r, raw, clone, imported).1 == Ok <==>
      raw && clone.Some? && imported.Some? && clone.value.handle.address != 0
      && clone.value.handle.address !in r.handles && clone.value.handle.fd >= 0
    ensures Import(r, raw, clone, imported).1 != Ok ==> Import(r, raw, clone, imported).0 == r
    ensures Import(r, raw, clone, imported).1 == Ok ==>
      var r', c := Import(r, raw, clone, imported).0, clone.value;
      && r'.handles == r.handles[c.handle.address := imported]
      && r'.live == r.live + {imported.value} && r'.fds == r.fds + c.descriptors
      && r'.data == r.data && r'.destroyed == r.destroyed
  {
  }

  /** Importing and then freeing restores entries, lock data, live objects and descriptors. */
  lemma ImportThenFree(r: Registry, c: Clone, bo: BoId)
    requires r.Valid() && bo !in r.live + r.destroyed && c.descriptors !! r.fds
    requires Import(r, true, Some(c), Some(bo)).1 == Ok
    ensures FreeClone(Import(r, true, Some(c), Some(bo)).0, c) == r.(destroyed := r.destroyed + {bo})
  {
    var r1 := Import(r, true, Some(c), Some(bo)).0;
    assert r1.handles - {c.handle.address} == r.handles;
    assert r.data - {bo} == r.data;
  }

  /** Unlocking or flushing an imported buffer before any lock reads through a null pointer. */
  lemma UnlockAfterImportFaults(r: Registry, c: Clone, bo: BoId)
    requires r.Valid() && bo !in r.live + r.destroyed
    requires Import(r, true, Some(c), Some(bo)).1 == Ok
    ensures UnlockFaults(Import(r, true, Some(c), Some(bo)).0, c.handle.address)
  {
  }

  /** After a free, a clone at the same address can be imported exactly if the freed handle was
      registered: freeing an unknown one succeeds, but leaves an entry that refuses the import. */
  lemma FreeOfUnknownPoisonsAddress(r: Registry, c: Clone, next: Clone, bo: BoId)
    requires next.handle.address == c.handle.address != 0 && next.handle.fd >= 0
    ensures Import(FreeClone(r, c), true, Some(next), Some(bo)).1 == Ok <==> r.Known(c.handle.address)
    ensures FreeClone(r, c).fds == r.fds - c.descriptors
  {
  }

  /** After one lock, a flush gives the lock back, and the unlock that follows finds none. */
  lemma FlushThenUnlockIsFlush(r: Registry, h: Handle, usage: Usage, mapOk: bool)
    requires r.Valid() && r.Known(h.address) && LockHandle(r, h, usage, mapOk).1 == 0
    requires DataOf(r, r.handles[h.address].value).lockCount == 0
    ensures var locked := LockHandle(r, h, usage, mapOk).0;
      && !UnlockFaults(locked, h.address)
      && var flushed := UnlockHandle(locked, h.address).0;
         && !UnlockFaults(flushed, h.address)
         && flushed.data[r.handles[h.address].value] == FreshData
         && UnlockHandle(flushed, h.address) == (flushed, 0)
  {
    var d := DataOf(r, r.handles[h.address].value);
    ZeroIsNeutral(0);
    UnlockUndoesLock(d, usage, mapOk);
    UnlockedIsFresh(d);
    var flushed := UnlockHandle(LockHandle(r, h, usage, mapOk).0, h.address).0;
    assert flushed.data[r.handles[h.address].value := FreshData] == flushed.data;
  }
}
