/**
  The gralloc buffer registry: which native handle stands for which buffer object,
  which objects are alive, and the lock state of each.

  A look-up of an unknown handle leaves an empty entry behind, as the source's map does.
 */
module Gralloc {
  import opened Wrappers
  import opened BoLock

  /** The address of a native handle; 0 is the null pointer. */
  type Address = nat
  type BoId = nat

  datatype Format =
    | Rgba8888 | Rgbx8888 | Bgra8888 | Rgb565 | Blob
    | YCbCr420Flexible | ImplementationDefined | YCrCb420Sp | Yv12
    | YCbCr422Sp | YCbCr422I
    | OtherFormat(code: int)

  datatype Handle = Handle(address: Address, fd: int, width: nat, height: nat, format: Format, usage: Usage)

  const CPU_READ_OFTEN: Usage := 0x6
  const GPU_TEXTURE: Usage := 0x100
  const CLIENT_TARGET: Usage := 0x1000

  function BytesPerPixel(format: Format): nat {
    match format
    case Rgba8888 => 4
    case Rgbx8888 => 4
    case Bgra8888 => 4
    case Rgb565 => 2
    case YCbCr422I => 2
    case YCbCr420Flexible => 2
    case ImplementationDefined => 2
    case Yv12 => 1
    case YCbCr422Sp => 1
    case YCrCb420Sp => 1
    case Blob => 1
    case OtherFormat(_) => 0
  }

  /** `handles` is the map of the source; `live`, `destroyed` and `fds` are what the driver and
      the kernel know: objects that exist, objects that were destroyed, open descriptors. */
  datatype Registry = Registry(
    handles: map<Address, Option<BoId>>,
    data: map<BoId, BoData>,
    live: set<BoId>,
    destroyed: set<BoId>,
    fds: set<int>)
  {
    predicate Known(a: Address) {
      a in handles && handles[a].Some?
    }

    /** Every non-null value is a live object, and each object has one handle. */
    predicate Sound() {
      && (forall a | a in handles && handles[a].Some? :: handles[a].value in live)
      && (forall a, b | a in handles && b in handles && handles[a].Some? && handles[a] == handles[b] :: a == b)
    }

    /** Every live object has a handle. */
    predicate Complete() {
      forall b | b in live :: exists a :: a in handles && handles[a] == Some(b)
    }

    /** The non-null values are the live objects, one handle each. */
    predicate Exact() {
      Sound() && Complete()
    }

    predicate Valid() {
      && live !! destroyed
      && data.Keys <= live
      && forall b | b in data :: data[b].Valid()
    }
  }

  function Lookup(r: Registry, a: Address): Registry {
    if a in r.handles then r else r.(handles := r.handles[a := None])
  }

  function Free(r: Registry, a: Address): Registry {
    if !r.Known(a) then Lookup(r, a)
    else
      var b := r.handles[a].value;
      r.(handles := r.handles - {a}, data := r.data - {b}, live := r.live - {b}, destroyed := r.destroyed + {b})
  }

  /** `import` is the object the driver makes of the handle's descriptor, if it does. */
  function Register(r: Registry, h: Handle, imported: Option<BoId>): (Registry, int) {
    if h.address == 0 || h.address in r.handles || h.fd < 0 || imported.None? then (r, -EINVAL)
    else (r.(handles := r.handles[h.address := imported], live := r.live + {imported.value}), 0)
  }

  /** A created object is entered only if its handle has no entry yet. */
  function Create(r: Registry, a: Address, bo: BoId, fd: int): Registry {
    r.(handles := if a in r.handles then r.handles else r.handles[a := Some(bo)],
       live := r.live + {bo}, fds := r.fds + {fd})
  }

  /** A handle made for usages `have` is locked for `usage`. */
  predicate Admits(have: Usage, usage: Usage) {
    have & usage == usage || have & CPU_READ_OFTEN != 0 || have & CLIENT_TARGET != 0 || have & GPU_TEXTURE != 0
  }

  predicate UsageAllowed(h: Handle, usage: Usage) {
    Admits(h.usage, usage)
  }

  function DataOf(r: Registry, b: BoId): BoData {
    if b in r.data then r.data[b] else FreshData
  }

  function LockHandle(r: Registry, h: Handle, usage: Usage, mapOk: bool): (Registry, int) {
    var r1 := Lookup(r, h.address);
    if !r.Known(h.address) || !UsageAllowed(h, usage) then (r1, -EINVAL)
    else
      var b := r.handles[h.address].value;
      var (d, err) := Lock(DataOf(r, b), usage, mapOk);
      (r1.(data := r1.data[b := d]), err)
  }

  predicate YcbcrFormat(f: Format) {
    f.YCbCr420Flexible? || f.ImplementationDefined? || f.YCrCb420Sp? || f.Yv12?
  }

  /** The format is looked at only after the lock is taken. */
  function LockYcbcr(r: Registry, h: Handle, usage: Usage, mapOk: bool): (Registry, int) {
    var (r1, err) := LockHandle(r, h, usage, mapOk);
    (r1, if err != 0 then err else if YcbcrFormat(h.format) then 0 else -EINVAL)
  }

  /** Unlocking an object that no lock ever reached reads through a null pointer. */
  predicate UnlockFaults(r: Registry, a: Address) {
    r.Known(a) && r.handles[a].value !in r.data
  }

  function UnlockHandle(r: Registry, a: Address): (Registry, int)
    requires !UnlockFaults(r, a)
  {
    if !r.Known(a) then (Lookup(r, a), -EINVAL)
    else
      var b := r.handles[a].value;
      (r.(data := r.data[b := Unlock(r.data[b])]), 0)
  }

  // -------------------------------------------------- the registry as an object

  class GbmGralloc {
    var handleMap: map<Address, Option<BoId>>
    var boData: map<BoId, BoData>
    ghost var live: set<BoId>
    ghost var destroyed: set<BoId>
    ghost var fds: set<int>

    ghost function View(): Registry
      reads this
    {
      Registry(handleMap, boData, live, destroyed, fds)
    }

    constructor ()
      ensures View() == Registry(map[], map[], {}, {}, {})
    {
      handleMap, boData := map[], map[];
      live, destroyed, fds := {}, {}, {};
    }

    method BoFromHandle(a: Address) returns (bo: Option<BoId>)
      modifies this`handleMap
      ensures View() == Lookup(old(View()), a)
      ensures bo == if old(View()).Known(a) then old(View()).handles[a] else None
    {
      if a !in handleMap {
        handleMap := handleMap[a := None];
      }
      return handleMap[a];
    }

    method GbmFree(a: Address)
      modifies this
      ensures View() == Free(old(View()), a)
    {
      var bo := BoFromHandle(a);
      if bo.None? {
        return;
      }
      handleMap := handleMap - {a};
      boData := boData - {bo.value};
      live, destroyed := live - {bo.value}, destroyed + {bo.value};
    }

    method GbmRegister(h: Handle, imported: Option<BoId>) returns (err: int)
      modifies this
      ensures (View(), err) == Register(old(View()), h, imported)
    {
      if h.address == 0 {
        return -EINVAL;
      }
      if h.address in handleMap {
        return -EINVAL;
      }
      if h.fd < 0 || imported.None? {
        return -EINVAL;
      }
      handleMap := handleMap[h.address := imported];
      live := live + {imported.value};
      return 0;
    }

    /** `made` is the object and the descriptor the driver creates, if it does; the byte
        stride becomes a stride in pixels. */
    method BoCreate(a: Address, format: Format, made: Option<(BoId, int)>, byteStride: nat) returns (ok: bool, stride: int)
      requires BytesPerPixel(format) != 0
      modifies this
      ensures ok == made.Some?
      ensures View() == if ok then Create(old(View()), a, made.value.0, made.value.1) else old(View())
      ensures ok ==> stride == byteStride / BytesPerPixel(format)
    {
      if made.None? {
        return false, 0;
      }
      fds := fds + {made.value.1};
      live := live + {made.value.0};
      if a !in handleMap {
        handleMap := handleMap[a := Some(made.value.0)];
      }
      return true, byteStride / BytesPerPixel(format);
    }

    method CheckUsage(h: Handle, usage: Usage) returns (allowed: bool)
      ensures allowed == UsageAllowed(h, usage)
    {
      if h.usage & usage != usage {
        if h.usage & CPU_READ_OFTEN == 0 && h.usage & CLIENT_TARGET == 0 && h.usage & GPU_TEXTURE == 0 {
          return false;
        }
      }
      return true;
    }

    method GbmLock(h: Handle, usage: Usage, mapOk: bool) returns (err: int)
      modifies this
      ensures (View(), err) == LockHandle(old(View()), h, usage, mapOk)
    {
      var bo := BoFromHandle(h.address);
      if bo.None? {
        return -EINVAL;
      }
      var allowed := CheckUsage(h, usage);
      if !allowed {
        return -EINVAL;
      }
      if bo.value !in boData {
        boData := boData[bo.value := FreshData];
      }
      var d := boData[bo.value];
      err := LockData(bo.value, d, usage, mapOk);
      assert boData == old(boData)[bo.value := Lock(d, usage, mapOk).0];
    }

    /** The part of a lock that works on the object's own data. */
    method LockData(b: BoId, d: BoData, usage: Usage, mapOk: bool) returns (err: int)
      requires b in boData && boData[b] == d
      modifies this`boData
      ensures err == Lock(d, usage, mapOk).1
      ensures boData == old(boData)[b := Lock(d, usage, mapOk).0]
    {
      assert boData[b := d] == boData;
      if d.lockCount != 0 && !Compatible(d.lockedFor, usage) {
        return -EINVAL;
      }
      var all := AllUsages(d, usage);
      var mapped := d.mapped;
      if ForCpu(all) {
        if d.mapped {
          return -EINVAL;
        }
        if !mapOk {
          return -ENOMEM;
        }
        mapped := true;
      }
      boData := boData[b := BoData(mapped, d.lockCount + 1, StoredUsages(d, usage))];
      return 0;
    }

    method GbmUnlock(a: Address) returns (err: int)
      requires !UnlockFaults(View(), a)
      modifies this
      ensures (View(), err) == UnlockHandle(old(View()), a)
    {
      var bo := BoFromHandle(a);
      if bo.None? {
        return -EINVAL;
      }
      var d := boData[bo.value];
      assert boData[bo.value := d] == boData;
      if d.lockCount == 0 {
        return 0;
      }
      if d.CpuLocked() {
        d := d.(mapped := false);
      }
      d := d.(lockCount := d.lockCount - 1);
      if d.lockCount == 0 {
        d := d.(lockedFor := 0);
      }
      boData := boData[bo.value := d];
      return 0;
    }
  }

  // -------------------------------------------------- what the operations keep

  /** Entries that name live objects before do so after, the objects in question excepted. */
  lemma StaysComplete(r: Registry, r': Registry, gone: set<BoId>, come: set<BoId>)
    requires r.Complete() && r'.live <= r.live - gone + come
    requires forall a | a in r.handles && r.handles[a].Some? && r.handles[a].value !in gone ::
               a in r'.handles && r'.handles[a] == r.handles[a]
    requires forall b | b in come :: exists a :: a in r'.handles && r'.handles[a] == Some(b)
    ensures r'.Complete()
  {
    forall b | b in r'.live ensures exists a :: a in r'.handles && r'.handles[a] == Some(b) {
      if b !in come {
        var a :| a in r.handles && r.handles[a] == Some(b);
        assert r'.handles[a] == Some(b);
      }
    }
  }

  lemma LookupKeeps(r: Registry, a: Address)
    requires r.Valid() && r.Sound()
    ensures Lookup(r, a).Valid() && Lookup(r, a).Sound()
    ensures r.Complete() ==> Lookup(r, a).Complete()
  {
    if r.Complete() {
      StaysComplete(r, Lookup(r, a), {}, {});
    }
  }

  lemma FreeKeeps(r: Registry, a: Address)
    requires r.Valid() && r.Sound()
    ensures Free(r, a).Valid() && Free(r, a).Sound()
    ensures r.Complete() ==> Free(r, a).Complete()
  {
    LookupKeeps(r, a);
    if r.Known(a) && r.Complete() {
      StaysComplete(r, Free(r, a), {r.handles[a].value}, {});
    }
  }

  lemma EnterKeeps(r: Registry, r': Registry, a: Address, b: BoId)
    requires r.Sound() && a !in r.handles && b !in r.live
    requires r'.handles == r.handles[a := Some(b)] && r'.live == r.live + {b}
    ensures r'.Sound() && (r.Complete() ==> r'.Complete())
  {
    if r.Complete() {
      assert r'.handles[a] == Some(b);
      StaysComplete(r, r', {}, {b});
    }
  }

  lemma RegisterKeeps(r: Registry, h: Handle, imported: Option<BoId>)
    requires r.Valid() && r.Sound()
    requires imported.Some? ==> imported.value !in r.live + r.destroyed
    ensures var r' := Register(r, h, imported).0;
      r'.Valid() && r'.Sound() && (r.Complete() ==> r'.Complete())
  {
    if Register(r, h, imported).1 == 0 {
      EnterKeeps(r, Register(r, h, imported).0, h.address, imported.value);
    }
  }

  lemma CreateKeepsSound(r: Registry, a: Address, bo: BoId, fd: int)
    requires r.Valid() && r.Sound() && bo !in r.live + r.destroyed
    ensures Create(r, a, bo, fd).Valid() && Create(r, a, bo, fd).Sound()
    ensures a !in r.handles && r.Complete() ==> Create(r, a, bo, fd).Complete()
  {
    if a !in r.handles {
      EnterKeeps(r, Create(r, a, bo, fd), a, bo);
    }
  }

  /** Creating keeps "exactly the live objects are entered" if and only if the new handle's
      address has no entry; a stale empty entry makes the object unreachable for good. */
  lemma CreateKeepsExactIff(r: Registry, a: Address, bo: BoId, fd: int)
    requires r.Valid() && r.Exact() && bo !in r.live + r.destroyed
    ensures Create(r, a, bo, fd).Valid()
    ensures Create(r, a, bo, fd).Exact() <==> a !in r.handles
  {
    CreateKeepsSound(r, a, bo, fd);
    assert forall x | x in r.handles && r.handles[x].Some? :: r.handles[x].value != bo;
  }

  /** A concrete stale entry: freeing a handle that was never registered leaves one, and a
      buffer created at that address is alive but in no entry, so no free can destroy it. */
  lemma StaleEntryLeaks(a: Address, bo: BoId, fd: int, frees: seq<Address>)
    ensures var empty := Registry(map[], map[], {}, {}, {});
      var r := Create(Free(empty, a), a, bo, fd);
      !r.Exact() && bo in FreeAll(r, frees).live
  {
    var empty := Registry(map[], map[], {}, {}, {});
    var r := Create(Free(empty, a), a, bo, fd);
    if r.Exact() {
      var x :| x in r.handles && r.handles[x] == Some(bo);
    }
    FreeAllWithoutEntry(r, frees, bo);
  }

  function FreeAll(r: Registry, frees: seq<Address>): Registry {
    if frees == [] then r else Free(FreeAll(r, frees[..|frees| - 1]), frees[|frees| - 1])
  }

  lemma {:induction false} FreeAllWithoutEntry(r: Registry, frees: seq<Address>, bo: BoId)
    requires bo in r.live && forall x | x in r.handles :: r.handles[x] != Some(bo)
    ensures bo in FreeAll(r, frees).live
    ensures forall x | x in FreeAll(r, frees).handles :: FreeAll(r, frees).handles[x] != Some(bo)
    decreases |frees|
  {
    if frees != [] {
      FreeAllWithoutEntry(r, frees[..|frees| - 1], bo);
    }
  }

  lemma DataKeeps(r: Registry, b: BoId, d: BoData)
    requires r.Valid() && r.Sound() && b in r.live && d.Valid()
    ensures var r' := r.(data := r.data[b := d]);
      r'.Valid() && r'.Sound() && (r.Complete() ==> r'.Complete())
  {
    if r.Complete() {
      StaysComplete(r, r.(data := r.data[b := d]), {}, {});
    }
  }

  lemma LockKeeps(r: Registry, h: Handle, usage: Usage, mapOk: bool)
    requires r.Valid() && r.Sound()
    ensures var r' := LockHandle(r, h, usage, mapOk).0;
      r'.Valid() && r'.Sound() && (r.Complete() ==> r'.Complete())
  {
    LookupKeeps(r, h.address);
    if r.Known(h.address) && UsageAllowed(h, usage) {
      var b := r.handles[h.address].value;
      var d := DataOf(r, b);
      assert d.Valid() by {
        ZeroIsNeutral(0);
      }
      LockKeepsValid(d, usage, mapOk);
      DataKeeps(Lookup(r, h.address), b, Lock(d, usage, mapOk).0);
    }
  }

  lemma UnlockKeeps(r: Registry, a: Address)
    requires r.Valid() && r.Sound() && !UnlockFaults(r, a)
    ensures var r' := UnlockHandle(r, a).0;
      r'.Valid() && r'.Sound() && (r.Complete() ==> r'.Complete())
  {
    LookupKeeps(r, a);
    if r.Known(a) {
      UnlockKeepsValid(r.data[r.handles[a].value]);
      DataKeeps(r, r.handles[a].value, Unlock(r.data[r.handles[a].value]));
    }
  }

  // -------------------------------------------------- locks and unlocks by handle

  /** A handle admits the usages it was made for; one made for frequent CPU reading, as a client
      target or as a texture admits every usage. */
  lemma AdmittedBits(have: Usage, usage: Usage)
    ensures Admits(have, usage) <==>
      have & usage == usage || have & 0x6 != 0 || have & 0x1000 != 0 || have & 0x100 != 0
  {
  }

  /** `r'` is `r` with the data of `b` set to `d`. */
  predicate OnlyDataOf(r: Registry, r': Registry, b: BoId, d: BoData) {
    && r'.data.Keys == r.data.Keys + {b} && r'.data[b] == d
    && forall c | c in r.data && c != b :: r'.data[c] == r.data[c]
  }

  /** A lock by handle: refused for an unknown handle, which then has an entry, and for a usage
      that is not admitted; otherwise it works on the data of the handle's object alone, for the
      usage asked for.  The first needs a mapping exactly for a CPU usage; a further one needs an
      object that is not mapped and a usage that is covered. */
  lemma LockByHandle(r: Registry, h: Handle, usage: Usage, mapOk: bool)
    requires r.Valid()
    ensures var (r', err) := LockHandle(r, h, usage, mapOk);
      && r'.live == r.live && r'.destroyed == r.destroyed && r'.fds == r.fds
      && r'.handles == (if h.address in r.handles then r.handles else r.handles[h.address := None])
      && if !r.Known(h.address) || !UsageAllowed(h, usage) then err == -EINVAL && r'.data == r.data
         else
           var b := r.handles[h.address].value; var d := DataOf(r, b);
           b in r'.data && OnlyDataOf(r, r', b, r'.data[b])
           && (r'.data[b], err) ==
                if d.lockCount == 0 then
                  if ForCpu(usage) && !mapOk then (d, -ENOMEM) else (BoData(ForCpu(usage), 1, Truncate(usage)), 0)
                else if d.mapped || !Compatible(d.lockedFor, usage) then (d, -EINVAL)
                else (d.(lockCount := d.lockCount + 1), 0)
  {
    if r.Known(h.address) {
      ZeroIsNeutral(0);
      LockIsDecided(DataOf(r, r.handles[h.address].value), usage, mapOk);
    }
  }

  /** An unlock by handle: refused for an unknown handle; otherwise the object, if it is locked,
      loses one lock and its mapping, and with the last lock the usages. */
  lemma UnlockByHandle(r: Registry, a: Address)
    requires r.Valid() && !UnlockFaults(r, a)
    ensures var (r', err) := UnlockHandle(r, a);
      && r'.live == r.live && r'.destroyed == r.destroyed && r'.fds == r.fds
      && r'.handles == (if a in r.handles then r.handles else r.handles[a := None])
      && if !r.Known(a) then err == -EINVAL && r'.data == r.data
         else
           var b := r.handles[a].value; var d := r.data[b];
           err == 0 && OnlyDataOf(r, r', b, if d.lockCount == 0 then d
                                            else BoData(false, d.lockCount - 1, if d.lockCount == 1 then 0 else d.lockedFor))
  {
    if r.Known(a) {
      UnlockUnmapsExactlyTheMapped(r.data[r.handles[a].value]);
    }
  }

  /** A look-up of an unknown handle makes every later registration of it fail. */
  lemma LookupPoisonsRegistration(r: Registry, h: Handle, imported: Option<BoId>)
    requires h.address !in r.handles
    ensures Register(Lookup(r, h.address), h, imported) == (Lookup(r, h.address), -EINVAL)
    ensures Register(Free(r, h.address), h, imported) == (Free(r, h.address), -EINVAL)
  {
  }

  /** A ycbcr lock does to the registry what a lock does, passes its error on, and otherwise
      succeeds for exactly the four 4:2:0 formats. */
  lemma YcbcrLockByHandle(r: Registry, h: Handle, usage: Usage, mapOk: bool)
    ensures var (r', err) := LockYcbcr(r, h, usage, mapOk); var (locked, code) := LockHandle(r, h, usage, mapOk);
      && r' == locked
      && (code != 0 ==> err == code)
      && (code == 0 ==>
            err == if h.format in {YCbCr420Flexible, ImplementationDefined, YCrCb420Sp, Yv12} then 0 else -EINVAL)
  {
  }

  /** A ycbcr lock that reports an error has still taken the lock exactly when the format is
      the only thing wrong; then one unlock gives it back. */
  lemma YcbcrErrorKeepsLockIff(r: Registry, h: Handle, usage: Usage, mapOk: bool)
    requires r.Valid() && r.Known(h.address) && LockYcbcr(r, h, usage, mapOk).1 != 0
    ensures var b := r.handles[h.address].value; var r' := LockYcbcr(r, h, usage, mapOk).0;
      DataOf(r', b).lockCount != DataOf(r, b).lockCount
      <==> LockHandle(r, h, usage, mapOk).1 == 0 && !YcbcrFormat(h.format)
    ensures LockHandle(r, h, usage, mapOk).1 == 0 ==>
      var r' := LockYcbcr(r, h, usage, mapOk).0; var b := r.handles[h.address].value;
      !UnlockFaults(r', h.address) && DataOf(UnlockHandle(r', h.address).0, b) == DataOf(r, b)
  {
    var d := DataOf(r, r.handles[h.address].value);
    ZeroIsNeutral(0);
    if LockHandle(r, h, usage, mapOk).1 == 0 {
      UnlockUndoesLock(d, usage, mapOk);
    }
  }

  // -------------------------------------------------- runs

  datatype Call =
    | RegisterCall(h: Handle, imported: Option<BoId>)
    | CreateCall(a: Address, bo: BoId, fd: int)
    | FreeCall(a: Address)
    | LookupCall(a: Address)
    | LockCall(h: Handle, usage: Usage, mapOk: bool)
    | YcbcrCall(h: Handle, usage: Usage, mapOk: bool)
    | UnlockCall(a: Address)

  function Apply(r: Registry, c: Call): Registry {
    match c
    case RegisterCall(h, imported) => Register(r, h, imported).0
    case CreateCall(a, bo, fd) => Create(r, a, bo, fd)
    case FreeCall(a) => Free(r, a)
    case LookupCall(a) => Lookup(r, a)
    case LockCall(h, usage, mapOk) => LockHandle(r, h, usage, mapOk).0
    case YcbcrCall(h, usage, mapOk) => LockYcbcr(r, h, usage, mapOk).0
    case UnlockCall(a) => if UnlockFaults(r, a) then r else UnlockHandle(r, a).0
  }

  /** The driver hands out new objects only, and nobody unlocks what no lock ever reached. */
  predicate Proper(r: Registry, c: Call) {
    match c
    case RegisterCall(_, imported) => imported.Some? ==> imported.value !in r.live + r.destroyed
    case CreateCall(_, bo, _) => bo !in r.live + r.destroyed
    case UnlockCall(a) => !UnlockFaults(r, a)
    case _ => true
  }

  predicate Stale(r: Registry, c: Call) {
    c.CreateCall? && c.a in r.handles
  }

  ghost predicate IsRun(calls: seq<Call>, states: seq<Registry>) {
    && |states| == |calls| + 1
    && states[0] == Registry(map[], map[], {}, {}, {})
    && (forall k | 0 <= k < |calls| :: IsStep(calls, states, k))
  }

  ghost predicate IsStep(calls: seq<Call>, states: seq<Registry>, k: nat)
    requires k < |calls| && |states| == |calls| + 1
  {
    Proper(states[k], calls[k]) && states[k + 1] == Apply(states[k], calls[k])
  }

  /** Some live object is in no entry. */
  ghost predicate Leaked(r: Registry) {
    exists b :: b in r.live && LeakedObject(r, b)
  }

  predicate LeakedObject(r: Registry, b: BoId) {
    forall a | a in r.handles :: r.handles[a] != Some(b)
  }

  lemma StepKeepsSound(r: Registry, c: Call)
    requires r.Valid() && r.Sound() && Proper(r, c)
    ensures Apply(r, c).Valid() && Apply(r, c).Sound()
    ensures r.Complete() && !Stale(r, c) ==> Apply(r, c).Complete()
  {
    match c {
      case RegisterCall(h, imported) => RegisterKeeps(r, h, imported);
      case CreateCall(a, bo, fd) => CreateKeepsSound(r, a, bo, fd);
      case FreeCall(a) => FreeKeeps(r, a);
      case LookupCall(a) => LookupKeeps(r, a);
      case LockCall(h, usage, mapOk) => LockKeeps(r, h, usage, mapOk);
      case YcbcrCall(h, usage, mapOk) => LockKeeps(r, h, usage, mapOk);
      case UnlockCall(a) => UnlockKeeps(r, a);
    }
  }

  /** In every run, stale creations included, the lock invariants hold, every entered object is
      alive and not destroyed, and it is entered under one address. */
  lemma {:induction false} RunKeepsSound(calls: seq<Call>, states: seq<Registry>, k: nat)
    requires IsRun(calls, states) && k < |states|
    ensures states[k].Valid() && states[k].Sound()
    ensures forall a | states[k].Known(a) :: states[k].handles[a].value !in states[k].destroyed
  {
    if k > 0 {
      RunKeepsSound(calls, states, k - 1);
      assert IsStep(calls, states, k - 1);
      StepKeepsSound(states[k - 1], calls[k - 1]);
    }
  }

  lemma LeakStays(r: Registry, c: Call, b: BoId)
    requires b in r.live && LeakedObject(r, b) && Proper(r, c)
    ensures b in Apply(r, c).live && LeakedObject(Apply(r, c), b)
  {
  }

  lemma LeakIsNotExact(r: Registry, b: BoId)
    requires b in r.live && LeakedObject(r, b)
    ensures !r.Exact() && Leaked(r)
  {
  }

  /** In every run, the entered objects are exactly the live ones at the end if and only if no
      creation met an entry left over at its handle's address; otherwise some live object has no
      entry, while the others keep what every run keeps. */
  lemma {:induction false} RunExactIff(calls: seq<Call>, states: seq<Registry>, k: nat)
    requires IsRun(calls, states) && k < |states|
    ensures states[k].Exact() <==> forall i | 0 <= i < k :: !Stale(states[i], calls[i])
    ensures states[k].Exact() || Leaked(states[k])
  {
    if k > 0 {
      var p := k - 1;
      RunExactIff(calls, states, p);
      RunKeepsSound(calls, states, p);
      assert IsStep(calls, states, p);
      if !states[p].Exact() {
        var b :| b in states[p].live && LeakedObject(states[p], b);
        LeakStays(states[p], calls[p], b);
        LeakIsNotExact(states[k], b);
      } else if Stale(states[p], calls[p]) {
        assert LeakedObject(states[k], calls[p].bo);
        LeakIsNotExact(states[k], calls[p].bo);
      } else {
        StepKeepsSound(states[p], calls[p]);
      }
    }
  }

  // -------------------------------------------------- destruction

  lemma {:induction false} DestroyedStays(calls: seq<Call>, states: seq<Registry>, i: nat, j: nat, b: BoId)
    requires IsRun(calls, states) && i <= j < |states|
    requires b in states[i].destroyed && b !in states[i].live
    ensures b in states[j].destroyed && b !in states[j].live
    decreases j
  {
    if i < j {
      DestroyedStays(calls, states, i, j - 1, b);
      assert IsStep(calls, states, j - 1);
    }
  }

  /** Call `c` makes the driver destroy object `b`. */
  predicate Destroys(r: Registry, c: Call, b: BoId) {
    c.FreeCall? && r.Known(c.a) && r.handles[c.a] == Some(b)
  }

  /** In every run each object is destroyed at most once. */
  lemma DestroyedOnce(calls: seq<Call>, states: seq<Registry>, i: nat, j: nat, b: BoId)
    requires IsRun(calls, states) && i <= j < |calls|
    requires Destroys(states[i], calls[i], b) && Destroys(states[j], calls[j], b)
    ensures i == j
  {
    if i < j {
      assert IsStep(calls, states, i);
      DestroyedStays(calls, states, i + 1, j, b);
      RunKeepsSound(calls, states, j);
    }
  }

  // -------------------------------------------------- unlocking what was never locked

  /** Call `c` is a lock, successful or not, that gets as far as the data of object `b`. */
  predicate Reaches(r: Registry, c: Call, b: BoId) {
    (c.LockCall? || c.YcbcrCall?) && r.Known(c.h.address) && UsageAllowed(c.h, c.usage)
    && r.handles[c.h.address] == Some(b)
  }

  ghost predicate ReachedBefore(calls: seq<Call>, states: seq<Registry>, k: nat, b: BoId)
    requires k <= |calls| && |states| == |calls| + 1
  {
    exists i | 0 <= i < k :: Reaches(states[i], calls[i], b)
  }

  lemma DataStep(r: Registry, c: Call, b: BoId)
    requires r.Valid() && r.Sound() && Proper(r, c)
    ensures var r' := Apply(r, c);
      && (b in r'.data <==> Reaches(r, c, b) || (b in r.data && !Destroys(r, c, b)))
      && (Destroys(r, c, b) ==> b !in r'.live)
      && (b in r'.live ==> b in r.live || b !in r.live + r.destroyed)
      && (b in r.live + r.destroyed ==> b in r'.live + r'.destroyed)
      && (Reaches(r, c, b) ==> b in r.live)
  {
  }

  lemma {:induction false} DataIffReached(calls: seq<Call>, states: seq<Registry>, k: nat, b: BoId)
    requires IsRun(calls, states) && k < |states|
    ensures ReachedBefore(calls, states, k, b) ==> b in states[k].live + states[k].destroyed
    ensures b in states[k].live ==> (b in states[k].data <==> ReachedBefore(calls, states, k, b))
  {
    if k > 0 {
      var p := k - 1;
      DataIffReached(calls, states, p, b);
      RunKeepsSound(calls, states, p);
      assert IsStep(calls, states, p);
      DataStep(states[p], calls[p], b);
      assert ReachedBefore(calls, states, k, b) <==>
        ReachedBefore(calls, states, p, b) || Reaches(states[p], calls[p], b);
    }
  }

  /** The locks and unlocks among the first `k` calls that worked on object `b`. */
  function OpsOn(calls: seq<Call>, states: seq<Registry>, k: nat, b: BoId): seq<BoOp>
    requires k <= |calls| && |states| == |calls| + 1
  {
    if k == 0 then []
    else
      var r, c := states[k - 1], calls[k - 1];
      OpsOn(calls, states, k - 1, b) +
      if Reaches(r, c, b) then [LockOp(c.usage, c.mapOk)]
      else if c.UnlockCall? && r.Known(c.a) && r.handles[c.a] == Some(b) then [UnlockOp]
      else []
  }

  predicate WorksOn(r: Registry, c: Call, b: BoId) {
    Reaches(r, c, b) || (c.UnlockCall? && r.Known(c.a) && r.handles[c.a] == Some(b))
  }

  /** How a call changes the data of an object that is alive after it. */
  lemma DataMoves(r: Registry, c: Call, b: BoId)
    requires r.Valid() && r.Sound() && Proper(r, c) && b in Apply(r, c).live
    ensures b !in r.live ==> DataOf(Apply(r, c), b) == FreshData && !WorksOn(r, c, b)
    ensures b in r.live ==>
      DataOf(Apply(r, c), b) ==
        if Reaches(r, c, b) then Step(DataOf(r, b), LockOp(c.usage, c.mapOk))
        else if WorksOn(r, c, b) then Step(DataOf(r, b), UnlockOp)
        else DataOf(r, b)
  {
  }

  lemma RunSnoc(d: BoData, ops: seq<BoOp>, op: BoOp)
    ensures Run(d, ops + [op]) == Step(Run(d, ops), op)
  {
    assert (ops + [op])[..|ops|] == ops;
  }

  lemma {:induction false} NoOpsOnUnborn(calls: seq<Call>, states: seq<Registry>, k: nat, b: BoId)
    requires IsRun(calls, states) && k < |states| && b !in states[k].live + states[k].destroyed
    ensures OpsOn(calls, states, k, b) == []
  {
    if k > 0 {
      assert IsStep(calls, states, k - 1);
      RunKeepsSound(calls, states, k - 1);
      DataStep(states[k - 1], calls[k - 1], b);
      NoOpsOnUnborn(calls, states, k - 1, b);
    }
  }

  /** In every run the lock data of a live object is that of a fresh object after exactly the locks
      and unlocks that reached it through its handle; so what is proved of one object's locks holds
      of every object in the registry. */
  lemma {:induction false} DataIsRun(calls: seq<Call>, states: seq<Registry>, k: nat, b: BoId)
    requires IsRun(calls, states) && k < |states| && b in states[k].live
    ensures DataOf(states[k], b) == Run(FreshData, OpsOn(calls, states, k, b))
  {
    if k > 0 {
      var p := k - 1;
      assert IsStep(calls, states, p);
      RunKeepsSound(calls, states, p);
      DataMoves(states[p], calls[p], b);
      DataStep(states[p], calls[p], b);
      if b in states[p].live {
        DataIsRun(calls, states, p, b);
        if Reaches(states[p], calls[p], b) {
          RunSnoc(FreshData, OpsOn(calls, states, p, b), LockOp(calls[p].usage, calls[p].mapOk));
        } else if WorksOn(states[p], calls[p], b) {
          RunSnoc(FreshData, OpsOn(calls, states, p, b), UnlockOp);
        } else {
          assert OpsOn(calls, states, k, b) == OpsOn(calls, states, p, b);
        }
      } else {
        NoOpsOnUnborn(calls, states, p, b);
      }
    }
  }

  /** In every run an unlock reads through a null pointer exactly if the handle is known and no
      earlier lock of an admitted usage, successful or not, reached its object. */
  lemma UnlockFaultsIff(calls: seq<Call>, states: seq<Registry>, k: nat, a: Address)
    requires IsRun(calls, states) && k < |states|
    ensures UnlockFaults(states[k], a) <==>
      states[k].Known(a) && !ReachedBefore(calls, states, k, states[k].handles[a].value)
  {
    RunKeepsSound(calls, states, k);
    if states[k].Known(a) {
      DataIffReached(calls, states, k, states[k].handles[a].value);
    }
  }

  /** The shortest such run: register, then unlock. */
  lemma RegisterThenUnlockFaults(h: Handle, bo: BoId)
    requires h.address != 0 && h.fd >= 0
    ensures var empty := Registry(map[], map[], {}, {}, {});
      var states := [empty, Register(empty, h, Some(bo)).0];
      IsRun([RegisterCall(h, Some(bo))], states) && UnlockFaults(states[1], h.address)
  {
    var empty := Registry(map[], map[], {}, {}, {});
    assert IsStep([RegisterCall(h, Some(bo))], [empty, Register(empty, h, Some(bo)).0], 0);
  }
}
