/**
  The lock state of one buffer object: how often it is locked, for which usages, and
  whether it is mapped.  Usages are 64 bits wide, the remembered ones 32 bits and signed,
  so they are sign-extended when they meet a usage and truncated when they are stored.
 */
module BoLock {

  type Usage = bv64

  const CPU_MASK: Usage := 0x66
  const CPU_WRITE_MASK: Usage := 0x60
  const EINVAL := 22
  const ENOMEM := 12

  /** Flipping the sign bit and subtracting it again copies it into the upper half. */
  function SignExtend(x: bv32): Usage {
    ((x as bv64) ^ 0x8000_0000) - 0x8000_0000
  }

  function Truncate(x: Usage): bv32 {
    (x & 0xFFFF_FFFF) as bv32
  }

  predicate ForCpu(u: Usage) {
    u & CPU_MASK != 0
  }

  datatype BoData = BoData(mapped: bool, lockCount: int, lockedFor: bv32) {

    predicate CpuLocked() {
      ForCpu(SignExtend(lockedFor))
    }

    predicate Valid() {
      && lockCount >= 0
      && (mapped <==> CpuLocked())
      && (mapped ==> lockCount == 1)
      && (lockCount == 0 ==> lockedFor == 0)
    }
  }

  const FreshData := BoData(false, 0, 0)

  predicate Compatible(held: bv32, usage: Usage) {
    SignExtend(held) & usage == usage
  }

  /** The usages a lock asks for and those held already. */
  function AllUsages(d: BoData, usage: Usage): Usage {
    usage | SignExtend(d.lockedFor)
  }

  function StoredUsages(d: BoData, usage: Usage): bv32 {
    Truncate(SignExtend(d.lockedFor) | AllUsages(d, usage))
  }

  /** `mapOk` is whether the driver can map the buffer. */
  function Lock(d: BoData, usage: Usage, mapOk: bool): (BoData, int) {
    if d.lockCount != 0 && !Compatible(d.lockedFor, usage) then (d, -EINVAL)
    else
      var cpu := ForCpu(AllUsages(d, usage));
      if cpu && d.mapped then (d, -EINVAL)
      else if cpu && !mapOk then (d, -ENOMEM)
      else (BoData(d.mapped || cpu, d.lockCount + 1, StoredUsages(d, usage)), 0)
  }

  function Unlock(d: BoData): BoData {
    if d.lockCount == 0 then d
    else
      var count := d.lockCount - 1;
      BoData(d.mapped && !d.CpuLocked(), count, if count == 0 then 0 else d.lockedFor)
  }

  // -------------------------------------------------- bit facts

  lemma ZeroIsNeutral(usage: Usage)
    ensures SignExtend(0) == 0 && usage | 0 == usage && 0 | usage == usage && !ForCpu(0)
  {
  }

  /** Truncation and sign extension never touch the CPU bits. */
  lemma CpuBitsSurvive(usage: Usage)
    ensures ForCpu(SignExtend(Truncate(usage))) <==> ForCpu(usage)
  {
  }

  lemma RoundTrip(x: bv32)
    ensures Truncate(SignExtend(x)) == x
  {
  }

  lemma SubsetAddsNothing(have: Usage, usage: Usage)
    requires have & usage == usage
    ensures usage | have == have
  {
  }

  lemma OrSelf(x: Usage)
    ensures x | x == x
  {
  }

  lemma FreshUsages(usage: Usage)
    ensures AllUsages(FreshData, usage) == usage && StoredUsages(FreshData, usage) == Truncate(usage)
  {
    ZeroIsNeutral(usage);
  }

  lemma NestedAll(d: BoData, usage: Usage)
    requires Compatible(d.lockedFor, usage)
    ensures AllUsages(d, usage) == SignExtend(d.lockedFor)
  {
    SubsetAddsNothing(SignExtend(d.lockedFor), usage);
  }

  lemma NestedStore(d: BoData, usage: Usage, have: Usage)
    requires have == AllUsages(d, usage) == SignExtend(d.lockedFor)
    ensures StoredUsages(d, usage) == d.lockedFor
  {
    OrSelf(have);
    RoundTrip(d.lockedFor);
  }

  /** A lock compatible with the usages already held leaves them as they are, despite the
      truncation. */
  lemma NestedUsage(d: BoData, usage: Usage)
    requires Compatible(d.lockedFor, usage)
    ensures AllUsages(d, usage) == SignExtend(d.lockedFor)
    ensures StoredUsages(d, usage) == d.lockedFor
  {
    NestedAll(d, usage);
    NestedStore(d, usage, SignExtend(d.lockedFor));
  }

  // -------------------------------------------------- every step keeps the invariant

  lemma UnlockedIsFresh(d: BoData)
    requires d.Valid() && d.lockCount == 0
    ensures d == FreshData
  {
    ZeroIsNeutral(0);
  }

  lemma FirstLock(usage: Usage, mapOk: bool)
    ensures Lock(FreshData, usage, mapOk) ==
      if ForCpu(usage) && !mapOk then (FreshData, -ENOMEM)
      else (BoData(ForCpu(usage), 1, Truncate(usage)), 0)
  {
    FreshUsages(usage);
  }

  lemma FirstLockIsValid(usage: Usage)
    ensures BoData(ForCpu(usage), 1, Truncate(usage)).Valid()
  {
    CpuBitsSurvive(usage);
  }

  lemma CompatibleLock(d: BoData, usage: Usage, mapOk: bool, stored: bv32, cpu: bool)
    requires d.Valid() && d.lockCount != 0 && Compatible(d.lockedFor, usage)
    requires stored == StoredUsages(d, usage) && cpu == ForCpu(AllUsages(d, usage))
    ensures Lock(d, usage, mapOk) == if d.mapped then (d, -EINVAL) else (d.(lockCount := d.lockCount + 1), 0)
  {
    NestedUsage(d, usage);
  }

  /** A further lock is refused on a mapped buffer, and otherwise only counts. */
  lemma FurtherLock(d: BoData, usage: Usage, mapOk: bool)
    requires d.Valid() && d.lockCount != 0
    ensures Lock(d, usage, mapOk) ==
      if !Compatible(d.lockedFor, usage) || d.mapped then (d, -EINVAL)
      else (d.(lockCount := d.lockCount + 1), 0)
  {
    if Compatible(d.lockedFor, usage) {
      CompatibleLock(d, usage, mapOk, StoredUsages(d, usage), ForCpu(AllUsages(d, usage)));
    }
  }

  lemma LockKeepsValid(d: BoData, usage: Usage, mapOk: bool)
    requires d.Valid()
    ensures Lock(d, usage, mapOk).0.Valid()
  {
    if d.lockCount == 0 {
      UnlockedIsFresh(d);
      FirstLock(usage, mapOk);
      FirstLockIsValid(usage);
    } else {
      FurtherLock(d, usage, mapOk);
    }
  }

  lemma UnlockKeepsValid(d: BoData)
    requires d.Valid()
    ensures Unlock(d).Valid()
  {
    ZeroIsNeutral(0);
  }

  /** CPU locks never nest: any lock of a mapped buffer is refused. */
  lemma CpuLocksNeverNest(d: BoData, usage: Usage, mapOk: bool)
    requires d.Valid() && d.mapped
    ensures Lock(d, usage, mapOk) == (d, -EINVAL)
  {
    FurtherLock(d, usage, mapOk);
  }

  /** Unlocking unmaps exactly a mapped buffer, and leaves none mapped. */
  lemma UnlockUnmapsExactlyTheMapped(d: BoData)
    requires d.Valid()
    ensures d.lockCount != 0 && d.CpuLocked() <==> d.mapped
    ensures !Unlock(d).mapped
  {
    ZeroIsNeutral(0);
  }

  /** One unlock takes back exactly one successful lock. */
  lemma UnlockUndoesLock(d: BoData, usage: Usage, mapOk: bool)
    requires d.Valid() && Lock(d, usage, mapOk).1 == 0
    ensures Unlock(Lock(d, usage, mapOk).0) == d
  {
    if d.lockCount == 0 {
      UnlockedIsFresh(d);
      FirstLock(usage, mapOk);
      CpuBitsSurvive(usage);
    } else {
      FurtherLock(d, usage, mapOk);
    }
  }

  /** A successful lock makes a mapping exactly when the buffer comes out mapped. */
  lemma LockMapsWhenItSays(d: BoData, usage: Usage, mapOk: bool)
    requires d.Valid() && Lock(d, usage, mapOk).1 == 0
    ensures !d.mapped
    ensures ForCpu(AllUsages(d, usage)) <==> Lock(d, usage, mapOk).0.mapped
  {
    if d.lockCount == 0 {
      UnlockedIsFresh(d);
    } else {
      FurtherLock(d, usage, mapOk);
    }
  }

  // -------------------------------------------------- locks in terms of bits

  /** `x` copied to 64 bits with its sign: the low half is `x`, the high half its top bit. */
  lemma SignExtendBits(x: bv32)
    ensures SignExtend(x) & 0xFFFF_FFFF == x as bv64
    ensures SignExtend(x) >> 32 == if x as bv64 & 0x8000_0000 == 0 then 0 else 0xFFFF_FFFF
  {
  }

  /** The usages remembered cover `usage`: its low half bit by bit, its high half by the sign. */
  predicate Covers(x: Usage, usage: Usage) {
    && x & (usage & 0xFFFF_FFFF) == usage & 0xFFFF_FFFF
    && (usage >> 32 == 0 || x & 0x8000_0000 != 0)
  }

  lemma LowCovered(e: Usage, x: Usage, usage: Usage)
    requires e & 0xFFFF_FFFF == x
    ensures e & usage == usage ==> x & (usage & 0xFFFF_FFFF) == usage & 0xFFFF_FFFF
  {
  }

  lemma HighCovered(e: Usage, usage: Usage)
    requires e >> 32 == 0
    ensures e & usage == usage ==> usage >> 32 == 0
  {
  }

  lemma Join(e: Usage, x: Usage, usage: Usage)
    requires e & 0xFFFF_FFFF == x && (usage >> 32 == 0 || e >> 32 == 0xFFFF_FFFF)
    ensures x & (usage & 0xFFFF_FFFF) == usage & 0xFFFF_FFFF ==> e & usage == usage
  {
  }

  lemma CoverHalves(e: Usage, x: Usage, usage: Usage)
    requires e & 0xFFFF_FFFF == x && e >> 32 == if x & 0x8000_0000 == 0 then 0 else 0xFFFF_FFFF
    ensures e & usage == usage <==> Covers(x, usage)
  {
    LowCovered(e, x, usage);
    if e >> 32 == 0 {
      HighCovered(e, usage);
    }
    if usage >> 32 == 0 || e >> 32 == 0xFFFF_FFFF {
      Join(e, x, usage);
    }
  }

  /** The remembered 32 bits admit a usage exactly if they cover it. */
  lemma CompatibleBits(x: bv32, usage: Usage)
    ensures Compatible(x, usage) <==> Covers(x as bv64, usage)
  {
    SignExtendBits(x);
    CoverHalves(SignExtend(x), x as bv64, usage);
  }

  lemma TruncateBits(usage: Usage)
    ensures Truncate(usage) as bv64 == usage & 0xFFFF_FFFF
  {
  }

  /** The first lock of an object needs a mapping exactly for the bits 0x66, and the object
      remembers the low 32 bits of the usage. */
  lemma FirstLockIsDecided(d: BoData, usage: Usage, mapOk: bool)
    requires d.Valid() && d.lockCount == 0
    ensures var (d', err) := Lock(d, usage, mapOk);
      if usage & 0x66 != 0 && !mapOk then d' == d && err == -ENOMEM
      else err == 0 && d'.lockCount == 1 && d'.mapped == (usage & 0x66 != 0)
           && d'.lockedFor as bv64 == usage & 0xFFFF_FFFF
  {
    UnlockedIsFresh(d);
    FirstLock(usage, mapOk);
    TruncateBits(usage);
  }

  lemma LockIsDecided(d: BoData, usage: Usage, mapOk: bool)
    requires d.Valid()
    ensures Lock(d, usage, mapOk) ==
      if d.lockCount == 0 then
        if ForCpu(usage) && !mapOk then (d, -ENOMEM) else (BoData(ForCpu(usage), 1, Truncate(usage)), 0)
      else if d.mapped || !Compatible(d.lockedFor, usage) then (d, -EINVAL)
      else (d.(lockCount := d.lockCount + 1), 0)
  {
    if d.lockCount == 0 {
      UnlockedIsFresh(d);
      FirstLock(usage, mapOk);
    } else {
      FurtherLock(d, usage, mapOk);
    }
  }

  // -------------------------------------------------- runs on one buffer object

  datatype BoOp = LockOp(usage: Usage, mapOk: bool) | UnlockOp

  function Step(d: BoData, op: BoOp): BoData {
    match op
    case LockOp(usage, mapOk) => Lock(d, usage, mapOk).0
    case UnlockOp => Unlock(d)
  }

  function Run(d: BoData, ops: seq<BoOp>): BoData {
    if ops == [] then d else Step(Run(d, ops[..|ops| - 1]), ops[|ops| - 1])
  }

  /** Locks that succeeded, less unlocks that found a lock to release. */
  function Balance(d: BoData, ops: seq<BoOp>): int {
    if ops == [] then 0
    else
      var before := Run(d, ops[..|ops| - 1]);
      Balance(d, ops[..|ops| - 1]) +
      match ops[|ops| - 1]
      case LockOp(usage, mapOk) => if Lock(before, usage, mapOk).1 == 0 then 1 else 0
      case UnlockOp => if before.lockCount != 0 then -1 else 0
  }

  /** Driver mappings made, less unmappings requested. */
  function Mappings(d: BoData, ops: seq<BoOp>): int {
    if ops == [] then 0
    else
      var before := Run(d, ops[..|ops| - 1]);
      Mappings(d, ops[..|ops| - 1]) +
      match ops[|ops| - 1]
      case LockOp(usage, mapOk) =>
        if Lock(before, usage, mapOk).1 == 0 && ForCpu(AllUsages(before, usage)) then 1 else 0
      case UnlockOp => if before.lockCount != 0 && before.CpuLocked() then -1 else 0
  }

  /** In every run from a fresh buffer the count is the balance of locks, and the buffer is
      mapped exactly when one mapping has not been taken back: every unmapping pairs with one
      earlier mapping, and never two mappings are outstanding. */
  lemma {:induction false} RunPairsMappings(ops: seq<BoOp>)
    ensures Run(FreshData, ops).Valid()
    ensures Run(FreshData, ops).lockCount == Balance(FreshData, ops)
    ensures Mappings(FreshData, ops) == if Run(FreshData, ops).mapped then 1 else 0
    decreases |ops|
  {
    ZeroIsNeutral(0);
    if ops != [] {
      var init, op := ops[..|ops| - 1], ops[|ops| - 1];
      RunPairsMappings(init);
      var d := Run(FreshData, init);
      match op {
        case LockOp(usage, mapOk) =>
          LockKeepsValid(d, usage, mapOk);
          if Lock(d, usage, mapOk).1 == 0 {
            LockMapsWhenItSays(d, usage, mapOk);
          }
        case UnlockOp =>
          UnlockKeepsValid(d);
          UnlockUnmapsExactlyTheMapped(d);
      }
    }
  }

  function Repeat(op: BoOp, n: nat): seq<BoOp> {
    seq(n, _ => op)
  }

  ghost predicate AllSucceed(d: BoData, locks: seq<BoOp>) {
    forall k | 0 <= k < |locks| ::
      locks[k].LockOp? && Lock(Run(d, locks[..k]), locks[k].usage, locks[k].mapOk).1 == 0
  }

  lemma AllButLast(d: BoData, locks: seq<BoOp>)
    requires locks != [] && AllSucceed(d, locks)
    ensures var n := |locks| - 1;
      AllSucceed(d, locks[..n]) && locks[n].LockOp? && Lock(Run(d, locks[..n]), locks[n].usage, locks[n].mapOk).1 == 0
  {
    var n := |locks| - 1;
    assert forall k | 0 <= k < n :: locks[..n][..k] == locks[..k];
  }

  lemma UndoLast(d: BoData, locks: seq<BoOp>)
    requires d.Valid() && locks != [] && AllSucceed(d, locks)
    ensures Unlock(Run(d, locks)) == Run(d, locks[..|locks| - 1])
  {
    var n := |locks| - 1;
    AllButLast(d, locks);
    RunKeepsValid(d, locks[..n]);
    UnlockUndoesLock(Run(d, locks[..n]), locks[n].usage, locks[n].mapOk);
  }

  /** n successful locks in a row, of any compatible usages, are undone by n unlocks. */
  lemma {:induction false} UnlocksUndoLocks(d: BoData, locks: seq<BoOp>)
    requires d.Valid() && AllSucceed(d, locks)
    ensures Run(Run(d, locks), Repeat(UnlockOp, |locks|)) == d
    decreases |locks|
  {
    var n := |locks|;
    if n > 0 {
      AllButLast(d, locks);
      UnlocksUndoLocks(d, locks[..n - 1]);
      UndoLast(d, locks);
      UnlockFirst(Run(d, locks), n - 1);
    }
  }

  lemma {:induction false} RunKeepsValid(d: BoData, ops: seq<BoOp>)
    requires d.Valid()
    ensures Run(d, ops).Valid()
    decreases |ops|
  {
    if ops != [] {
      var init, op := ops[..|ops| - 1], ops[|ops| - 1];
      RunKeepsValid(d, init);
      match op {
        case LockOp(usage, mapOk) => LockKeepsValid(Run(d, init), usage, mapOk);
        case UnlockOp => UnlockKeepsValid(Run(d, init));
      }
    }
  }

  lemma {:induction false} UnlockFirst(d: BoData, n: nat)
    ensures Run(d, Repeat(UnlockOp, n + 1)) == Run(Unlock(d), Repeat(UnlockOp, n))
    decreases n
  {
    assert Repeat(UnlockOp, n + 1)[..n] == Repeat(UnlockOp, n);
    if n > 0 {
      assert Repeat(UnlockOp, n)[..n - 1] == Repeat(UnlockOp, n - 1);
      UnlockFirst(d, n - 1);
    }
  }
}
