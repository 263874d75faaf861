/**
  Flattening a fence into a byte buffer and a descriptor array, and building it again.
 */
module FenceFlattening {

  newtype Byte = x: int | 0 <= x < 256

  datatype Status = NoError | NoMemory | InvalidOperation | BadValue

  /** The cursors of a caller: where the next byte and descriptor go, and the room left. */
  datatype Cursor = Cursor(pos: nat, size: nat, fdPos: nat, count: nat)

  const NO_FD := -1

  /** A 32-bit number as the four bytes it occupies in memory, least significant first. */
  function Bytes(n: nat): (b: seq<Byte>)
    requires n < 0x1_0000_0000
    ensures |b| == 4
  {
    [(n % 256) as Byte, (n / 0x100 % 256) as Byte, (n / 0x1_0000 % 256) as Byte, (n / 0x100_0000) as Byte]
  }

  function Number(b: seq<Byte>): nat
    requires |b| == 4
  {
    (b[0] as int) + 0x100 * (b[1] as int) + 0x1_0000 * (b[2] as int) + 0x100_0000 * (b[3] as int)
  }

  lemma NumberOfBytes(n: nat)
    requires n < 0x1_0000_0000
    ensures Number(Bytes(n)) == n
  {
    var a, b := n / 0x100, n / 0x1_0000;
    assert n == 0x100 * a + n % 0x100 && a == 0x100 * b + a % 0x100 && b == 0x100 * (n / 0x100_0000) + b % 0x100;
  }

  /** The number of descriptors, 0 or 1, as four bytes. */
  function FlatBytes(fd: int): (b: seq<Byte>)
    ensures |b| == 4
  {
    if fd == NO_FD then [0, 0, 0, 0] else [1, 0, 0, 0]
  }

  lemma FlatBytesAreTheCount(fd: int)
    ensures FlatBytes(fd) == Bytes(if fd == NO_FD then 0 else 1)
    ensures Number(FlatBytes(fd)) == if fd == NO_FD then 0 else 1
  {
    NumberOfBytes(if fd == NO_FD then 0 else 1);
  }

  function FlatFds(fd: int): seq<int> {
    if fd == NO_FD then [] else [fd]
  }

  class Fence {
    var fenceFd: int

    constructor (fd: int)
      ensures fenceFd == fd
    {
      fenceFd := fd;
    }

    function GetFlattenedSize(): nat {
      4
    }

    function GetFdCount(): nat
      reads this
    {
      if fenceFd != NO_FD then 1 else 0
    }

    method Flatten(buffer: array<Byte>, fds: array<int>, at: Cursor) returns (status: Status, next: Cursor)
      requires at.pos + at.size <= buffer.Length && at.fdPos + at.count <= fds.Length
      modifies buffer, fds
      ensures status == if at.size < 4 || at.count < GetFdCount() then NoMemory else NoError
      ensures status != NoError ==> next == at && buffer[..] == old(buffer[..]) && fds[..] == old(fds[..])
      ensures status == NoError ==>
        && next == Cursor(at.pos + 4, at.size - 4, at.fdPos + |FlatFds(fenceFd)|, at.count - |FlatFds(fenceFd)|)
        && buffer[..next.pos] == old(buffer[..at.pos]) + FlatBytes(fenceFd)
        && buffer[next.pos..] == old(buffer[at.pos + 4..])
        && fds[..next.fdPos] == old(fds[..at.fdPos]) + FlatFds(fenceFd)
        && fds[next.fdPos..] == old(fds[at.fdPos + |FlatFds(fenceFd)|..])
    {
      next := at;
      if at.size < GetFlattenedSize() || at.count < GetFdCount() {
        return NoMemory, next;
      }
      var b := Bytes(GetFdCount());
      FlatBytesAreTheCount(fenceFd);
      buffer[at.pos], buffer[at.pos + 1], buffer[at.pos + 2], buffer[at.pos + 3] := b[0], b[1], b[2], b[3];
      next := next.(pos := at.pos + 4, size := at.size - 4);
      assert buffer[..next.pos] == old(buffer[..at.pos]) + b;
      if fenceFd != NO_FD {
        fds[at.fdPos] := fenceFd;
        next := next.(fdPos := at.fdPos + 1, count := at.count - 1);
      }
      status := NoError;
    }

    /** A malformed or unfinished input may already have consumed the count. */
    method Unflatten(buffer: array<Byte>, fds: array<int>, at: Cursor) returns (status: Status, next: Cursor)
      requires at.pos + at.size <= buffer.Length && at.fdPos + at.count <= fds.Length
      modifies this
      ensures (status, next, fenceFd) == Read(old(fenceFd), buffer[..], fds[..], at)
    {
      next := at;
      if fenceFd != NO_FD {
        return InvalidOperation, next;
      }
      if at.size < GetFlattenedSize() {
        return NoMemory, next;
      }
      var numFds := Number(buffer[at.pos..at.pos + 4]);
      assert buffer[..][at.pos..at.pos + 4] == buffer[at.pos..at.pos + 4];
      next := next.(pos := at.pos + 4, size := at.size - 4);
      if numFds > 1 {
        return BadValue, next;
      }
      if at.count < numFds {
        return NoMemory, next;
      }
      if numFds != 0 {
        fenceFd := fds[at.fdPos];
        next := next.(fdPos := at.fdPos + 1, count := at.count - 1);
      }
      return NoError, next;
    }
  }

  /** Status, cursor and descriptor after reading one fence. */
  function Read(fd: int, bytes: seq<Byte>, fds: seq<int>, at: Cursor): (Status, Cursor, int)
    requires at.pos + at.size <= |bytes| && at.fdPos + at.count <= |fds|
  {
    if fd != NO_FD then (InvalidOperation, at, fd)
    else if at.size < 4 then (NoMemory, at, fd)
    else
      var numFds := Number(bytes[at.pos..at.pos + 4]);
      var at1 := at.(pos := at.pos + 4, size := at.size - 4);
      if numFds > 1 then (BadValue, at1, fd)
      else if at.count < numFds then (NoMemory, at1, fd)
      else if numFds == 0 then (NoError, at1, fd)
      else (NoError, at1.(fdPos := at.fdPos + 1, count := at.count - 1), fds[at.fdPos])
  }

  /** What a read does, byte by byte: a fence that has a descriptor refuses and consumes nothing, as
      does one without four bytes; any other count than 0 or 1, and a 1 without a descriptor, is
      refused with the count consumed; only 0 and 1 succeed. */
  lemma ReadIsDecided(fd: int, bytes: seq<Byte>, fds: seq<int>, at: Cursor)
    requires at.pos + at.size <= |bytes| && at.fdPos + at.count <= |fds|
    ensures var (status, next, fd') := Read(fd, bytes, fds, at);
      if fd != -1 then status == InvalidOperation && next == at && fd' == fd
      else if at.size < 4 then status == NoMemory && next == at && fd' == -1
      else
        var b := bytes[at.pos..at.pos + 4];
        && next.pos == at.pos + 4 && next.size == at.size - 4
        && if b == [0, 0, 0, 0] then status == NoError && next.fdPos == at.fdPos && next.count == at.count && fd' == -1
           else if b == [1, 0, 0, 0] && at.count > 0 then
             status == NoError && next.fdPos == at.fdPos + 1 && next.count == at.count - 1 && fd' == fds[at.fdPos]
           else
             && next.fdPos == at.fdPos && next.count == at.count && fd' == -1
             && status == if b == [1, 0, 0, 0] then NoMemory else BadValue
  {
    if fd == NO_FD && at.size >= 4 {
      var b := bytes[at.pos..at.pos + 4];
      CountOf(b);
    }
  }

  lemma CountOf(b: seq<Byte>)
    requires |b| == 4
    ensures Number(b) == 0 <==> b == [0, 0, 0, 0]
    ensures Number(b) == 1 <==> b == [1, 0, 0, 0]
  {
    assert b == [b[0], b[1], b[2], b[3]];
  }

  // -------------------------------------------------- any sequence of fences

  function AllBytes(fences: seq<int>): (b: seq<Byte>)
    ensures |b| == 4 * |fences|
  {
    if fences == [] then [] else FlatBytes(fences[0]) + AllBytes(fences[1..])
  }

  function AllFds(fences: seq<int>): seq<int> {
    if fences == [] then [] else FlatFds(fences[0]) + AllFds(fences[1..])
  }

  lemma {:induction false} BytesOfConcat(a: seq<int>, b: seq<int>)
    ensures AllBytes(a + b) == AllBytes(a) + AllBytes(b)
    decreases |a|
  {
    if a == [] {
      assert a + b == b;
    } else {
      BytesOfConcat(a[1..], b);
      assert (a + b)[1..] == a[1..] + b && (a + b)[0] == a[0];
    }
  }

  lemma {:induction false} FdsOfConcat(a: seq<int>, b: seq<int>)
    ensures AllFds(a + b) == AllFds(a) + AllFds(b)
    decreases |a|
  {
    if a == [] {
      assert a + b == b;
    } else {
      FdsOfConcat(a[1..], b);
      assert (a + b)[1..] == a[1..] + b && (a + b)[0] == a[0];
    }
  }

  function Values(fences: seq<Fence>): (v: seq<int>)
    reads fences
    ensures |v| == |fences| && forall i | 0 <= i < |fences| :: v[i] == fences[i].fenceFd
  {
    seq(|fences|, i requires 0 <= i < |fences| reads fences => fences[i].fenceFd)
  }

  lemma OneMore(values: seq<int>, i: nat)
    requires i < |values|
    ensures AllBytes(values[..i + 1]) == AllBytes(values[..i]) + FlatBytes(values[i])
    ensures AllFds(values[..i + 1]) == AllFds(values[..i]) + FlatFds(values[i])
    ensures |AllFds(values[..i + 1])| <= |AllFds(values)|
  {
    assert values[..i + 1] == values[..i] + [values[i]];
    BytesOfConcat(values[..i], [values[i]]);
    FdsOfConcat(values[..i], [values[i]]);
    assert [values[i]][1..] == [];
    assert values == values[..i + 1] + values[i + 1..];
    FdsOfConcat(values[..i + 1], values[i + 1..]);
  }

  /** `done` fences are flattened at the start of the two arrays, and `next` is behind them. */
  ghost predicate Flattened(done: seq<int>, bytes: seq<Byte>, fds: seq<int>, next: Cursor) {
    && next.pos == 4 * |done| && next.pos + next.size == |bytes|
    && next.fdPos == |AllFds(done)| && next.fdPos + next.count == |fds|
    && bytes[..next.pos] == AllBytes(done) && fds[..next.fdPos] == AllFds(done)
  }

  /** Flattens the fences one after the other from the start of the two arrays; it fails exactly
      if one of the two has not enough room for all. */
  method FlattenAll(fences: seq<Fence>, buffer: array<Byte>, fds: array<int>) returns (status: Status, next: Cursor)
    modifies buffer, fds
    ensures status == NoError <==> 4 * |fences| <= buffer.Length && |AllFds(Values(fences))| <= fds.Length
    ensures status == NoError ==> Flattened(Values(fences), buffer[..], fds[..], next)
  {
    ghost var values := Values(fences);
    next := Cursor(0, buffer.Length, 0, fds.Length);
    var i := 0;
    while i < |fences|
      invariant 0 <= i <= |fences|
      invariant Flattened(values[..i], buffer[..], fds[..], next)
    {
      OneMore(values, i);
      ghost var before := next;
      status, next := fences[i].Flatten(buffer, fds, next);
      if status != NoError {
        return;
      }
      i := i + 1;
    }
    assert values[..i] == values;
    status := NoError;
  }

  /** What successive unflattens into fresh fences yield. */
  function ReadAll(n: nat, bytes: seq<Byte>, fds: seq<int>, at: Cursor): (Status, Cursor, seq<int>)
    requires at.pos + at.size <= |bytes| && at.fdPos + at.count <= |fds|
  {
    if n == 0 then (NoError, at, [])
    else
      var (s, at1, fd) := Read(NO_FD, bytes, fds, at);
      if s != NoError then (s, at1, [])
      else
        var (s2, at2, rest) := ReadAll(n - 1, bytes, fds, at1);
        (s2, at2, [fd] + rest)
  }

  /** The cursor after one more fence. */
  function After(at: Cursor, fd: int): Cursor
    requires at.size >= 4 && at.count >= |FlatFds(fd)|
  {
    Cursor(at.pos + 4, at.size - 4, at.fdPos + |FlatFds(fd)|, at.count - |FlatFds(fd)|)
  }

  /** The flattened form of `fences` lies at the cursor. */
  ghost predicate LiesAt(fences: seq<int>, bytes: seq<Byte>, fds: seq<int>, at: Cursor) {
    && at.pos + at.size <= |bytes| && at.fdPos + at.count <= |fds|
    && 4 * |fences| <= at.size && bytes[at.pos..at.pos + 4 * |fences|] == AllBytes(fences)
    && |AllFds(fences)| <= at.count && fds[at.fdPos..at.fdPos + |AllFds(fences)|] == AllFds(fences)
  }

  function Behind(at: Cursor, fences: seq<int>): Cursor
    requires 4 * |fences| <= at.size && |AllFds(fences)| <= at.count
  {
    Cursor(at.pos + 4 * |fences|, at.size - 4 * |fences|, at.fdPos + |AllFds(fences)|, at.count - |AllFds(fences)|)
  }

  lemma SplitSlice<T>(s: seq<T>, from: nat, a: seq<T>, b: seq<T>)
    requires from + |a + b| <= |s| && s[from..from + |a + b|] == a + b
    ensures s[from..from + |a|] == a && s[from + |a|..from + |a| + |b|] == b
  {
    var all := s[from..from + |a + b|];
    assert all[..|a|] == a && all[|a|..] == b;
  }

  lemma ReadsFirst(fd: int, bytes: seq<Byte>, fds: seq<int>, at: Cursor)
    requires at.pos + at.size <= |bytes| && at.fdPos + at.count <= |fds|
    requires at.size >= 4 && bytes[at.pos..at.pos + 4] == FlatBytes(fd)
    requires at.count >= |FlatFds(fd)| && fds[at.fdPos..at.fdPos + |FlatFds(fd)|] == FlatFds(fd)
    ensures Read(NO_FD, bytes, fds, at) == (NoError, After(at, fd), fd)
  {
    FlatBytesAreTheCount(fd);
    if fd != NO_FD {
      assert fds[at.fdPos] == fds[at.fdPos..at.fdPos + 1][0];
    }
  }

  lemma ReadsThenRest(fences: seq<int>, bytes: seq<Byte>, fds: seq<int>, at: Cursor)
    requires fences != [] && LiesAt(fences, bytes, fds, at)
    ensures at.count >= |FlatFds(fences[0])|
    ensures Read(NO_FD, bytes, fds, at) == (NoError, After(at, fences[0]), fences[0])
    ensures LiesAt(fences[1..], bytes, fds, After(at, fences[0]))
    ensures Behind(After(at, fences[0]), fences[1..]) == Behind(at, fences)
  {
    SplitSlice(bytes, at.pos, FlatBytes(fences[0]), AllBytes(fences[1..]));
    SplitSlice(fds, at.fdPos, FlatFds(fences[0]), AllFds(fences[1..]));
    ReadsFirst(fences[0], bytes, fds, at);
  }

  lemma ReadAllFirst(n: nat, bytes: seq<Byte>, fds: seq<int>, at: Cursor, at1: Cursor, at2: Cursor, fd: int, rest: seq<int>)
    requires at.pos + at.size <= |bytes| && at.fdPos + at.count <= |fds|
    requires at1.pos + at1.size <= |bytes| && at1.fdPos + at1.count <= |fds|
    requires Read(NO_FD, bytes, fds, at) == (NoError, at1, fd)
    requires ReadAll(n, bytes, fds, at1) == (NoError, at2, rest)
    ensures ReadAll(n + 1, bytes, fds, at) == (NoError, at2, [fd] + rest)
  {
  }

  /** Unflattening what any sequence of fences was flattened to, wherever it lies, gives the same
      descriptors and the same invalid fences, in order, and consumes exactly the bytes and
      descriptors that flattening produced. */
  lemma {:induction false} RoundTrip(fences: seq<int>, bytes: seq<Byte>, fds: seq<int>, at: Cursor)
    requires LiesAt(fences, bytes, fds, at)
    ensures ReadAll(|fences|, bytes, fds, at) == (NoError, Behind(at, fences), fences)
    decreases |fences|
  {
    if fences != [] {
      var first, rest := fences[0], fences[1..];
      ReadsThenRest(fences, bytes, fds, at);
      var at1 := After(at, first);
      RoundTrip(rest, bytes, fds, at1);
      ReadAllFirst(|rest|, bytes, fds, at, at1, Behind(at1, rest), first, rest);
      assert [first] + rest == fences;
    }
  }

  lemma FlattenedLies(fences: seq<int>, bytes: seq<Byte>, fds: seq<int>, next: Cursor)
    requires Flattened(fences, bytes, fds, next)
    ensures LiesAt(fences, bytes, fds, Cursor(0, |bytes|, 0, |fds|))
    ensures Behind(Cursor(0, |bytes|, 0, |fds|), fences) == next
  {
    assert bytes[0..4 * |fences|] == bytes[..next.pos];
    assert fds[0..|AllFds(fences)|] == fds[..next.fdPos];
  }

  /** What one process flattens from the start of two arrays, another unflattens from there. */
  lemma FlattenThenUnflatten(fences: seq<int>, bytes: seq<Byte>, fds: seq<int>, start: Cursor, next: Cursor)
    requires Flattened(fences, bytes, fds, next) && start == Cursor(0, |bytes|, 0, |fds|)
    ensures ReadAll(|fences|, bytes, fds, start) == (NoError, next, fences)
  {
    FlattenedLies(fences, bytes, fds, next);
    RoundTrip(fences, bytes, fds, start);
  }
}
