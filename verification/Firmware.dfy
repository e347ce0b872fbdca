/** The MxL58x firmware loader: a parser walks the segments of an image while the segment writer reverses the
    dwords of that same image in place, block by block (dvb-frontends/mxl58x.c, mxl58x_defs.h). */
module Firmware {
  import opened Arithmetic
  import opened Bytes

  type Memory = map<int, byte>

  const BLOCK_LENGTH := 248
  const FILE_HEADER_SIZE := 16
  const SEGMENT_HEADER_SIZE := 8
  const FILE_HEADER_ID: byte := 77
  const SEGMENT_HEADER_ID: byte := 83
  const FW_DL_SIGN_ADDR := 0x3fff_eae0
  const EINVAL := 22

  function RoundUp(n: nat): (m: nat)
    ensures n <= m < n + 4 && m % 4 == 0
  {
    (n + 3) / 4 * 4
  }

  // ---------- dword reversal ----------

  /** Where the byte at position k goes when every dword is reversed. */
  function Mirror(k: nat): (m: nat)
    ensures m / 4 == k / 4 && m % 4 == 3 - k % 4
  {
    k / 4 * 4 + (3 - k % 4)
  }

  lemma MirrorStays(k: nat, size: nat)
    requires k < size && size % 4 == 0
    ensures Mirror(k) < size && Mirror(Mirror(k)) == k
  {
  }

  /** Every dword reversed. */
  function Flip(s: seq<byte>): (r: seq<byte>)
    requires |s| % 4 == 0
    ensures |r| == |s| && forall k | 0 <= k < |s| :: Mirror(k) < |s| && r[k] == s[Mirror(k)]
  {
    assert forall k | 0 <= k < |s| :: Mirror(k) < |s| by {
      forall k: nat | k < |s| ensures Mirror(k) < |s| { MirrorStays(k, |s|); }
    }
    seq(|s|, k requires 0 <= k < |s| => s[Mirror(k)])
  }

  lemma FlipTwice(s: seq<byte>)
    requires |s| % 4 == 0
    ensures Flip(Flip(s)) == s
  {
    forall k: nat | k < |s| ensures Flip(Flip(s))[k] == s[k] {
      MirrorStays(k, |s|);
    }
  }

  lemma MirrorShift(k: nat, n: nat)
    requires n % 4 == 0 && n <= k
    ensures Mirror(k) == n + Mirror(k - n)
  {
  }

  lemma FlipAt(s: seq<byte>, k: nat)
    requires |s| % 4 == 0 && k < |s|
    ensures Mirror(k) < |s| && Flip(s)[k] == s[Mirror(k)]
  {
    hide Mirror;
  }

  /** Reversal works dword by dword, so it commutes with cutting at a dword boundary. */
  lemma FlipJoin(s: seq<byte>, t: seq<byte>)
    requires |s| % 4 == 0 && |t| % 4 == 0
    ensures |s + t| % 4 == 0 && Flip(s + t) == Flip(s) + Flip(t)
  {
    hide Mirror, Flip;
    forall k: nat | k < |s + t| ensures Flip(s + t)[k] == (Flip(s) + Flip(t))[k] {
      FlipAt(s + t, k);
      if k < |s| {
        FlipAt(s, k);
      } else {
        MirrorShift(k, |s|);
        FlipAt(t, k - |s|);
      }
    }
  }

  /** The first i bytes from off are reversed, everything else is as before. */
  ghost predicate FlippedUpTo(now: seq<byte>, before: seq<byte>, off: nat, i: nat) {
    && |now| == |before| >= off + i
    && (forall k | 0 <= k < i :: Mirror(k) < i && now[off + k] == before[off + Mirror(k)])
    && (forall k | 0 <= k < |now| && !(off <= k < off + i) :: now[k] == before[k])
  }

  /** The bytes with n of them from off reversed. */
  function FlippedFrom(s: seq<byte>, off: nat, n: nat): seq<byte>
    requires off + n <= |s| && n % 4 == 0
  {
    s[..off] + Flip(s[off..off + n]) + s[off + n..]
  }

  lemma FlippedSlice(now: seq<byte>, before: seq<byte>, off: nat, i: nat)
    requires i % 4 == 0 && FlippedUpTo(now, before, off, i)
    ensures now == FlippedFrom(before, off, i)
  {
  }

  /** The four cells from a place are exchanged crosswise, the others are as they were. */
  ghost predicate Crossed(was: seq<byte>, now: seq<byte>, at: nat) {
    && |now| == |was| >= at + 4
    && now[at] == was[at + 3] && now[at + 1] == was[at + 2] && now[at + 2] == was[at + 1] && now[at + 3] == was[at]
    && forall k | 0 <= k < |was| && !(at <= k < at + 4) :: now[k] == was[k]
  }

  lemma TwoSwaps(was: seq<byte>, now: seq<byte>, at: nat)
    requires |was| >= at + 4
    requires now == was[at := was[at + 3]][at + 3 := was[at]][at + 1 := was[at + 2]][at + 2 := was[at + 1]]
    ensures Crossed(was, now, at)
  {
  }

  lemma MirrorInDword(i: nat, j: nat)
    requires i % 4 == 0 && j < 4
    ensures Mirror(i + j) == i + 3 - j
  {
  }

  lemma FlipOneMore(was: seq<byte>, now: seq<byte>, before: seq<byte>, off: nat, i: nat)
    requires i % 4 == 0 && FlippedUpTo(was, before, off, i) && Crossed(was, now, off + i)
    requires forall k | off + i <= k < off + i + 4 :: was[k] == before[k]
    ensures FlippedUpTo(now, before, off, i + 4)
  {
    MirrorInDword(i, 0);
    MirrorInDword(i, 1);
    MirrorInDword(i, 2);
    MirrorInDword(i, 3);
    hide Mirror;
    forall k: nat | k < i + 4 ensures Mirror(k) < i + 4 && now[off + k] == before[off + Mirror(k)] {
      if k >= i {
        assert k == i || k == i + 1 || k == i + 2 || k == i + 3;
      } else {
        assert now[off + k] == was[off + k];
      }
    }
  }

  lemma NotYetFlipped(was: seq<byte>, before: seq<byte>, off: nat, i: nat)
    requires FlippedUpTo(was, before, off, i) && |was| >= off + i + 4
    ensures forall k | off + i <= k < off + i + 4 :: was[k] == before[k]
  {
    hide Mirror;
  }

  /** One dword more, given the two exchanges. */
  lemma NextDword(was: seq<byte>, now: seq<byte>, before: seq<byte>, off: nat, i: nat)
    requires i % 4 == 0 && FlippedUpTo(was, before, off, i) && |was| >= off + i + 4
    requires var at := off + i;
             now == was[at := was[at + 3]][at + 3 := was[at]][at + 1 := was[at + 2]][at + 2 := was[at + 1]]
    ensures FlippedUpTo(now, before, off, i + 4)
  {
    hide FlippedUpTo, Crossed;
    TwoSwaps(was, now, off + i);
    NotYetFlipped(was, before, off, i);
    FlipOneMore(was, now, before, off, i);
  }

  lemma RoomForDword(i: nat, size: nat)
    requires i % 4 == 0 && i < size
    ensures i + 4 <= RoundUp(size)
  {
  }

  lemma NothingFlipped(s: seq<byte>, off: nat)
    requires off <= |s|
    ensures FlippedUpTo(s, s, off, 0)
  {
  }

  /** The exchange of two cells through a third variable. */
  method SwapBytes(d: array<byte>, i: nat, j: nat)
    requires i < d.Length && j < d.Length
    modifies d
    ensures d[..] == old(d[..])[i := old(d[j])][j := old(d[i])]
  {
    var t := d[j];
    d[j] := d[i];
    d[i] := t;
  }

  lemma FlippedParts(s: seq<byte>, off: nat, n: nat)
    requires off + n <= |s| && n % 4 == 0
    ensures var r := FlippedFrom(s, off, n);
            |r| == |s| && r[..off] == s[..off] && r[off..off + n] == Flip(s[off..off + n]) && r[off + n..] == s[off + n..]
  {
  }

  lemma SameMultiple(i: nat, whole: nat)
    requires i % 4 == 0 && whole % 4 == 0 && i <= whole < i + 4
    ensures i == whole
  {
  }

  /** flip_data_in_dword on the bytes of d from off. A size that is not a multiple of four is rounded up. */
  method FlipDataInDword(size: nat, d: array<byte>, off: nat)
    requires off + RoundUp(size) <= d.Length
    modifies d
    ensures d[off..off + RoundUp(size)] == Flip(old(d[off..off + RoundUp(size)]))
    ensures d[..off] == old(d[..off]) && d[off + RoundUp(size)..] == old(d[off + RoundUp(size)..])
  {
    ghost var before, whole := d[..], RoundUp(size);
    NothingFlipped(before, off);
    var i := 0;
    hide Flip, FlippedUpTo, FlippedFrom, RoundUp;
    while i < size
      invariant 0 <= i <= whole && i % 4 == 0
      invariant FlippedUpTo(d[..], before, off, i)
    {
      ghost var was := d[..];
      RoomForDword(i, size);
      SwapBytes(d, off + i, off + i + 3);
      SwapBytes(d, off + i + 1, off + i + 2);
      NextDword(was, d[..], before, off, i);
      i := i + 4;
    }
    SameMultiple(i, whole);
    FlippedSlice(d[..], before, off, i);
    FlippedParts(before, off, whole);
    assert d[off..off + whole] == d[..][off..off + whole] && before[off..off + whole] == old(d[off..off + whole]);
  }

  function Xor(a: byte, b: byte): byte {
    a ^ b
  }

  lemma XorFacts(a: byte, b: byte)
    ensures Xor(b, Xor(a, b)) == a && Xor(Xor(a, b), Xor(b, Xor(a, b))) == b
  {
  }

  /** The three exclusive-or assignments that exchange two different cells. */
  method XorSwap(d: array<byte>, i: nat, j: nat)
    requires i < d.Length && j < d.Length && i != j
    modifies d
    ensures d[..] == old(d[..])[i := old(d[j])][j := old(d[i])]
  {
    XorFacts(d[i], d[j]);
    d[i] := Xor(d[i], d[j]);
    d[j] := Xor(d[j], d[i]);
    d[i] := Xor(d[i], d[j]);
  }

  /** convert_endian: the same reversal by exclusive-or swaps, on the whole dwords only, if the flag is set. */
  method ConvertEndian(flag: bool, size: nat, d: array<byte>)
    requires size <= d.Length
    modifies d
    ensures var whole := if flag then size / 4 * 4 else 0;
            d[..] == FlippedFrom(old(d[..]), 0, whole)
  {
    ghost var before := d[..];
    var whole := if flag then size / 4 * 4 else 0;
    NothingFlipped(before, 0);
    var i := 0;
    hide FlippedUpTo, FlippedFrom;
    while i < whole
      invariant 0 <= i <= whole && i % 4 == 0
      invariant FlippedUpTo(d[..], before, 0, i)
    {
      ghost var was := d[..];
      assert i + 4 <= whole;
      XorSwap(d, i, i + 3);
      XorSwap(d, i + 1, i + 2);
      NextDword(was, d[..], before, 0, i);
      i := i + 4;
    }
    FlippedSlice(d[..], before, 0, i);
  }

  // ---------- the device ----------

  /** Memory after bytes are stored at successive addresses, which wrap around at 2^32. */
  function Store(m: Memory, addr: nat, data: seq<byte>): Memory
    decreases |data|
  {
    if data == [] then m else Store(m[U32(addr) := data[0]], addr + 1, data[1..])
  }

  lemma {:induction false} StoreJoin(m: Memory, addr: nat, x: seq<byte>, y: seq<byte>)
    ensures Store(m, addr, x + y) == Store(Store(m, addr, x), addr + |x|, y)
    decreases |x|
  {
    if x == [] {
      assert x + y == y;
    } else {
      assert (x + y)[1..] == x[1..] + y;
      StoreJoin(m[U32(addr) := x[0]], addr + 1, x[1..], y);
    }
  }

  lemma NextWraps(addr: nat)
    ensures U32(U32(addr) + 1) == U32(addr + 1) && U32(U32(addr)) == U32(addr)
  {
  }

  lemma {:induction false} StoreWraps(m: Memory, addr: nat, data: seq<byte>)
    ensures Store(m, U32(addr), data) == Store(m, addr, data)
    decreases |data|
  {
    if data != [] {
      hide U32;
      var next := m[U32(addr) := data[0]];
      StoreWraps(next, U32(addr) + 1, data[1..]);
      StoreWraps(next, addr + 1, data[1..]);
      NextWraps(addr);
    }
  }

  function Cell(addr: nat, k: nat): nat {
    U32(addr + k)
  }

  /** Storing n bytes from addr writes cell c. */
  ghost predicate Touches(addr: nat, n: nat, c: nat) {
    exists k: nat :: k < n && Cell(addr, k) == c
  }

  /** No other cell is touched. */
  lemma {:induction false} StoreElsewhere(m: Memory, addr: nat, data: seq<byte>, c: nat)
    requires !Touches(addr, |data|, c)
    ensures c in Store(m, addr, data) <==> c in m
    ensures c in m ==> Store(m, addr, data)[c] == m[c]
    decreases |data|
  {
    if data != [] {
      assert Cell(addr, 0) != c;
      var after := addr + 1;
      forall k: nat | k < |data| - 1 ensures Cell(after, k) != c {
        assert Cell(addr, k + 1) == Cell(after, k);
      }
      StoreElsewhere(m[U32(addr) := data[0]], addr + 1, data[1..], c);
    }
  }

  /** Every byte reads back from the cell it was stored in. */
  lemma {:induction false} StoreReads(m: Memory, addr: nat, data: seq<byte>, k: nat)
    requires k < |data| <= 0x1_0000_0000
    ensures Cell(addr, k) in Store(m, addr, data) && Store(m, addr, data)[Cell(addr, k)] == data[k]
    decreases |data|
  {
    var next := m[U32(addr) := data[0]];
    if k == 0 {
      var after := addr + 1;
      forall j: nat | j < |data| - 1 ensures Cell(after, j) != Cell(addr, 0) {
        CellsDiffer(addr, j);
      }
      StoreElsewhere(next, addr + 1, data[1..], Cell(addr, 0));
    } else {
      StoreReads(next, addr + 1, data[1..], k - 1);
      assert Cell(addr + 1, k - 1) == Cell(addr, k);
    }
  }

  lemma CellsDiffer(addr: nat, j: nat)
    requires j + 1 < 0x1_0000_0000
    ensures Cell(addr + 1, j) != Cell(addr, 0)
  {
  }

  // ---------- segments ----------

  /** Zero bytes up to the next dword boundary. */
  function Pad(s: seq<byte>): (r: seq<byte>)
    ensures |r| == RoundUp(|s|)
  {
    s + seq(RoundUp(|s|) - |s|, _ => 0)
  }

  /** What a segment's bytes look like in the device: zero-padded, every dword reversed. */
  function Image(data: seq<byte>): seq<byte> {
    Flip(Pad(data))
  }

  /** Cutting off a first part that ends at a dword boundary. */
  lemma ImageSplit(data: seq<byte>, n: nat)
    requires n <= |data| && n % 4 == 0
    ensures Image(data) == Flip(data[..n]) + Image(data[n..])
  {
    assert Pad(data) == data[..n] + Pad(data[n..]);
    FlipJoin(data[..n], Pad(data[n..]));
  }

  /** How many transfers a segment of this length takes: as few as hold it at 248 bytes each, and one for an empty
      segment, too. */
  function Blocks(total: nat): (n: nat)
    ensures n >= 1 && total <= 248 * n && (n == 1 || 248 * (n - 1) < total)
  {
    if total <= BLOCK_LENGTH then 1 else 1 + Blocks(total - BLOCK_LENGTH)
  }

  class Device {
    var mem: Memory
    var budget: nat
    var failed: bool

    /** budget is the number of bus transfers that succeed. */
    constructor (budget: nat)
      ensures mem == map[] && this.budget == budget && !failed
    {
      mem, this.budget, failed := map[], budget, false;
    }

    /** The transfers that were needed have been made, or one was needed when none was left. */
    ghost predicate Spent(before: nat, needed: nat)
      reads this
    {
      (failed <==> before < needed) && (!failed ==> budget == before - needed)
    }

    /** One register-write transfer of size bytes, from off in the source buffer. */
    method WriteBlock(addr: nat, size: nat, source: array<byte>, off: nat) returns (status: int)
      requires !failed && off + size <= source.Length
      modifies this
      ensures Spent(old(budget), 1)
      ensures if failed then status == -1 && mem == old(mem)
              else status == 0 && mem == Store(old(mem), addr, source[off..off + size])
    {
      if budget == 0 {
        failed := true;
        return -1;
      }
      budget := budget - 1;
      mem := Store(mem, addr, source[off..off + size]);
      return 0;
    }

    /** A block whose length is not a multiple of four goes through a padded copy and leaves the buffer alone. */
    method WritePadded(addr: nat, size: nat, buf: array<byte>, off: nat) returns (status: int)
      requires !failed && size <= BLOCK_LENGTH && off + size <= buf.Length
      modifies this
      ensures Spent(old(budget), 1)
      ensures if failed then status == -1 && mem == old(mem)
              else status == 0 && mem == Store(old(mem), addr, Image(buf[off..off + size]))
    {
      hide Flip, Pad, Store;
      var message := PaddedCopy(buf, off, size);
      var size4 := RoundUp(size);
      assert RoundUp(size4) == size4;
      FlipDataInDword(size4, message, 0);
      status := WriteBlock(addr, size4, message, 0);
    }

    /** A block of whole dwords is reversed where it is. */
    method WriteInPlace(addr: nat, size: nat, buf: array<byte>, off: nat) returns (status: int)
      requires !failed && size % 4 == 0 && off + size <= buf.Length
      modifies this, buf
      ensures buf[..off] == old(buf[..off]) && buf[off + size..] == old(buf[off + size..])
      ensures Spent(old(budget), 1)
      ensures if failed then status == -1 && mem == old(mem)
              else status == 0 && mem == Store(old(mem), addr, Image(old(buf[off..off + size])))
    {
      hide Flip, Image, Pad, Store;
      WholeDwords(buf[off..off + size]);
      FlipDataInDword(size, buf, off);
      status := WriteBlock(addr, size, buf, off);
    }

    /** One block of a segment: a padded copy or in place, as its length demands. */
    method WriteOneBlock(addr: nat, size: nat, buf: array<byte>, off: nat) returns (status: int)
      requires !failed && size <= BLOCK_LENGTH && off + size <= buf.Length
      modifies this, buf
      ensures buf[..off] == old(buf[..off]) && buf[off + size..] == old(buf[off + size..])
      ensures Spent(old(budget), 1)
      ensures if failed then status == -1 && mem == old(mem)
              else status == 0 && mem == Store(old(mem), addr, Image(old(buf[off..off + size])))
    {
      hide *;
      if size % 4 != 0 {
        status := WritePadded(addr, size, buf, off);
      } else {
        status := WriteInPlace(addr, size, buf, off);
      }
    }

    /** The block that starts count bytes into a segment, when everything before it has been stored. */
    method WriteNextBlock(ghost mem0: Memory, addr: nat, ghost before: seq<byte>, off: nat, total: nat,
                          count: nat, size: nat, at: nat, buf: array<byte>) returns (status: int)
      requires !failed && off + total <= buf.Length == |before|
      requires count + size <= total && size <= BLOCK_LENGTH && count % 4 == 0 && U32(at) == U32(addr + count)
      requires mem == Store(mem0, addr, Image(before[off..off + total][..count]))
      requires buf[off + count..] == before[off + count..]
      modifies this, buf
      ensures buf[off + count + size..] == before[off + count + size..]
      ensures Spent(old(budget), 1)
      ensures if failed then status == -1
              else status == 0 && mem == Store(mem0, addr, Image(before[off..off + total][..count + size]))
    {
      hide *;
      SameBlock(buf[..], before, off, total, count, size);
      BlockExtends(mem0, addr, before[off..off + total], count, size, at);
      status := WriteOneBlock(at, size, buf, off + count);
    }

    /** write_fw_segment: the bytes from off, in blocks. What lies behind them is left alone. */
    method WriteFwSegment(addr: nat, total: nat, buf: array<byte>, off: nat) returns (status: int)
      requires !failed && off + total <= buf.Length
      modifies this, buf
      ensures buf[off + total..] == old(buf[off + total..])
      ensures Spent(old(budget), Blocks(total))
      ensures if failed then status == -1
              else status == 0 && mem == Store(old(mem), addr, Image(old(buf[off..off + total])))
    {
      hide Image, Store;
      ghost var before, mem0 := buf[..], mem;
      var count: nat, at: nat := 0, addr;
      StoreNothing(mem, addr, before[off..off + total]);
      while true
        invariant !failed && count <= total && count % 4 == 0 && U32(at) == U32(addr + count)
        invariant mem == Store(mem0, addr, Image(before[off..off + total][..count]))
        invariant buf[off + count..] == before[off + count..]
        invariant old(budget) == budget + Blocks(total) - Blocks(total - count)
        decreases total - count
      {
        var size := if count + BLOCK_LENGTH > total then total - count else BLOCK_LENGTH;
        BlocksLeft(total, count, size);
        hide RoundUp, Blocks, U32;
        status := WriteNextBlock(mem0, addr, before, off, total, count, size, at, buf);
        if status != 0 {
          break;
        }
        WrapStep(addr, count, RoundUp(size), at);
        count, at := count + RoundUp(size), U32(at + RoundUp(size));
        if count >= total {
          break;
        }
      }
      Whole(before, off, total);
    }

    /** write_register with the value zero: four zero bytes. */
    method ClearRegister(addr: nat) returns (status: int)
      requires !failed
      modifies this
      ensures Spent(old(budget), 1)
      ensures if failed then status == -1 && mem == old(mem)
              else status == 0 && mem == Store(old(mem), addr, [0, 0, 0, 0])
    {
      var data := new byte[4](_ => 0);
      status := WriteBlock(addr, 4, data, 0);
      assert data[0..0 + 4] == [0, 0, 0, 0];
    }

    /** One round of the segment loop, at a place where the buffer still equals the image it was. */
    method LoadSegment(ghost img: seq<byte>, buf: array<byte>, pos: nat, ghost n: nat) returns (status: int, next: nat)
      requires !failed && n > 0 && InBounds(img, pos, n) && SameFrom(buf[..], img, pos)
      modifies this, buf
      ensures failed ==> status == -1 && old(budget) < Transfers(img, pos, n)
      ensures !failed && status != 0 ==> budget == old(budget) && Stops(img, pos, n, old(mem), status, mem)
      ensures !failed && status == 0 ==> SameFrom(buf[..], img, next)
      ensures !failed && status == 0 ==> GoesOn(img, pos, n, old(mem), old(budget), next, n - 1, mem, budget)
    {
      hide Image, Store, Excluded, GetBigEndian, RoundUp, Blocks;
      HeaderUntouched(buf[..], img, pos);
      next := pos;
      if buf[pos] != SEGMENT_HEADER_ID {
        return -EINVAL, next;
      }
      var segLength := LengthAt(buf[..], pos);
      var segAddress := AddressAt(buf[..], pos);
      status := -1;
      if !Skipped(buf[..], pos) {
        ghost var was, end := buf[..], pos + SEGMENT_HEADER_SIZE + segLength;
        assert SameFrom(was, img, pos + SEGMENT_HEADER_SIZE);
        DataUntouched(was, img, pos + SEGMENT_HEADER_SIZE, segLength);
        status := WriteFwSegment(segAddress, segLength, buf, pos + SEGMENT_HEADER_SIZE);
        TailUntouched(buf[..], was, img, pos, end, end);
      }
      if status != 0 {
        return;
      }
      next := pos + SEGMENT_HEADER_SIZE + RoundUp(segLength);
    }

    /** The segment loop. */
    method LoadSegments(ghost img: seq<byte>, buf: array<byte>, n: nat) returns (status: int)
      requires !failed && InBounds(img, FILE_HEADER_SIZE, n) && SameFrom(buf[..], img, FILE_HEADER_SIZE)
      modifies this, buf
      ensures failed <==> old(budget) < Transfers(img, FILE_HEADER_SIZE, n)
      ensures if failed then status == -1 else (status, mem) == Run(img, FILE_HEADER_SIZE, n, old(mem))
    {
      hide Store, Image, SameFrom, Skipped, LengthAt, AddressAt, After, Blocks;
      status := 0;
      var index, pos: nat := 0, FILE_HEADER_SIZE;
      while index < n
        invariant 0 <= index <= n && !failed && status == 0
        invariant GoesOn(img, FILE_HEADER_SIZE, n, old(mem), old(budget), pos, n - index, mem, budget)
        invariant SameFrom(buf[..], img, pos)
      {
        hide Run, Transfers, InBounds;
        status, pos := LoadSegment(img, buf, pos, n - index);
        if status != 0 {
          return;
        }
        index := index + 1;
      }
    }

    /** do_firmware_download: the buffer is changed while it is parsed, and the outcome is that of parsing
        the image it held at the start. */
    method DoFirmwareDownload(buf: array<byte>) returns (status: int)
      requires !failed && Loadable(buf[..])
      modifies this, buf
      ensures failed <==> old(budget) < Needed(old(buf[..]))
      ensures if failed then status == -1 else (status, mem) == Download(old(buf[..]), old(mem))
      ensures old(buf[0]) != 77 ==> !failed && status == -22 && mem == old(mem)
    {
      hide Store, Run, Transfers, InBounds;
      ghost var img := buf[..];
      if buf[0] != FILE_HEADER_ID {
        return -EINVAL;
      }
      status := ClearRegister(FW_DL_SIGN_ADDR);
      if status != 0 {
        return;
      }
      status := LoadSegments(img, buf, buf[3] as int);
    }
  }

  /** Parsing m segments from next, with this memory and this many transfers left, comes to the same as parsing n
      segments from pos with the memory and the transfers there were before. */
  ghost predicate GoesOn(img: seq<byte>, pos: nat, n: nat, before: Memory, had: nat, next: nat, m: nat, after: Memory, left: nat) {
    && InBounds(img, pos, n) && InBounds(img, next, m)
    && Run(img, next, m, after) == Run(img, pos, n, before)
    && had - Transfers(img, pos, n) == left - Transfers(img, next, m)
  }

  /** The parse ends here with an error and takes no transfer. */
  ghost predicate Stops(img: seq<byte>, pos: nat, n: nat, before: Memory, status: int, after: Memory) {
    InBounds(img, pos, n) && Run(img, pos, n, before) == (status, after) && Transfers(img, pos, n) == 0
  }

  /** The buffer still holds the image from pos on. */
  ghost predicate SameFrom(now: seq<byte>, img: seq<byte>, pos: nat) {
    |now| == |img| && forall k | pos <= k < |img| :: now[k] == img[k]
  }

  /** A block that is not full is the last one; a full one keeps the count on a dword boundary. */
  lemma BlocksLeft(total: nat, count: nat, size: nat)
    requires count <= total && count % 4 == 0
    requires size == if count + BLOCK_LENGTH > total then total - count else BLOCK_LENGTH
    ensures count + RoundUp(size) >= total <==> count + size == total
    ensures count + RoundUp(size) >= total ==> Blocks(total - count) == 1
    ensures count + RoundUp(size) < total ==>
              RoundUp(size) == size && size > 0 && (count + size) % 4 == 0 && Blocks(total - count) == 1 + Blocks(total - (count + size))
  {
  }

  lemma StoreNothing(m: Memory, addr: nat, data: seq<byte>)
    ensures Store(m, addr, Image(data[..0])) == m
  {
  }

  lemma Whole(s: seq<byte>, off: nat, total: nat)
    requires off + total <= |s|
    ensures s[off..off + total][..total] == s[off..off + total]
  {
  }

  /** Where two buffers agree from a block's start, they agree on the block and behind it. */
  lemma SameBlock(now: seq<byte>, before: seq<byte>, off: nat, total: nat, count: nat, size: nat)
    requires |now| == |before| && off + total <= |now| && count + size <= total
    requires now[off + count..] == before[off + count..]
    ensures now[off + count..off + count + size] == before[off..off + total][count..count + size]
    ensures now[off + count + size..] == before[off + count + size..]
  {
    SliceOfSlice(before, off, total, count, size);
    assert now[off + count..off + count + size] == now[off + count..][..size];
    assert before[off + count..off + count + size] == before[off + count..][..size];
    assert now[off + count + size..] == now[off + count..][size..];
    assert before[off + count + size..] == before[off + count..][size..];
  }

  lemma SliceOfSlice(s: seq<byte>, off: nat, total: nat, count: nat, size: nat)
    requires off + total <= |s| && count + size <= total
    ensures s[off..off + total][count..count + size] == s[off + count..off + count + size]
  {
    var part, direct := s[off..off + total][count..count + size], s[off + count..off + count + size];
    forall k: nat | k < size ensures part[k] == direct[k] {
      assert part[k] == s[off..off + total][count + k];
    }
  }

  lemma WrapStep(addr: nat, count: nat, size: nat, at: nat)
    requires U32(at) == U32(addr + count)
    ensures U32(U32(at + size)) == U32(addr + (count + size))
  {
  }

  /** Storing the next block at the next address extends the image stored so far. */
  lemma BlockExtends(m: Memory, addr: nat, data: seq<byte>, count: nat, size: nat, at: nat)
    requires count + size <= |data| && count % 4 == 0 && U32(at) == U32(addr + count)
    ensures Store(Store(m, addr, Image(data[..count])), at, Image(data[count..count + size])) ==
            Store(m, addr, Image(data[..count + size]))
  {
    ImageBlocks(data, count, size);
    StoreBlocks(m, addr, Image(data[..count]), Image(data[count..count + size]), at);
  }

  lemma ImageBlocks(data: seq<byte>, count: nat, size: nat)
    requires count + size <= |data| && count % 4 == 0
    ensures Image(data[..count + size]) == Image(data[..count]) + Image(data[count..count + size])
    ensures |Image(data[..count])| == count
  {
    var both := data[..count + size];
    assert both[..count] == data[..count] && both[count..] == data[count..count + size];
    ImageSplit(both, count);
    WholeDwords(data[..count]);
  }

  lemma StoreBlocks(m: Memory, addr: nat, part: seq<byte>, next: seq<byte>, at: nat)
    requires U32(at) == U32(addr + |part|)
    ensures Store(Store(m, addr, part), at, next) == Store(m, addr, part + next)
  {
    StoreJoin(m, addr, part, next);
    StoreWraps(Store(m, addr, part), at, next);
    StoreWraps(Store(m, addr, part), addr + |part|, next);
  }

  lemma WholeDwords(data: seq<byte>)
    requires |data| % 4 == 0
    ensures RoundUp(|data|) == |data| && Image(data) == Flip(data)
  {
    assert Pad(data) == data;
  }

  /** The message buffer of the segment writer: the bytes, with zeros after them. */
  method PaddedCopy(buf: array<byte>, off: nat, size: nat) returns (message: array<byte>)
    requires size <= BLOCK_LENGTH && off + size <= buf.Length
    ensures fresh(message) && message.Length == BLOCK_LENGTH && message[0..0 + RoundUp(size)] == Pad(buf[off..off + size])
  {
    message := new byte[BLOCK_LENGTH](_ => 0);
    for k := 0 to size
      invariant message[..k] == buf[off..off + k] && forall j | k <= j < BLOCK_LENGTH :: message[j] == 0
    {
      message[k] := buf[off + k];
    }
    ghost var padded := Pad(buf[off..off + size]);
    assert forall j: nat | j < size :: message[..size][j] == padded[j];
    assert forall j: nat | j < RoundUp(size) :: message[j] == padded[j];
  }

  // ---------- the image ----------

  /** The number that bytes stand for, the highest byte first. */
  function BigEndian(s: seq<byte>): (n: nat)
    ensures |s| == 0 ==> n == 0
    ensures |s| == 1 ==> n < 0x100
    ensures |s| == 2 ==> n < 0x1_0000
    ensures |s| == 3 ==> n < 0x100_0000
    ensures |s| == 4 ==> n < 0x1_0000_0000
    decreases |s|
  {
    if s == [] then 0 else 0x100 * BigEndian(s[..|s| - 1]) + s[|s| - 1] as int
  }

  /** get_big_endian: the shifted bytes do not overlap, so or-ing them adds them. */
  function GetBigEndian(numOfBits: nat, buf: seq<byte>): nat
    requires numOfBits <= 8 * |buf|
  {
    match numOfBits
    case 24 => 0x1_0000 * buf[0] as int + 0x100 * buf[1] as int + buf[2] as int
    case 32 => 0x100_0000 * buf[0] as int + 0x1_0000 * buf[1] as int + 0x100 * buf[2] as int + buf[3] as int
    case _ => 0
  }

  lemma OneMoreByte(s: seq<byte>, b: byte)
    ensures BigEndian(s + [b]) == 0x100 * BigEndian(s) + b as int
  {
    assert (s + [b])[..|s|] == s;
  }

  lemma ThreeBytes(a: byte, b: byte, c: byte)
    ensures BigEndian([a, b, c]) == 0x1_0000 * a as int + 0x100 * b as int + c as int
  {
    OneMoreByte([], a);
    OneMoreByte([a], b);
    OneMoreByte([a, b], c);
    hide BigEndian;
    assert [] + [a] == [a] && [a] + [b] == [a, b] && [a, b] + [c] == [a, b, c];
  }

  lemma FourBytes(a: byte, b: byte, c: byte, d: byte)
    ensures BigEndian([a, b, c, d]) == 0x100_0000 * a as int + 0x1_0000 * b as int + 0x100 * c as int + d as int
  {
    ThreeBytes(a, b, c);
    OneMoreByte([a, b, c], d);
    hide BigEndian;
    assert [a, b, c] + [d] == [a, b, c, d];
  }

  /** The two widths that the parser asks for give the number that the first bytes stand for. */
  lemma HighestFirst(buf: seq<byte>)
    ensures |buf| >= 3 ==> GetBigEndian(24, buf) == BigEndian(buf[..3]) < 0x100_0000
    ensures |buf| >= 4 ==> GetBigEndian(32, buf) == BigEndian(buf[..4]) < 0x1_0000_0000
  {
    hide BigEndian;
    if |buf| >= 3 {
      ThreeBytes(buf[0], buf[1], buf[2]);
      assert buf[..3] == [buf[0], buf[1], buf[2]];
    }
    if |buf| >= 4 {
      FourBytes(buf[0], buf[1], buf[2], buf[3]);
      assert buf[..4] == [buf[0], buf[1], buf[2], buf[3]];
    }
  }

  /** The two windows of addresses that are never written. */
  predicate Excluded(address: bv32) {
    (address & 0x9076_0000) == 0x9076_0000 || (address & 0x9074_0000) == 0x9074_0000
  }

  /** The first window lies inside the second. */
  lemma OneWindow(address: bv32)
    ensures Excluded(address) <==> (address & 0x9074_0000) == 0x9074_0000
  {
    assert (address & 0x9076_0000) == 0x9076_0000 ==> ((address & 0x9076_0000) & 0x9074_0000) == 0x9074_0000;
    assert ((address & 0x9076_0000) & 0x9074_0000) == (address & 0x9074_0000);
  }

  function LengthAt(img: seq<byte>, pos: nat): nat
    requires pos + SEGMENT_HEADER_SIZE <= |img|
  {
    GetBigEndian(24, img[pos + 1..pos + 4])
  }

  function AddressAt(img: seq<byte>, pos: nat): (a: nat)
    requires pos + SEGMENT_HEADER_SIZE <= |img|
    ensures a < 0x1_0000_0000
  {
    HighestFirst(img[pos + 4..pos + 8]);
    GetBigEndian(32, img[pos + 4..pos + 8])
  }

  /** The two fields of a segment header as numbers, the highest byte first. */
  lemma HeaderFields(img: seq<byte>, pos: nat)
    requires pos + SEGMENT_HEADER_SIZE <= |img|
    ensures LengthAt(img, pos) == BigEndian(img[pos + 1..pos + 4])
    ensures AddressAt(img, pos) == BigEndian(img[pos + 4..pos + 8])
  {
    var length, address := img[pos + 1..pos + 4], img[pos + 4..pos + 8];
    assert length[..3] == length && address[..4] == address;
    HighestFirst(length);
    HighestFirst(address);
    hide BigEndian, GetBigEndian;
  }

  function After(img: seq<byte>, pos: nat): nat
    requires pos + SEGMENT_HEADER_SIZE <= |img|
  {
    pos + SEGMENT_HEADER_SIZE + RoundUp(LengthAt(img, pos))
  }

  predicate Skips(address: nat)
    requires address < 0x1_0000_0000
  {
    Excluded(address as bv32)
  }

  predicate Skipped(img: seq<byte>, pos: nat)
    requires pos + SEGMENT_HEADER_SIZE <= |img|
  {
    Skips(AddressAt(img, pos))
  }

  lemma SkipsExactly(address: nat)
    requires address < 0x1_0000_0000
    ensures Skips(address) <==> ((address as bv32) & 0x9074_0000) == 0x9074_0000
  {
    var word := address as bv32;
    OneWindow(word);
    hide Excluded;
  }

  /** The n segments from pos lie inside the image as far as the parser reads it. The code does not compare
      anything with the size of its buffer, so this is what it asks of its caller. */
  ghost predicate InBounds(img: seq<byte>, pos: nat, n: nat)
    decreases n
  {
    n == 0 ||
    (&& pos + SEGMENT_HEADER_SIZE <= |img|
     && (img[pos] == SEGMENT_HEADER_ID && !Skipped(img, pos) ==>
           pos + SEGMENT_HEADER_SIZE + LengthAt(img, pos) <= |img| && InBounds(img, After(img, pos), n - 1)))
  }

  /** What loading n segments from pos comes to, read off an image that nothing changes. */
  function Run(img: seq<byte>, pos: nat, n: nat, mem: Memory): (int, Memory)
    requires InBounds(img, pos, n)
    decreases n
  {
    if n == 0 then (0, mem)
    else if img[pos] != SEGMENT_HEADER_ID then (-EINVAL, mem)
    else if Skipped(img, pos) then (-1, mem)
    else
      var start, size := pos + SEGMENT_HEADER_SIZE, LengthAt(img, pos);
      Run(img, After(img, pos), n - 1, Store(mem, AddressAt(img, pos), Image(img[start..start + size])))
  }

  /** How many transfers that takes. */
  function Transfers(img: seq<byte>, pos: nat, n: nat): nat
    requires InBounds(img, pos, n)
    decreases n
  {
    if n == 0 || img[pos] != SEGMENT_HEADER_ID || Skipped(img, pos) then 0
    else Blocks(LengthAt(img, pos)) + Transfers(img, After(img, pos), n - 1)
  }

  ghost predicate Loadable(img: seq<byte>) {
    |img| > 0 && (img[0] == FILE_HEADER_ID ==> |img| >= 4 && InBounds(img, FILE_HEADER_SIZE, img[3] as int))
  }

  function Download(img: seq<byte>, mem: Memory): (int, Memory)
    requires Loadable(img)
  {
    if img[0] != FILE_HEADER_ID then (-EINVAL, mem)
    else Run(img, FILE_HEADER_SIZE, img[3] as int, Store(mem, FW_DL_SIGN_ADDR, [0, 0, 0, 0]))
  }

  /** The transfers of a whole download, the clearing of the signature included. */
  function Needed(img: seq<byte>): nat
    requires Loadable(img)
  {
    if img[0] != FILE_HEADER_ID then 0 else 1 + Transfers(img, FILE_HEADER_SIZE, img[3] as int)
  }

  lemma FieldsUntouched(now: seq<byte>, img: seq<byte>, pos: nat)
    requires SameFrom(now, img, pos) && pos + SEGMENT_HEADER_SIZE <= |img|
    ensures now[pos] == img[pos] && now[pos + 1..pos + 4] == img[pos + 1..pos + 4]
    ensures now[pos + 4..pos + 8] == img[pos + 4..pos + 8]
  {
  }

  lemma HeaderUntouched(now: seq<byte>, img: seq<byte>, pos: nat)
    requires SameFrom(now, img, pos) && pos + SEGMENT_HEADER_SIZE <= |img|
    ensures now[pos] == img[pos] && LengthAt(now, pos) == LengthAt(img, pos)
    ensures AddressAt(now, pos) == AddressAt(img, pos) && Skipped(now, pos) == Skipped(img, pos)
  {
    FieldsUntouched(now, img, pos);
    hide SameFrom, Skips, GetBigEndian;
    SkippedBy(now, img, pos);
  }

  lemma SkippedBy(now: seq<byte>, img: seq<byte>, pos: nat)
    requires |now| == |img| && pos + SEGMENT_HEADER_SIZE <= |img|
    ensures AddressAt(now, pos) == AddressAt(img, pos) ==> Skipped(now, pos) == Skipped(img, pos)
  {
    hide AddressAt, Skips;
  }

  lemma DataUntouched(now: seq<byte>, img: seq<byte>, pos: nat, size: nat)
    requires SameFrom(now, img, pos) && pos + size <= |img|
    ensures now[pos..pos + size] == img[pos..pos + size]
  {
  }

  lemma TailUntouched(now: seq<byte>, was: seq<byte>, img: seq<byte>, pos: nat, end: nat, next: nat)
    requires SameFrom(was, img, pos) && |now| == |was| && pos <= end <= |img| && end <= next
    requires now[end..] == was[end..]
    ensures SameFrom(now, img, next)
  {
    forall k | next <= k < |img| ensures now[k] == img[k] {
      assert now[k] == now[end..][k - end] == was[end..][k - end];
    }
  }

  // ---------- what a download leaves in the device ----------

  datatype Segment = Segment(address: nat, data: seq<byte>)

  /** The image holds this segment at pos: its mark, the length in three bytes, the address in four, and the data. */
  ghost predicate HoldsOne(img: seq<byte>, pos: nat, s: Segment) {
    && pos + 8 + |s.data| <= |img| && img[pos] == 83
    && BigEndian(img[pos + 1..pos + 4]) == |s.data| && BigEndian(img[pos + 4..pos + 8]) == s.address
    && img[pos + 8..pos + 8 + |s.data|] == s.data
  }

  /** The image holds these segments from pos on; the bytes that fill a segment up to a dword are arbitrary. */
  ghost predicate Holds(img: seq<byte>, pos: nat, segs: seq<Segment>)
    decreases |segs|
  {
    segs == [] ||
    (HoldsOne(img, pos, segs[0]) && Holds(img, pos + 8 + RoundUp(|segs[0].data|), segs[1..]))
  }

  /** Where the segments that start at pos end. */
  function EndOf(pos: nat, segs: seq<Segment>): nat
    decreases |segs|
  {
    if segs == [] then pos else EndOf(pos + 8 + RoundUp(|segs[0].data|), segs[1..])
  }

  ghost predicate Writable(s: Segment) {
    s.address < 0x1_0000_0000 && |s.data| < 0x100_0000 && ((s.address as bv32) & 0x9074_0000) != 0x9074_0000
  }

  ghost predicate AllWritable(segs: seq<Segment>) {
    forall i | 0 <= i < |segs| :: Writable(segs[i])
  }

  /** The segments stored one after the other. */
  function Loaded(mem: Memory, segs: seq<Segment>): Memory
    decreases |segs|
  {
    if segs == [] then mem else Loaded(Store(mem, segs[0].address, Image(segs[0].data)), segs[1..])
  }

  lemma HeaderOf(img: seq<byte>, pos: nat, s: Segment)
    requires HoldsOne(img, pos, s)
    ensures pos + SEGMENT_HEADER_SIZE + |s.data| <= |img| && img[pos] == SEGMENT_HEADER_ID
    ensures LengthAt(img, pos) == |s.data| && AddressAt(img, pos) == s.address
    ensures After(img, pos) == pos + 8 + RoundUp(|s.data|)
    ensures img[pos + SEGMENT_HEADER_SIZE..pos + SEGMENT_HEADER_SIZE + |s.data|] == s.data
  {
    HeaderFields(img, pos);
    hide BigEndian, LengthAt, AddressAt, RoundUp;
  }

  lemma NotSkipped(img: seq<byte>, pos: nat, s: Segment)
    requires pos + SEGMENT_HEADER_SIZE <= |img| && Writable(s) && AddressAt(img, pos) == s.address
    ensures !Skipped(img, pos)
  {
    SkipsExactly(s.address);
    hide AddressAt, Skips, BigEndian;
  }

  /** The transfers that segments take. */
  function AllBlocks(segs: seq<Segment>): nat
    decreases |segs|
  {
    if segs == [] then 0 else Blocks(|segs[0].data|) + AllBlocks(segs[1..])
  }

  /** Parsing a segment that is not refused is storing its bytes and parsing what follows. */
  lemma StepOver(img: seq<byte>, pos: nat, n: nat, mem: Memory)
    requires pos + SEGMENT_HEADER_SIZE <= |img| && img[pos] == SEGMENT_HEADER_ID && !Skipped(img, pos)
    requires pos + SEGMENT_HEADER_SIZE + LengthAt(img, pos) <= |img| && InBounds(img, After(img, pos), n)
    ensures var start, size := pos + SEGMENT_HEADER_SIZE, LengthAt(img, pos);
            GoesOn(img, pos, n + 1, mem, Blocks(size), After(img, pos), n,
                   Store(mem, AddressAt(img, pos), Image(img[start..start + size])), 0)
  {
    hide Image, Store, RoundUp, Skipped, AddressAt, LengthAt, Blocks, After;
  }

  lemma RunOne(img: seq<byte>, pos: nat, s: Segment, n: nat, mem: Memory)
    requires HoldsOne(img, pos, s) && Writable(s) && InBounds(img, pos + 8 + RoundUp(|s.data|), n)
    ensures GoesOn(img, pos, n + 1, mem, Blocks(|s.data|),
                   pos + 8 + RoundUp(|s.data|), n, Store(mem, s.address, Image(s.data)), 0)
  {
    hide *;
    HeaderOf(img, pos, s);
    NotSkipped(img, pos, s);
    StepOver(img, pos, n, mem);
  }

  /** Writable segments are stored one after the other, and the parser goes on behind them. */
  lemma {:induction false} RunLoads(img: seq<byte>, pos: nat, segs: seq<Segment>, n: nat, mem: Memory)
    requires Holds(img, pos, segs) && AllWritable(segs) && InBounds(img, EndOf(pos, segs), n)
    ensures GoesOn(img, pos, |segs| + n, mem, AllBlocks(segs), EndOf(pos, segs), n, Loaded(mem, segs), 0)
    decreases |segs|
  {
    hide Image, Store, RoundUp, Writable, Blocks, HoldsOne, InBounds, Run, Transfers;
    if segs != [] {
      var next, mem' := pos + 8 + RoundUp(|segs[0].data|), Store(mem, segs[0].address, Image(segs[0].data));
      assert Writable(segs[0]);
      RunLoads(img, next, segs[1..], n, mem');
      RunOne(img, pos, segs[0], |segs[1..]| + n, mem);
    }
  }

  /** What follows at pos is no segment, or one for the excluded addresses, and the parser says so. */
  ghost predicate Refused(img: seq<byte>, pos: nat, status: int) {
    && pos + 8 <= |img|
    && if img[pos] != 83 then status == -22
       else status == -1 && ((BigEndian(img[pos + 4..pos + 8]) as bv32) & 0x9074_0000) == 0x9074_0000
  }

  lemma RunStops(img: seq<byte>, pos: nat, n: nat, mem: Memory, status: int)
    requires Refused(img, pos, status) && n > 0
    ensures InBounds(img, pos, n) && Run(img, pos, n, mem) == (status, mem) && Transfers(img, pos, n) == 0
  {
    if img[pos] == 83 {
      HeaderFields(img, pos);
      SkipsExactly(AddressAt(img, pos));
      hide Skips, BigEndian, AddressAt, LengthAt, Store;
    }
  }

  /** Loading s writes cell c. */
  ghost predicate Covers(s: Segment, c: nat) {
    Touches(s.address, RoundUp(|s.data|), c)
  }

  ghost predicate NoneCovers(segs: seq<Segment>, c: nat) {
    forall i | 0 <= i < |segs| :: !Covers(segs[i], c)
  }

  lemma {:induction false} LoadedElsewhere(mem: Memory, segs: seq<Segment>, c: nat)
    requires NoneCovers(segs, c)
    ensures c in Loaded(mem, segs) <==> c in mem
    ensures c in mem ==> Loaded(mem, segs)[c] == mem[c]
    decreases |segs|
  {
    hide Image, Store, RoundUp, Touches;
    if segs != [] {
      var next := Store(mem, segs[0].address, Image(segs[0].data));
      ImageLength(segs[0].data);
      assert !Covers(segs[0], c);
      StoreElsewhere(mem, segs[0].address, Image(segs[0].data), c);
      LoadedElsewhere(next, segs[1..], c);
    }
  }

  lemma ImageLength(data: seq<byte>)
    ensures |Image(data)| == RoundUp(|data|)
  {
  }

  /** Reversed within its dword, with zeros behind the last byte. */
  lemma ImageAt(data: seq<byte>, k: nat)
    requires k < RoundUp(|data|)
    ensures k < |Image(data)| && Image(data)[k] == if Mirror(k) < |data| then data[Mirror(k)] else 0
  {
    MirrorStays(k, RoundUp(|data|));
  }

  /** No two segments write the same cell. */
  ghost predicate Apart(segs: seq<Segment>) {
    forall i, j, c: nat | 0 <= i < j < |segs| :: !(Covers(segs[i], c) && Covers(segs[j], c))
  }

  lemma {:induction false} LoadedReads(mem: Memory, segs: seq<Segment>, i: nat, k: nat)
    requires i < |segs| && Apart(segs) && AllWritable(segs) && k < RoundUp(|segs[i].data|)
    ensures var c := Cell(segs[i].address, k);
            c in Loaded(mem, segs) && k < |Image(segs[i].data)| && Loaded(mem, segs)[c] == Image(segs[i].data)[k]
    decreases |segs|
  {
    var next, c := Store(mem, segs[0].address, Image(segs[0].data)), Cell(segs[i].address, k);
    ImageLength(segs[i].data);
    assert Writable(segs[i]);
    LengthFits(|segs[i].data|);
    hide *;
    if i == 0 {
      StoreReads(mem, segs[0].address, Image(segs[0].data), k);
      OthersElsewhere(segs, k);
      LoadedElsewhere(next, segs[1..], c);
      LoadedStep(mem, segs);
    } else {
      ApartRest(segs);
      LoadedReads(next, segs[1..], i - 1, k);
      LoadedStep(mem, segs);
    }
  }

  lemma LengthFits(n: nat)
    requires n < 0x100_0000
    ensures RoundUp(n) <= 0x1_0000_0000
  {
  }

  lemma LoadedStep(mem: Memory, segs: seq<Segment>)
    requires segs != []
    ensures Loaded(mem, segs) == Loaded(Store(mem, segs[0].address, Image(segs[0].data)), segs[1..])
  {
  }

  lemma ApartRest(segs: seq<Segment>)
    requires segs != [] && Apart(segs) && AllWritable(segs)
    ensures Apart(segs[1..]) && AllWritable(segs[1..])
  {
    hide Covers, Writable;
    forall i, j, c: nat | 0 <= i < j < |segs[1..]| ensures !(Covers(segs[1..][i], c) && Covers(segs[1..][j], c)) {
      assert !(Covers(segs[i + 1], c) && Covers(segs[j + 1], c));
    }
  }

  lemma OthersElsewhere(segs: seq<Segment>, k: nat)
    requires segs != [] && Apart(segs) && k < RoundUp(|segs[0].data|)
    ensures NoneCovers(segs[1..], Cell(segs[0].address, k))
  {
    var c := Cell(segs[0].address, k);
    assert Covers(segs[0], c);
    hide Covers;
    forall i | 0 <= i < |segs[1..]| ensures !Covers(segs[1..][i], c) {
      assert !(Covers(segs[0], c) && Covers(segs[i + 1], c));
    }
  }

  /** The signature register, which every download clears first. */
  const SIGN := Segment(0x3fff_eae0, [0, 0, 0, 0])

  /** The memory has every cell of every segment, unless two of them share one, with the byte that the image has for
      it, and a signature register that is zero; no other cell is changed. */
  ghost predicate Delivered(mem: Memory, segs: seq<Segment>, was: Memory) {
    && (Apart(segs) ==> forall i, k: nat | 0 <= i < |segs| && k < RoundUp(|segs[i].data|) :: Holding(mem, segs[i], k))
    && (forall k: nat | k < 4 && NoneCovers(segs, Cell(SIGN.address, k)) :: Holding(mem, SIGN, k))
    && forall c: nat | NoneCovers(segs, c) && !Covers(SIGN, c) :: Same(mem, was, c)
  }

  lemma DownloadGoesOn(img: seq<byte>, segs: seq<Segment>, rest: nat, mem: Memory)
    requires |img| >= 16 && img[0] == 77 && img[3] as int == |segs| + rest
    requires Holds(img, 16, segs) && AllWritable(segs) && InBounds(img, EndOf(16, segs), rest)
    ensures Loadable(img) && Needed(img) == 1 + AllBlocks(segs) + Transfers(img, EndOf(16, segs), rest)
    ensures Download(img, mem) == Run(img, EndOf(16, segs), rest, Loaded(Store(mem, SIGN.address, SIGN.data), segs))
  {
    RunLoads(img, 16, segs, rest, Store(mem, SIGN.address, SIGN.data));
    hide Loaded, Store, Run, Transfers, InBounds, AllBlocks, EndOf, Holds, AllWritable;
  }

  /** A well-formed image, completely transferred: the loader reports success and delivers all the segments. */
  lemma DownloadIsComplete(img: seq<byte>, segs: seq<Segment>, mem: Memory)
    requires |img| >= 16 && img[0] == 77 && img[3] as int == |segs|
    requires Holds(img, 16, segs) && AllWritable(segs)
    ensures Loadable(img) && Download(img, mem).0 == 0 && Needed(img) == 1 + AllBlocks(segs)
    ensures Delivered(Download(img, mem).1, segs, mem)
  {
    hide Loaded, Store, AllBlocks, EndOf, Holds, AllWritable, Delivered, Download, Needed, Loadable;
    DownloadGoesOn(img, segs, 0, mem);
    LoadedDelivers(segs, mem);
  }

  /** The first thing in the image that is not a segment ends the download with -EINVAL, and the first segment for the
      excluded addresses with -1. What was delivered is exactly the segments before it. */
  lemma DownloadStops(img: seq<byte>, segs: seq<Segment>, mem: Memory, status: int)
    requires |img| >= 16 && img[0] == 77 && img[3] as int > |segs|
    requires Holds(img, 16, segs) && AllWritable(segs) && Refused(img, EndOf(16, segs), status)
    ensures Loadable(img) && Download(img, mem).0 == status && Needed(img) == 1 + AllBlocks(segs)
    ensures Delivered(Download(img, mem).1, segs, mem)
  {
    var rest := img[3] as int - |segs|;
    hide *;
    RunStops(img, EndOf(16, segs), rest, Loaded(Store(mem, SIGN.address, SIGN.data), segs), status);
    DownloadGoesOn(img, segs, rest, mem);
    LoadedDelivers(segs, mem);
  }

  lemma LoadedDelivers(segs: seq<Segment>, mem: Memory)
    requires AllWritable(segs)
    ensures Delivered(Loaded(Store(mem, SIGN.address, SIGN.data), segs), segs, mem)
  {
    var cleared := Store(mem, SIGN.address, SIGN.data);
    hide Loaded, Image, Store, Covers, NoneCovers, Apart, AllWritable, Holding;
    if Apart(segs) {
      forall i, k: nat | 0 <= i < |segs| && k < RoundUp(|segs[i].data|)
        ensures Holding(Loaded(cleared, segs), segs[i], k)
      {
        LoadedHolds(cleared, segs, i, k);
      }
    }
    forall k: nat | k < 4 && NoneCovers(segs, Cell(SIGN.address, k)) ensures Holding(Loaded(cleared, segs), SIGN, k) {
      SignCleared(mem, k);
      LoadedElsewhere(cleared, segs, Cell(SIGN.address, k));
      assert Same(Loaded(cleared, segs), cleared, Cell(SIGN.address, k));
      HoldingStays(cleared, Loaded(cleared, segs), SIGN, k);
    }
    forall c: nat | NoneCovers(segs, c) && !Covers(SIGN, c) ensures Same(Loaded(cleared, segs), mem, c) {
      LoadedElsewhere(cleared, segs, c);
      SignElsewhere(mem, c);
      SameStays(Loaded(cleared, segs), cleared, mem, c);
    }
  }

  lemma LoadedHolds(mem: Memory, segs: seq<Segment>, i: nat, k: nat)
    requires i < |segs| && Apart(segs) && AllWritable(segs) && k < RoundUp(|segs[i].data|)
    ensures Holding(Loaded(mem, segs), segs[i], k)
  {
    hide Loaded, Image, Apart, AllWritable, RoundUp;
    LoadedReads(mem, segs, i, k);
    ImageAt(segs[i].data, k);
  }

  lemma SignCleared(mem: Memory, k: nat)
    requires k < 4
    ensures Holding(Store(mem, SIGN.address, SIGN.data), SIGN, k)
  {
    hide Store, Cell;
    StoreReads(mem, SIGN.address, SIGN.data, k);
    assert Mirror(k) < 4;
  }

  lemma HoldingStays(before: Memory, after: Memory, s: Segment, k: nat)
    requires Holding(before, s, k) && Same(after, before, Cell(s.address, k))
    ensures Holding(after, s, k)
  {
  }

  lemma SameStays(after: Memory, between: Memory, before: Memory, c: nat)
    requires Same(between, before, c) && (c in after <==> c in between) && (c in between ==> after[c] == between[c])
    ensures Same(after, before, c)
  {
  }

  lemma SignElsewhere(mem: Memory, c: nat)
    requires !Covers(SIGN, c)
    ensures Same(Store(mem, SIGN.address, SIGN.data), mem, c)
  {
    assert RoundUp(4) == 4;
    StoreElsewhere(mem, SIGN.address, SIGN.data, c);
  }

  /** Byte k of the segment's place in the device: the byte of its mirrored position, or a filling zero. */
  ghost predicate Holding(mem: Memory, s: Segment, k: nat) {
    && Cell(s.address, k) in mem
    && mem[Cell(s.address, k)] == if Mirror(k) < |s.data| then s.data[Mirror(k)] else 0
  }

  ghost predicate Same(mem: Memory, was: Memory, c: nat) {
    (c in mem <==> c in was) && (c in was ==> mem[c] == was[c])
  }
}
