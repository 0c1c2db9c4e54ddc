/** The shadow memory of the heap checker: two bits for every four bytes of a pool. */
module Lms {
  import opened Basics

  const CELL_BYTES: nat := 4         // LMS_MEM_BYTES_PER_SHADOW_CELL
  const BYTES_PER_SHADOW: nat := 16  // LMS_SHADOW_U8_REFER_BYTES
  const POOL_ALIGN: nat := 64        // POOL_ADDR_ALIGNSIZE

  // ------------------------------------------------------------ cells of a shadow byte

  function Cell(b: bv8, j: nat): (v: bv8)
    requires j < 4
  {
    (b >> (2 * j)) & 3
  }

  /** The mask of the cells `c0` to `c1`: shifts of 0xFF by two bits per cell. */
  function Span(c0: nat, c1: nat): (m: bv8)
    requires c0 < 4 && c1 < 4
  {
    ((0xFF as bv8) << (2 * c0)) & !((0xFF as bv8) << (2 * c1 + 2))
  }

  function Blend(b: bv8, value: bv8, mask: bv8): (r: bv8) {
    (b & !mask) | (value & mask)
  }

  lemma {:induction false} SpanCells(c0: nat, c1: nat, j: nat)
    requires c0 < 4 && c1 < 4 && j < 4
    ensures Cell(Span(c0, c1), j) == if c0 <= j <= c1 then 3 else 0
  {
  }

  lemma {:induction false} BlendCells(b: bv8, value: bv8, mask: bv8, j: nat)
    requires j < 4
    ensures Cell(mask, j) == 3 ==> Cell(Blend(b, value, mask), j) == Cell(value, j)
    ensures Cell(mask, j) == 0 ==> Cell(Blend(b, value, mask), j) == Cell(b, j)
  {
  }

  /** Writing `value` under the mask of the cells `c0` to `c1` sets those cells and no other. */
  lemma {:induction false} BlendSpan(b: bv8, value: bv8, c0: nat, c1: nat, j: nat)
    requires c0 < 4 && c1 < 4 && j < 4
    ensures Cell(Blend(b, value, Span(c0, c1)), j) == if c0 <= j <= c1 then Cell(value, j) else Cell(b, j)
  {
    SpanCells(c0, c1, j);
    BlendCells(b, value, Span(c0, c1), j);
    hide Cell, Span, Blend;
  }

  /** A byte whose four cells carry the same mark: 0x00, 0x55, 0xAA and 0xFF. */
  ghost predicate Uniform(value: bv8, mark: bv8) {
    forall j :: 0 <= j < 4 ==> Cell(value, j) == mark
  }

  lemma {:induction false} Marks()
    ensures Uniform(0x00, 0) && Uniform(0xFF, 3) && Uniform(0xAA, 2) && Uniform(0x55, 1)
  {
  }

  // ------------------------------------------------------------ pools

  /** `size` usable bytes from `addr`, then the shadow bytes. */
  datatype Pool = Pool(addr: nat, size: nat, shadowSize: nat)
  {
    predicate Contains(a: int) { addr <= a < addr + size }
  }

  /** OsLmsPoolResize. */
  function Resize(size: nat): (r: nat) {
    var r := size / (BYTES_PER_SHADOW + 1) * BYTES_PER_SHADOW;
    r - r % POOL_ALIGN
  }

  /** The node LOS_LmsCheckPoolAdd records for `size` bytes at `addr`. */
  function NewPool(addr: nat, size: nat): (p: Pool)
    requires Resize(size) <= size
  {
    Pool(addr, Resize(size), size - Resize(size))
  }

  /** What OsLmsMem2Shadow computes: the shadow byte and the cell in it. */
  function Mem2Shadow(p: Pool, a: int): (r: Option<(nat, nat)>) {
    if !p.Contains(a) then None
    else Some(((a - p.addr) / BYTES_PER_SHADOW, (a - p.addr) % BYTES_PER_SHADOW / CELL_BYTES))
  }

  /** For every size the shadow byte of every usable address lies in the reserved area. */
  lemma {:induction false} ShadowFits(addr: nat, size: nat)
    ensures Resize(size) <= size
    ensures forall a :: NewPool(addr, size).Contains(a) ==>
              Mem2Shadow(NewPool(addr, size), a).value.0 < NewPool(addr, size).shadowSize
  {
    var n := size / 17;
    var r := Resize(size);
    assert r <= n * 16 && 17 * n <= size;
    forall a | NewPool(addr, size).Contains(a) ensures (a - addr) / 16 < size - r {
      assert (a - addr) / 16 <= (r - 1) / 16 < n;
    }
  }

  // ------------------------------------------------------------ marking

  /** No pool of more units of 64 bytes would have fitted with its shadow. */
  lemma {:induction false} ResizeMaximal(size: nat, n: nat)
    ensures Resize(size) % POOL_ALIGN == 0
    ensures POOL_ALIGN * n + POOL_ALIGN * n / BYTES_PER_SHADOW <= size <==> POOL_ALIGN * n <= Resize(size)
  {
    var m := size / 17;
    assert 64 * n / 16 == 4 * n;
    assert Resize(size) == 64 * (m / 4);
    assert n <= m / 4 <==> 4 * n <= m;
    assert 4 * n <= m <==> 68 * n <= size;
  }

  /** The cells of a shadow area, numbered from the start of the pool. */
  function CellAt(s: seq<bv8>, c: nat): (v: bv8)
    requires c < 4 * |s|
  {
    Cell(s[c / 4], c % 4)
  }

  /** The cell of an address. */
  function CellOf(p: Pool, a: int): (c: nat)
    requires p.Contains(a)
  {
    (a - p.addr) / CELL_BYTES
  }

  lemma {:induction false} ShadowOfCell(p: Pool, a: int)
    requires p.Contains(a)
    ensures Mem2Shadow(p, a) == Some((CellOf(p, a) / 4, CellOf(p, a) % 4))
  {
    var off := a - p.addr;
    assert off / 16 == off / 4 / 4 && off % 16 / 4 == off / 4 % 4;
  }

  /** All cells from `lo` to `hi` carry the mark, the others are as before. */
  ghost predicate MarkedTo(was: seq<bv8>, now: seq<bv8>, lo: int, hi: int, mark: bv8) {
    && |now| == |was|
    && forall c :: 0 <= c < 4 * |was| ==> CellAt(now, c) == if lo <= c <= hi then mark else CellAt(was, c)
  }

  /** Writing cells `c0` to `c1` of byte `i`. */
  lemma {:induction false} MarkByte(was: seq<bv8>, i: nat, value: bv8, mark: bv8, c0: nat, c1: nat)
    requires i < |was| && c0 < 4 && c1 < 4 && Uniform(value, mark)
    ensures MarkedTo(was, was[i := Blend(was[i], value, Span(c0, c1))], 4 * i + c0, 4 * i + c1, mark)
  {
    hide Cell, Span, Blend;
    var now := was[i := Blend(was[i], value, Span(c0, c1))];
    forall c | 0 <= c < 4 * |was| ensures CellAt(now, c) == if 4 * i + c0 <= c <= 4 * i + c1 then mark else CellAt(was, c) {
      BlendSpan(was[i], value, c0, c1, c % 4);
    }
  }

  /** Marking the two ends of a run and then its middle marks the run. */
  lemma {:induction false} MarkJoin(s0: seq<bv8>, s1: seq<bv8>, s2: seq<bv8>, s3: seq<bv8>,
                                    lo: int, x: int, y: int, hi: int, mark: bv8)
    requires MarkedTo(s0, s1, lo, x - 1, mark) && MarkedTo(s1, s2, y, hi, mark) && MarkedTo(s2, s3, x, y - 1, mark)
    requires lo <= x <= y <= hi + 1
    ensures MarkedTo(s0, s3, lo, hi, mark)
  {
    hide Cell;
  }

  /** memset on whole shadow bytes. */
  method Fill(mem: array<bv8>, from: nat, to: nat, value: bv8, ghost mark: bv8)
    requires from <= to <= mem.Length && Uniform(value, mark)
    modifies mem
    ensures MarkedTo(old(mem[..]), mem[..], 4 * from, 4 * to - 1, mark)
  {
    for i := from to to
      invariant forall j :: 0 <= j < mem.Length ==> mem[j] == if from <= j < i then value else old(mem[j])
    {
      mem[i] := value;
    }
    ghost var now := mem[..];
    forall c | 0 <= c < 4 * mem.Length
      ensures CellAt(now, c) == if 4 * from <= c <= 4 * to - 1 then mark else CellAt(old(mem[..]), c)
    {
      assert now[c / 4] == mem[c / 4];
    }
  }

  /** `*shadow &= ~mask; *shadow |= value & mask`. */
  method WriteCells(mem: array<bv8>, i: nat, value: bv8, c0: nat, c1: nat, ghost mark: bv8)
    requires i < mem.Length && c0 < 4 && c1 < 4 && Uniform(value, mark)
    modifies mem
    ensures MarkedTo(old(mem[..]), mem[..], 4 * i + c0, 4 * i + c1, mark)
  {
    hide Cell, Span, Blend;
    MarkByte(mem[..], i, value, mark, c0, c1);
    mem[i] := Blend(mem[i], value, Span(c0, c1));
    assert mem[..] == old(mem[..])[i := Blend(old(mem[i]), value, Span(c0, c1))];
  }

  /** OsLmsSetShadowValue: exactly the cells from that of `start` to that of `end - 1` get the mark;
      nothing changes when either is outside the pool. */
  method SetShadowValue(p: Pool, mem: array<bv8>, start: nat, end: nat, value: bv8, ghost mark: bv8)
    requires start <= end && Uniform(value, mark)
    requires forall a :: p.Contains(a) ==> Mem2Shadow(p, a).value.0 < mem.Length
    modifies mem
    ensures p.Contains(start) && p.Contains(end - 1) ==>
              MarkedTo(old(mem[..]), mem[..], CellOf(p, start), CellOf(p, end - 1), mark)
    ensures !(p.Contains(start) && p.Contains(end - 1)) ==> mem[..] == old(mem[..])
  {
    hide Cell, Span, Blend, MarkedTo, Uniform;
    var first := Mem2Shadow(p, start);
    var last := Mem2Shadow(p, end - 1);
    if first.None? || last.None? {
      return;
    }
    ShadowOfCell(p, start);
    ShadowOfCell(p, end - 1);
    var (b0, c0) := first.value;
    var (b1, c1) := last.value;
    if b0 == b1 {
      WriteCells(mem, b0, value, c0, c1, mark);
    } else {
      ghost var lo, hi := 4 * b0 + c0, 4 * b1 + c1;
      ghost var s0 := mem[..];
      if c0 > 0 {
        WriteCells(mem, b0, value, c0, 3, mark);
        b0 := b0 + 1;
      }
      ghost var s1 := mem[..];
      ghost var x: int := 4 * b0;
      assert MarkedTo(s0, s1, lo, x - 1, mark) by { MarkNone(s0, lo, mark); }
      ghost var y: int := 4 * b1;
      if c1 < 3 {
        WriteCells(mem, b1, value, 0, c1, mark);
        b1 := b1 - 1;
      } else {
        y := hi + 1;
      }
      ghost var s2 := mem[..];
      assert MarkedTo(s1, s2, y, hi, mark) by { MarkNone(s1, y, mark); }
      if b1 + 1 > b0 {
        Fill(mem, b0, b1 + 1, value, mark);
      }
      assert MarkedTo(s2, mem[..], x, y - 1, mark) by { MarkNone(s2, x, mark); }
      MarkJoin(s0, s1, s2, mem[..], lo, x, y, hi, mark);
    }
  }

  lemma {:induction false} MarkNone(s: seq<bv8>, lo: int, mark: bv8)
    ensures MarkedTo(s, s, lo, lo - 1, mark)
  {
    hide Cell;
  }

  /** OsLmsGetShadowValue for an address in the pool. */
  function GetShadowValue(p: Pool, s: seq<bv8>, a: int): (v: bv8)
    requires p.Contains(a) && Mem2Shadow(p, a).value.0 < |s|
  {
    var (i, c) := Mem2Shadow(p, a).value;
    (s[i] >> (2 * c)) & 3
  }

  /** Reading back: after marking, an address shows the mark exactly if its cell overlaps the range. */
  lemma {:induction false} MarkReadsBack(p: Pool, was: seq<bv8>, now: seq<bv8>, start: nat, end: nat, mark: bv8, a: int)
    requires p.Contains(start) && p.Contains(end - 1) && p.Contains(a) && start < end
    requires forall b :: p.Contains(b) ==> Mem2Shadow(p, b).value.0 < |was|
    requires MarkedTo(was, now, CellOf(p, start), CellOf(p, end - 1), mark)
    ensures GetShadowValue(p, now, a) ==
              if CellOf(p, start) <= CellOf(p, a) <= CellOf(p, end - 1) then mark else GetShadowValue(p, was, a)
  {
    ShadowOfCell(p, a);
    var c := CellOf(p, a);
    assert CellAt(now, c) == GetShadowValue(p, now, a);
    assert CellAt(was, c) == GetShadowValue(p, was, a);
    hide Cell;
  }

  // ------------------------------------------------------------ marking heap nodes

  const ACCESSIBLE: bv8 := 0  // LMS_SHADOW_ACCESSIBLE
  const PAINT: bv8 := 1       // LMS_SHADOW_PAINT
  const REDZONE: bv8 := 2     // LMS_SHADOW_REDZONE
  const AFTERFREE: bv8 := 3   // LMS_SHADOW_AFTERFREE

  predicate OnCell(p: Pool, a: int) { (a - p.addr) % CELL_BYTES == 0 }

  lemma {:induction false} WholeCells(p: Pool, start: nat, end: nat, a: int)
    requires p.Contains(start) && p.Contains(end - 1) && p.Contains(a) && OnCell(p, start) && OnCell(p, end)
    ensures CellOf(p, start) <= CellOf(p, a) <= CellOf(p, end - 1) <==> start <= a < end
  {
    var x, y, z := start - p.addr, end - p.addr, a - p.addr;
    assert x == 4 * (x / 4) && y == 4 * (y / 4) && 4 * (z / 4) <= z < 4 * (z / 4) + 4;
    assert (y - 1) / 4 == y / 4 - 1;
  }

  /** Marking `start` to `end`, on cell boundaries, is seen at exactly those addresses. */
  ghost predicate Painted(p: Pool, was: seq<bv8>, now: seq<bv8>, start: int, end: int, mark: bv8)
    requires |was| == |now| && forall a :: p.Contains(a) ==> Mem2Shadow(p, a).value.0 < |was|
  {
    forall a | p.Contains(a) ::
      GetShadowValue(p, now, a) == if start <= a < end then mark else GetShadowValue(p, was, a)
  }

  lemma {:induction false} MarkedIsPainted(p: Pool, was: seq<bv8>, now: seq<bv8>, start: nat, end: nat, mark: bv8)
    requires p.Contains(start) && p.Contains(end - 1) && start < end && OnCell(p, start) && OnCell(p, end)
    requires forall a :: p.Contains(a) ==> Mem2Shadow(p, a).value.0 < |was|
    requires MarkedTo(was, now, CellOf(p, start), CellOf(p, end - 1), mark)
    ensures |now| == |was| && Painted(p, was, now, start, end, mark)
  {
    forall a | p.Contains(a)
      ensures GetShadowValue(p, now, a) == if start <= a < end then mark else GetShadowValue(p, was, a)
    {
      WholeCells(p, start, end, a);
      MarkReadsBack(p, was, now, start, end, mark, a);
    }
  }

  lemma {:induction false} PaintJoin(p: Pool, s0: seq<bv8>, s1: seq<bv8>, s2: seq<bv8>, x: int, y: int, z: int, mark: bv8)
    requires |s0| == |s1| == |s2| && forall a :: p.Contains(a) ==> Mem2Shadow(p, a).value.0 < |s0|
    requires Painted(p, s0, s1, x, y, mark) && Painted(p, s1, s2, y, z, mark) && x <= y <= z
    ensures Painted(p, s0, s2, x, z, mark)
  {
    hide GetShadowValue, Mem2Shadow;
  }

  /** A heap node at `cur` with a payload, and the header of the node behind it, on cell boundaries of the pool. */
  predicate NodeIn(p: Pool, cur: nat, next: nat, head: nat) {
    && 0 < head && cur + head < next && p.Contains(cur) && p.Contains(next + head - 1)
    && OnCell(p, cur) && OnCell(p, next) && OnCell(p, cur + head)
  }

  /** OsLmsLosMallocMark: the payload becomes accessible, the header before and the one after it do not, and
      nothing else changes. */
  method MallocMark(p: Pool, mem: array<bv8>, cur: nat, next: nat, head: nat)
    requires cur + head <= next
    requires forall a :: p.Contains(a) ==> Mem2Shadow(p, a).value.0 < mem.Length
    modifies mem
    ensures var now := mem[..];
      NodeIn(p, cur, next, head) ==>
        forall a | p.Contains(a) :: GetShadowValue(p, now, a) ==
          if cur + head <= a < next then ACCESSIBLE
          else if cur <= a < next + head then REDZONE
          else GetShadowValue(p, old(mem[..]), a)
  {
    hide MarkedTo, Uniform, Cell, CellOf, Mem2Shadow, GetShadowValue;
    Marks();
    SetShadowValue(p, mem, cur, cur + head, 0xAA, REDZONE);
    ghost var s1 := mem[..];
    SetShadowValue(p, mem, cur + head, next, 0x00, ACCESSIBLE);
    ghost var s2 := mem[..];
    SetShadowValue(p, mem, next, next + head, 0xAA, REDZONE);
    ghost var s3 := mem[..];
    if NodeIn(p, cur, next, head) {
      MarkedIsPainted(p, old(mem[..]), s1, cur, cur + head, REDZONE);
      MarkedIsPainted(p, s1, s2, cur + head, next, ACCESSIBLE);
      assert OnCell(p, next + head);
      MarkedIsPainted(p, s2, s3, next, next + head, REDZONE);
    }
  }

  /** OsLmsLosFreeMark; the flags say that a header was merged away. A payload that is not in use is reported
      and nothing changes, so a second free of a node is; otherwise the payload and the merged headers, and
      nothing else, become inaccessible. */
  method FreeMark(p: Pool, mem: array<bv8>, cur: nat, next: nat, head: nat, curMerged: bool, nextMerged: bool)
    returns (ok: bool)
    requires cur + head <= next
    requires forall a :: p.Contains(a) ==> Mem2Shadow(p, a).value.0 < mem.Length
    modifies mem
    ensures ok <==> p.Contains(cur + head) && GetShadowValue(p, old(mem[..]), cur + head) in {ACCESSIBLE, PAINT}
    ensures !ok ==> mem[..] == old(mem[..])
    ensures ok && NodeIn(p, cur, next, head) ==>
              Painted(p, old(mem[..]), mem[..], if curMerged then cur else cur + head,
                      if nextMerged then next + head else next, AFTERFREE)
  {
    hide MarkedTo, Uniform, Cell, CellOf, Mem2Shadow, GetShadowValue, Painted;
    if !p.Contains(cur + head) || GetShadowValue(p, mem[..], cur + head) !in {ACCESSIBLE, PAINT} {
      return false;
    }
    ok := true;
    Marks();
    if curMerged {
      SetShadowValue(p, mem, cur, cur + head, 0xFF, AFTERFREE);
    }
    ghost var s1 := mem[..];
    SetShadowValue(p, mem, cur + head, next, 0xFF, AFTERFREE);
    ghost var s2 := mem[..];
    if nextMerged {
      SetShadowValue(p, mem, next, next + head, 0xFF, AFTERFREE);
    }
    ghost var s3 := mem[..];
    if NodeIn(p, cur, next, head) {
      MarkedIsPainted(p, s1, s2, cur + head, next, AFTERFREE);
      if curMerged {
        MarkedIsPainted(p, old(mem[..]), s1, cur, cur + head, AFTERFREE);
        PaintJoin(p, old(mem[..]), s1, s2, cur, cur + head, next, AFTERFREE);
      }
      if nextMerged {
        assert OnCell(p, next + head);
        MarkedIsPainted(p, s2, s3, next, next + head, AFTERFREE);
        PaintJoin(p, old(mem[..]), s2, s3, if curMerged then cur else cur + head, next, next + head, AFTERFREE);
      }
    }
  }
}
