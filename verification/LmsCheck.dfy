/** Which pool an address belongs to, and when checking the ends of an access is enough. */
module LmsCheck {
  import opened Basics
  import opened Lms

  /** A registered pool with its shadow bytes. */
  datatype Node = Node(pool: Pool, shadow: seq<bv8>)

  /** Pools begin and end on cell boundaries and have a shadow byte for every address. */
  ghost predicate NodeOk(n: Node) {
    && n.pool.addr % 4 == 0 && n.pool.size % 4 == 0
    && forall a :: n.pool.Contains(a) ==> Mem2Shadow(n.pool, a).value.0 < |n.shadow|
  }

  ghost predicate NodesOk(nodes: seq<Node>) {
    forall i :: 0 <= i < |nodes| ==> NodeOk(nodes[i])
  }

  predicate Inside(p: Pool, q: Pool) {
    q.addr <= p.addr && p.addr + p.size <= q.addr + q.size
  }

  /** The loop of OsLmsGetPoolNodeFromAddr from node `i` on. */
  function LookupFrom(nodes: seq<Node>, a: int, i: nat, prev: Option<nat>): (r: Option<nat>)
    requires i <= |nodes| && (prev.Some? ==> prev.value < |nodes|)
    ensures r.Some? ==> r.value < |nodes|
    decreases |nodes| - i
  {
    if i == |nodes| then prev
    else if !nodes[i].pool.Contains(a) then LookupFrom(nodes, a, i + 1, prev)
    else if prev.None? || Inside(nodes[i].pool, nodes[prev.value].pool) then LookupFrom(nodes, a, i + 1, Some(i))
    else LookupFrom(nodes, a, i + 1, prev)
  }

  /** OsLmsGetPoolNodeFromAddr. */
  method Lookup(nodes: seq<Node>, a: int) returns (r: Option<nat>)
    ensures r == LookupFrom(nodes, a, 0, None)
  {
    r := None;
    var i := 0;
    while i < |nodes|
      invariant i <= |nodes| && (r.Some? ==> r.value < |nodes|)
      invariant LookupFrom(nodes, a, 0, None) == LookupFrom(nodes, a, i, r)
    {
      if nodes[i].pool.Contains(a) && (r.None? || Inside(nodes[i].pool, nodes[r.value].pool)) {
        r := Some(i);
      }
      i := i + 1;
    }
  }

  /** Two pools are disjoint or one lies inside the other. */
  ghost predicate Nested(nodes: seq<Node>) {
    forall i, j :: 0 <= i < |nodes| && 0 <= j < |nodes| ==>
      || Inside(nodes[i].pool, nodes[j].pool) || Inside(nodes[j].pool, nodes[i].pool)
      || nodes[i].pool.addr + nodes[i].pool.size <= nodes[j].pool.addr
      || nodes[j].pool.addr + nodes[j].pool.size <= nodes[i].pool.addr
  }

  /** `r` is the innermost pool around `a` among the first `n`. */
  ghost predicate Innermost(nodes: seq<Node>, a: int, n: nat, r: Option<nat>) {
    && (r.None? ==> forall j :: 0 <= j < n && j < |nodes| ==> !nodes[j].pool.Contains(a))
    && (r.Some? ==>
          && r.value < |nodes| && nodes[r.value].pool.Contains(a)
          && forall j :: 0 <= j < n && j < |nodes| && nodes[j].pool.Contains(a) ==> Inside(nodes[r.value].pool, nodes[j].pool))
  }

  /** Of nested pools the lookup returns the innermost one that contains the address. */
  lemma {:induction false} LookupInnermost(nodes: seq<Node>, a: int, i: nat, prev: Option<nat>)
    requires Nested(nodes) && i <= |nodes| && Innermost(nodes, a, i, prev)
    ensures Innermost(nodes, a, |nodes|, LookupFrom(nodes, a, i, prev))
    decreases |nodes| - i
  {
    if i < |nodes| {
      var p := nodes[i].pool;
      if p.Contains(a) && (prev.None? || Inside(p, nodes[prev.value].pool)) {
        LookupInnermost(nodes, a, i + 1, Some(i));
      } else {
        LookupInnermost(nodes, a, i + 1, prev);
      }
    }
  }

  // ------------------------------------------------------------ checking an access

  /** OsLmsCheckAddr once the checks are on: the mark of the address, or accessible outside all pools. */
  function CheckAddr(nodes: seq<Node>, a: int): (v: bv8)
    requires NodesOk(nodes)
  {
    var r := LookupFrom(nodes, a, 0, None);
    LookupContains(nodes, a, 0, None);
    if r.None? then 0 else GetShadowValue(nodes[r.value].pool, nodes[r.value].shadow, a)
  }

  lemma {:induction false} LookupContains(nodes: seq<Node>, a: int, i: nat, prev: Option<nat>)
    requires i <= |nodes| && (prev.Some? ==> prev.value < |nodes| && nodes[prev.value].pool.Contains(a))
    ensures var r := LookupFrom(nodes, a, i, prev); r.Some? ==> nodes[r.value].pool.Contains(a)
    decreases |nodes| - i
  {
    if i < |nodes| {
      var p := nodes[i].pool;
      if p.Contains(a) && (prev.None? || Inside(p, nodes[prev.value].pool)) {
        LookupContains(nodes, a, i + 1, Some(i));
      } else {
        LookupContains(nodes, a, i + 1, prev);
      }
    }
  }

  /** An address outside all pools is accessible; one inside has the mark its pool's shadow gives it. */
  lemma {:induction false} CheckedMark(nodes: seq<Node>, a: int)
    requires NodesOk(nodes)
    ensures var r := LookupFrom(nodes, a, 0, None);
      && ((forall i :: 0 <= i < |nodes| ==> !nodes[i].pool.Contains(a)) ==> CheckAddr(nodes, a) == 0)
      && (r.Some? ==> nodes[r.value].pool.Contains(a) && CheckAddr(nodes, a) == GetShadowValue(nodes[r.value].pool, nodes[r.value].shadow, a))
  {
    hide GetShadowValue;
    LookupContains(nodes, a, 0, None);
  }

  /** OsLmsCheckAddrRegion with the strict check: every byte. */
  ghost predicate StrictOk(nodes: seq<Node>, a: nat, size: nat)
    requires NodesOk(nodes)
  {
    forall b :: a <= b < a + size ==> CheckAddr(nodes, b) == 0
  }

  method CheckStrict(nodes: seq<Node>, a: nat, size: nat) returns (ok: bool)
    requires NodesOk(nodes)
    ensures ok <==> StrictOk(nodes, a, size)
  {
    for i := 0 to size
      invariant forall b :: a <= b < a + i ==> CheckAddr(nodes, b) == 0
    {
      if CheckAddr(nodes, a + i) != 0 {
        return false;
      }
    }
    return true;
  }

  /** OsLmsCheckAddrRegion without it: the first and the last byte. */
  predicate EndsOk(nodes: seq<Node>, a: nat, size: nat)
    requires NodesOk(nodes)
  {
    CheckAddr(nodes, a) == 0 && CheckAddr(nodes, a + size - 1) == 0
  }

  /** Addresses in the same four-byte word are in the same pools. */
  lemma {:induction false} SameWordLookup(nodes: seq<Node>, a: int, b: int, i: nat, prev: Option<nat>)
    requires NodesOk(nodes) && a / 4 == b / 4 && i <= |nodes| && (prev.Some? ==> prev.value < |nodes|)
    ensures LookupFrom(nodes, a, i, prev) == LookupFrom(nodes, b, i, prev)
    decreases |nodes| - i
  {
    if i < |nodes| {
      var p := nodes[i].pool;
      assert NodeOk(nodes[i]);
      SameWordContains(p, a, b);
      SameWordLookup(nodes, a, b, i + 1, prev);
      SameWordLookup(nodes, a, b, i + 1, Some(i));
    }
  }

  lemma {:induction false} SameWordContains(p: Pool, a: int, b: int)
    requires p.addr % 4 == 0 && p.size % 4 == 0 && a / 4 == b / 4
    ensures p.Contains(a) <==> p.Contains(b)
    ensures p.Contains(a) ==> Mem2Shadow(p, a) == Mem2Shadow(p, b)
  {
    var lo, hi := p.addr / 4, (p.addr + p.size) / 4;
    assert p.addr == 4 * lo && p.addr + p.size == 4 * hi;
    assert p.Contains(a) <==> lo <= a / 4 < hi;
    assert p.Contains(b) <==> lo <= b / 4 < hi;
    if p.Contains(a) {
      ShadowOfCell(p, a);
      ShadowOfCell(p, b);
      assert (a - p.addr) / 4 == a / 4 - lo && (b - p.addr) / 4 == b / 4 - lo;
    }
  }

  lemma {:induction false} SameWord(nodes: seq<Node>, a: int, b: int)
    requires NodesOk(nodes) && a / 4 == b / 4
    ensures CheckAddr(nodes, a) == CheckAddr(nodes, b)
  {
    SameWordLookup(nodes, a, b, 0, None);
    LookupContains(nodes, a, 0, None);
    LookupContains(nodes, b, 0, None);
    var r := LookupFrom(nodes, a, 0, None);
    if r.Some? {
      assert NodeOk(nodes[r.value]);
      SameWordContains(nodes[r.value].pool, a, b);
    }
  }

  /** An access that touches at most two words is judged the same by its ends as byte by byte. */
  lemma {:induction false} EndsSuffice(nodes: seq<Node>, a: nat, size: nat)
    requires NodesOk(nodes) && size > 0 && a % 4 + size <= 8
    ensures EndsOk(nodes, a, size) <==> StrictOk(nodes, a, size)
  {
    hide NodesOk, CheckAddr;
    if EndsOk(nodes, a, size) {
      forall b | a <= b < a + size ensures CheckAddr(nodes, b) == 0 {
        if b / 4 == a / 4 {
          SameWord(nodes, b, a);
        } else {
          assert b / 4 == (a + size - 1) / 4;
          SameWord(nodes, b, a + size - 1);
        }
      }
    }
  }

  /** One pool in which only word `a / 4 + 1` is marked. */
  function MiddleMarked(a: nat, size: nat): (n: Node)
  {
    Node(Pool(a - a % 4, 4 * (size + 2), 0), seq(size + 2, i => if i == 0 then Span(1, 1) else 0))
  }

  /** For a longer access the ends are not enough: a marked word between them goes unnoticed. */
  lemma {:induction false} EndsMissMiddle(a: nat, size: nat)
    requires a % 4 + size > 8
    ensures NodesOk([MiddleMarked(a, size)])
    ensures EndsOk([MiddleMarked(a, size)], a, size) && !StrictOk([MiddleMarked(a, size)], a, size)
  {
    var n := MiddleMarked(a, size);
    var nodes := [n];
    var p := n.pool;
    forall b | p.Contains(b) ensures Mem2Shadow(p, b).value.0 < |n.shadow| {
      ShadowOfCell(p, b);
    }
    assert NodeOk(n);
    MiddleCell(a, size, a);
    MiddleCell(a, size, a + size - 1);
    MiddleCell(a, size, a - a % 4 + 4);
    assert CheckAddr(nodes, a - a % 4 + 4) == 3;
  }

  lemma {:induction false} MiddleCell(a: nat, size: nat, b: nat)
    requires a <= b < a + size + 4
    requires NodesOk([MiddleMarked(a, size)])
    ensures CheckAddr([MiddleMarked(a, size)], b) == if b / 4 == a / 4 + 1 then 3 else 0
  {
    var n := MiddleMarked(a, size);
    var p := n.pool;
    assert p.Contains(b);
    assert LookupFrom([n], b, 0, None) == Some(0);
    ShadowOfCell(p, b);
    var c := CellOf(p, b);
    assert c == b / 4 - a / 4;
    SpanCells(1, 1, c % 4);
    assert Cell(0, c % 4) == 0;
    assert GetShadowValue(p, n.shadow, b) == Cell(n.shadow[c / 4], c % 4);
  }

  /** Checking only the ends is as good as checking every byte, whatever is marked, exactly for the
      accesses that touch at most two words; these are all accesses of up to five bytes. */
  lemma {:induction false} EndsExact(a: nat, size: nat)
    requires size > 0
    ensures (forall nodes: seq<Node> :: NodesOk(nodes) ==> (EndsOk(nodes, a, size) <==> StrictOk(nodes, a, size))) <==> a % 4 + size <= 8
    ensures size <= 5 ==> a % 4 + size <= 8
  {
    hide NodesOk, EndsOk, StrictOk;
    if a % 4 + size <= 8 {
      forall nodes: seq<Node> | NodesOk(nodes) ensures EndsOk(nodes, a, size) <==> StrictOk(nodes, a, size) {
        EndsSuffice(nodes, a, size);
      }
    } else {
      EndsMissMiddle(a, size);
    }
  }
}
