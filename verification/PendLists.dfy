/** The ready queues and wait lists in memory: every list is a ring through the `pendList` nodes of its
    tasks, and the scheduler's operations on these rings do what `Queues` says they do to the lists. */
module PendLists {
  import opened Lists
  import opened Queues
  import opened Bitmaps
  import LinkedLists

  type Node = LinkedLists.Node

  /** Where the nodes lie: `nodes` are the `pendList` of each task, `heads` g_priQueueList and the list
      of each kernel object. */
  datatype Layout = Layout(nodes: seq<Node>, heads: map<ListId, Node>)
  {
    ghost function All(): (s: set<Node>) { (set t | 0 <= t < |nodes| :: nodes[t]) + heads.Values }

    /** No two tasks share a node, no two lists a head, and no head is the node of a task. */
    ghost predicate Apart() {
      && LinkedLists.Distinct(nodes)
      && (forall l, m :: l in heads && m in heads && l != m ==> heads[l] != heads[m])
      && (forall l, t :: l in heads && 0 <= t < |nodes| ==> heads[l] != nodes[t])
    }

    ghost predicate Fits(q: Queues) {
      Apart() && |q.links| == |nodes| && heads.Keys == q.lists.Keys && QueuesOk(q)
    }

    /** The nodes of a list: its head, then those of the tasks in `s`. */
    ghost function RingOf(l: ListId, s: seq<nat>): (r: seq<Node>)
      requires l in heads && forall i :: 0 <= i < |s| ==> s[i] < |nodes|
      ensures |r| == |s| + 1 && r[0] == heads[l] && forall i :: 0 < i < |r| ==> r[i] == nodes[s[i - 1]]
      ensures forall x :: x in r ==> x in All()
    {
      seq(|s| + 1, i requires 0 <= i <= |s| => if i == 0 then heads[l] else nodes[s[i - 1]])
    }

    ghost function ListRing(q: Queues, l: ListId): (r: seq<Node>)
      requires Fits(q) && l in q.lists
      ensures forall x :: x in r ==> x in All()
    {
      Indexed(q, l);
      RingOf(l, q.lists[l])
    }
  }

  lemma {:induction false} Indexed(q: Queues, l: ListId)
    requires QueuesOk(q) && l in q.lists
    ensures forall i :: 0 <= i < |q.lists[l]| ==> q.lists[l][i] < |q.links| && q.links[q.lists[l][i]] == LinkedTo(l)
  {
    assert forall i :: 0 <= i < |q.lists[l]| ==> q.lists[l][i] in q.lists[l];
  }

  /** Rings of different lists have no node in common, and a node on no list is on no ring. */
  lemma {:induction false} RingsApart(at: Layout, q: Queues, l: ListId, m: ListId)
    requires at.Fits(q) && l in q.lists && m in q.lists && l != m
    ensures forall x :: x in at.ListRing(q, l) ==> x !in at.ListRing(q, m)
  {
    Indexed(q, l);
    Indexed(q, m);
    hide QueuesOk;
  }

  lemma {:induction false} UnlinkedApart(at: Layout, q: Queues, l: ListId, t: nat)
    requires at.Fits(q) && l in q.lists && t < |at.nodes| && q.links[t] != LinkedTo(l)
    ensures at.nodes[t] !in at.ListRing(q, l)
  {
    Indexed(q, l);
    hide QueuesOk;
  }

  lemma {:induction false} WithRing(at: Layout, l: ListId, s: seq<nat>, t: nat)
    requires l in at.heads && (forall i :: 0 <= i < |s| ==> s[i] < |at.nodes|) && t < |at.nodes|
    ensures at.RingOf(l, [t] + s) == LinkedLists.Inserted(at.RingOf(l, s), 1, at.nodes[t])
    ensures at.RingOf(l, s + [t]) == at.RingOf(l, s) + [at.nodes[t]]
  {
  }

  lemma {:induction false} WithoutRing(at: Layout, l: ListId, s: seq<nat>, t: nat)
    requires l in at.heads && (forall i :: 0 <= i < |s| ==> s[i] < |at.nodes|) && t in s
    ensures IndexOf(s, t) < |s| && forall i :: 0 <= i < |Without(s, t)| ==> Without(s, t)[i] < |at.nodes|
    ensures at.RingOf(l, Without(s, t)) == LinkedLists.Removed(at.RingOf(l, s), IndexOf(s, t) + 1)
  {
    forall i | 0 <= i < |Without(s, t)|
      ensures Without(s, t)[i] == s[if i < IndexOf(s, t) then i else i + 1]
    {
      WithoutAt(s, t, i);
    }
  }

  // ------------------------------------------------------------ rings in memory

  /** Every list of `q` is a ring. */
  ghost predicate InMemory(at: Layout, q: Queues)
    requires at.Fits(q)
    reads at.All()
  {
    forall l | l in q.lists :: LinkedLists.Ring(at.ListRing(q, l))
  }

  /** The rings of the other lists hold no node of list `l` and not the node of a task on no other list. */
  lemma {:induction false} OthersApart(at: Layout, q: Queues, l: ListId, t: nat)
    requires at.Fits(q) && l in q.lists && t < |at.nodes| && (q.links[t].Unlinked? || q.links[t].l == l)
    ensures forall m, x | m in q.lists && m != l && x in at.ListRing(q, m) :: x !in at.ListRing(q, l) && x != at.nodes[t]
  {
    forall m, x | m in q.lists && m != l && x in at.ListRing(q, m)
      ensures x !in at.ListRing(q, l) && x != at.nodes[t]
    {
      RingsApart(at, q, m, l);
      UnlinkedApart(at, q, m, t);
    }
  }

  ghost function NodesOf(rest: set<seq<Node>>): (s: set<Node>)
    ensures forall r, x :: r in rest && x in r ==> x in s
  {
    set r, x | r in rest && x in r :: x
  }

  ghost predicate AllRings(rest: set<seq<Node>>)
    reads NodesOf(rest)
  {
    forall r :: r in rest ==> LinkedLists.Ring(r)
  }

  twostate lemma StayRings(rest: set<seq<Node>>)
    requires old(AllRings(rest)) && forall r, x :: r in rest && x in r ==> x.next == old(x.next) && x.prev == old(x.prev)
    ensures AllRings(rest)
  {
    hide LinkedLists.Distinct;
    forall r | r in rest ensures LinkedLists.Ring(r) {
      assert old(LinkedLists.Ring(r));
      assert forall i :: 0 <= i < |r| ==> r[i] in r;
    }
  }

  /** LOS_ListAdd or LOS_ListTailInsert on the head of a ring. */
  method Insert(list: Node, node: Node, head: bool, ghost r: seq<Node>)
    requires 0 < |r| && LinkedLists.Ring(r) && r[0] == list && node !in r
    modifies r, node
    ensures LinkedLists.Ring(if head then LinkedLists.Inserted(r, 1, node) else r + [node])
  {
    hide LinkedLists.Ring;
    if head {
      LinkedLists.ListAdd(list, node, r, 0);
    } else {
      LinkedLists.TailInsert(list, node, r);
    }
  }

  /** The rings apart from the one that a node joins stay as they are. */
  method JoinRing(list: Node, node: Node, head: bool, ghost r: seq<Node>, ghost rest: set<seq<Node>>)
    requires LinkedLists.Ring(r) && r[0] == list && node !in r && AllRings(rest)
    requires forall o, x :: o in rest && x in o ==> x !in r && x != node
    modifies r, node
    ensures LinkedLists.Ring(if head then LinkedLists.Inserted(r, 1, node) else r + [node]) && AllRings(rest)
  {
    hide AllRings, LinkedLists.Distinct;
    Insert(list, node, head, r);
    StayRings(rest);
  }

  /** LOS_ListDelete, likewise. */
  method LeaveRing(node: Node, ghost r: seq<Node>, ghost i: nat, ghost rest: set<seq<Node>>)
    requires LinkedLists.Ring(r) && 0 < i < |r| && r[i] == node && AllRings(rest)
    requires forall o, x :: o in rest && x in o ==> x !in r
    modifies r
    ensures LinkedLists.Ring(LinkedLists.Removed(r, i)) && AllRings(rest)
  {
    hide AllRings;
    LinkedLists.ListDelete(node, r, i);
    StayRings(rest);
  }

  ghost function OtherRings(at: Layout, q: Queues, l: ListId): (s: set<seq<Node>>)
    requires at.Fits(q)
  {
    set m | m in q.lists && m != l :: at.ListRing(q, m)
  }

  /** LOS_ListAdd or LOS_ListTailInsert of a task's node on the head of a list; the lists are then those of `q'`. */
  method LinkNode(at: Layout, t: nat, l: ListId, head: bool, ghost q: Queues, ghost q': Queues)
    requires at.Fits(q) && InMemory(at, q) && t < |at.nodes| && q.links[t].Unlinked? && l in q.lists
    requires at.Fits(q') && q'.lists == q.lists[l := if head then [t] + q.lists[l] else q.lists[l] + [t]]
    modifies at.All()
    ensures InMemory(at, q')
  {
    RingsBefore(at, l, t, q);
    UnlinkedApart(at, q, l, t);
    Indexed(q, l);
    WithRing(at, l, q.lists[l], t);
    hide QueuesOk, LinkedLists.Ring, Layout.Apart, InMemory, OtherRings, AllRings;
    JoinRing(at.heads[l], at.nodes[t], head, at.ListRing(q, l), OtherRings(at, q, l));
    RingsNow(at, l, q, q');
  }

  /** LOS_ListEmpty on the head of a list. */
  method IsEmpty(at: Layout, l: ListId, ghost q: Queues) returns (empty: bool)
    requires at.Fits(q) && InMemory(at, q) && l in q.lists
    ensures empty <==> q.lists[l] == []
  {
    empty := LinkedLists.ListEmpty(at.heads[l], at.ListRing(q, l));
  }

  /** LOS_ListDelete of a task's node. */
  method UnlinkNode(at: Layout, t: nat, ghost l: ListId, ghost q: Queues, ghost q': Queues)
    requires at.Fits(q) && InMemory(at, q) && t < |at.nodes| && q.links[t] == LinkedTo(l) && l in q.lists
    requires at.Fits(q') && q'.lists == q.lists[l := Without(q.lists[l], t)]
    modifies at.All()
    ensures InMemory(at, q')
  {
    hide QueuesOk, LinkedLists.Ring, Layout.Apart, Layout.ListRing, InMemory, OtherRings, AllRings;
    RingsBefore(at, l, t, q);
    RingWithout(at, t, l, q, q');
    LeaveRing(at.nodes[t], at.ListRing(q, l), IndexOf(q.lists[l], t) + 1, OtherRings(at, q, l));
    RingsNow(at, l, q, q');
  }

  lemma {:induction false} RingWithout(at: Layout, t: nat, l: ListId, q: Queues, q': Queues)
    requires at.Fits(q) && at.Fits(q') && t < |at.nodes| && q.links[t] == LinkedTo(l) && l in q.lists && l in q'.lists
    requires q'.lists[l] == Without(q.lists[l], t)
    ensures var r, i := at.ListRing(q, l), IndexOf(q.lists[l], t) + 1;
      i < |r| && r[i] == at.nodes[t] && at.ListRing(q', l) == LinkedLists.Removed(r, i)
  {
    Indexed(q, l);
    assert t in q.lists[l];
    WithoutRing(at, l, q.lists[l], t);
    hide QueuesOk, Layout.Apart;
  }

  lemma {:induction false} RingsBefore(at: Layout, l: ListId, t: nat, q: Queues)
    requires at.Fits(q) && InMemory(at, q) && l in q.lists && t < |at.nodes| && (q.links[t].Unlinked? || q.links[t].l == l)
    ensures LinkedLists.Ring(at.ListRing(q, l)) && AllRings(OtherRings(at, q, l))
    ensures forall r, x :: r in OtherRings(at, q, l) && x in r ==> x !in at.ListRing(q, l) && x != at.nodes[t]
  {
    OthersApart(at, q, l, t);
    hide QueuesOk, LinkedLists.Ring, Layout.Apart, Layout.ListRing;
    forall r | r in OtherRings(at, q, l)
      ensures LinkedLists.Ring(r) && forall x :: x in r ==> x !in at.ListRing(q, l) && x != at.nodes[t]
    {
      var m :| m in q.lists && m != l && r == at.ListRing(q, m);
    }
  }

  lemma {:induction false} RingsNow(at: Layout, l: ListId, q: Queues, q': Queues)
    requires at.Fits(q) && at.Fits(q') && l in q.lists && q'.lists == q.lists[l := q'.lists[l]]
    requires AllRings(OtherRings(at, q, l)) && LinkedLists.Ring(at.ListRing(q', l))
    ensures InMemory(at, q')
  {
    hide QueuesOk, LinkedLists.Ring, Layout.Apart;
    forall m | m in q'.lists ensures LinkedLists.Ring(at.ListRing(q', m)) {
      if m != l {
        assert at.ListRing(q', m) == at.ListRing(q, m);
        assert at.ListRing(q, m) in OtherRings(at, q, l);
      }
    }
  }

  // ------------------------------------------------------------ the scheduler's operations

  /** Nodes that LOS_ListInit has linked to themselves. */
  method NewNodes(k: nat) returns (nodes: seq<Node>)
    ensures |nodes| == k && LinkedLists.Distinct(nodes)
    ensures forall i :: 0 <= i < k ==> LinkedLists.Ring([nodes[i]])
    ensures forall i :: 0 <= i < k ==> fresh(nodes[i])
  {
    nodes := [];
    while |nodes| < k
      invariant |nodes| <= k && LinkedLists.Distinct(nodes)
      invariant forall i :: 0 <= i < |nodes| ==> fresh(nodes[i]) && nodes[i].next == nodes[i] == nodes[i].prev
    {
      var node := new LinkedLists.Node(0);
      nodes := nodes + [node];
    }
  }

  function HeadsOf(ids: seq<ListId>, heads: seq<Node>): (m: map<ListId, Node>)
    requires NoDup(ids) && |heads| == |ids|
    ensures forall i :: 0 <= i < |ids| ==> ids[i] in m && m[ids[i]] == heads[i]
    ensures forall l :: l in m <==> l in ids
  {
    map i | 0 <= i < |ids| :: ids[i] := heads[i]
  }

  ghost function NoMembers(n: nat, ids: seq<ListId>): (q: Queues) {
    Queues(seq(n, _ => Unlinked), map l | l in ids :: [], {})
  }

  lemma {:induction false} NewHeads(nodes: seq<Node>, ids: seq<ListId>, heads: seq<Node>)
    requires NoDup(ids) && |heads| == |ids| && LinkedLists.Distinct(nodes + heads)
    ensures Layout(nodes, HeadsOf(ids, heads)).Apart()
    ensures forall x :: x in Layout(nodes, HeadsOf(ids, heads)).All() ==> x in nodes + heads
  {
    hide HeadsOf;
    var all := nodes + heads;
    assert forall i :: 0 <= i < |nodes| ==> all[i] == nodes[i];
    assert forall i :: 0 <= i < |heads| ==> all[|nodes| + i] == heads[i];
  }

  /** Lists with a head each and no members. */
  lemma {:induction false} NewLayout(nodes: seq<Node>, ids: seq<ListId>, heads: seq<Node>)
    requires NoDup(ids) && |heads| == |ids| && LinkedLists.Distinct(nodes + heads)
    requires forall p :: 0 <= p < PRIORITIES ==> ReadyQ(p) in ids
    requires forall i :: 0 <= i < |heads| ==> LinkedLists.Ring([heads[i]])
    ensures var at, q := Layout(nodes, HeadsOf(ids, heads)), NoMembers(|nodes|, ids);
      at.Fits(q) && InMemory(at, q) && forall x :: x in at.All() ==> x in nodes + heads
  {
    var at, q := Layout(nodes, HeadsOf(ids, heads)), NoMembers(|nodes|, ids);
    NewHeads(nodes, ids, heads);
    hide LinkedLists.Ring, LinkedLists.Distinct, HeadsOf, Layout.Apart, Layout.All;
    forall l | l in q.lists ensures LinkedLists.Ring(at.ListRing(q, l)) {
      assert at.ListRing(q, l) == [at.heads[l]];
    }
  }

  method NewLists(n: nat, ids: seq<ListId>) returns (at: Layout)
    requires NoDup(ids) && forall p :: 0 <= p < PRIORITIES ==> ReadyQ(p) in ids
    ensures at.Fits(NoMembers(n, ids)) && InMemory(at, NoMembers(n, ids)) && fresh(at.All())
  {
    hide LinkedLists.Ring, LinkedLists.Distinct, HeadsOf, Layout.Apart, Layout.All, QueuesOk, InMemory, NoMembers;
    var nodes := NewNodes(n);
    var heads := NewNodes(|ids|);
    assert LinkedLists.Distinct(nodes + heads) by {
      BothDistinct(nodes, heads);
    }
    NewLayout(nodes, ids, heads);
    at := Layout(nodes, HeadsOf(ids, heads));
  }

  lemma {:induction false} BothDistinct(a: seq<Node>, b: seq<Node>)
    requires LinkedLists.Distinct(a) && LinkedLists.Distinct(b) && forall x :: x in a ==> x !in b
    ensures LinkedLists.Distinct(a + b)
  {
    var r := a + b;
    forall i, j | 0 <= i < j < |r| ensures r[i] != r[j] {
      if i < |a| <= j {
        assert a[i] in a && b[j - |a|] in b;
      }
    }
  }

  class PendLists {
    const at: Layout
    var bitmap: bv32  // g_queueBitmap
    ghost var q: Queues

    /** The rings in memory are the lists of `q`, and the word is its bitmap. */
    ghost predicate Valid()
      reads this, at.All()
    {
      && at.Fits(q)
      && Bits(bitmap) == q.bitmap
      && InMemory(at, q)
    }

    /** Empty lists and tasks on none of them. */
    constructor (n: nat, ids: seq<ListId>)
      requires NoDup(ids) && forall p :: 0 <= p < PRIORITIES ==> ReadyQ(p) in ids
      ensures Valid() && fresh(at.All()) && q == NoMembers(n, ids)
    {
      var lists := NewLists(n, ids);
      at := lists;
      bitmap := 0;
      q := NoMembers(n, ids);
      new;
      hide InMemory, Bits, NoMembers;
      ZeroIsEmpty(bitmap);
      assert q.bitmap == {};
    }

    /** OsSchedPriQueueEnHead and OsSchedPriQueueEnTail. */
    method PriQueueEn(t: nat, p: nat, head: bool)
      requires Valid() && t < |q.links| && q.links[t].Unlinked? && p < PRIORITIES
      modifies this`bitmap, this`q, at.All()
      ensures Valid() && q == PriEn(old(q), t, p, head)
    {
      hide InMemory, Bits, With, Mask, Membership, Layout.Apart;
      var l := ReadyQ(p);
      var empty := IsEmpty(at, l, q);
      if empty {
        WithBits(bitmap, p);
        bitmap := With(bitmap, Mask(p));
      }
      LinkNode(at, t, l, head, q, PriEn(q, t, p, head));
      q := PriEn(q, t, p, head);
    }

    /** OsSchedPriQueueDelete. */
    method PriQueueDelete(t: nat, p: nat)
      requires Valid() && t < |q.links| && q.links[t] == LinkedTo(ReadyQ(p)) && p < PRIORITIES
      modifies this`bitmap, this`q, at.All()
      ensures Valid() && q == PriDelete(old(q), t, p)
    {
      hide InMemory, Bits, Minus, Mask, Membership, Layout.Apart;
      var l := ReadyQ(p);
      UnlinkNode(at, t, l, q, PriDelete(q, t, p));
      q := PriDelete(q, t, p);
      var empty := IsEmpty(at, l, q);
      if empty {
        MinusBits(bitmap, p);
        bitmap := Minus(bitmap, Mask(p));
      }
    }

    /** LOS_ListTailInsert on a wait list. */
    method ListTailInsert(t: nat, w: nat)
      requires Valid() && t < |q.links| && q.links[t].Unlinked? && WaitQ(w) in q.lists
      modifies this`q, at.All()
      ensures Valid() && q == TailInsert(old(q), t, w)
    {
      LinkNode(at, t, WaitQ(w), false, q, TailInsert(q, t, w));
      q := TailInsert(q, t, w);
    }

    /** LOS_ListDelete on a node that waits. */
    method ListDelete(t: nat)
      requires Valid() && t < |q.links| && q.links[t].LinkedTo? && q.links[t].l.WaitQ?
      modifies this`q, at.All()
      ensures Valid() && q == Delete(old(q), t)
    {
      UnlinkNode(at, t, q.links[t].l, q, Delete(q, t));
      q := Delete(q, t);
    }

    /** OsGetTopTask, as the node that is found. */
    method TopNode(idle: nat) returns (node: Node)
      requires Valid() && idle < |at.nodes|
      ensures Top(q, idle) < |at.nodes| && node == at.nodes[Top(q, idle)]
    {
      ZeroIsEmpty(bitmap);
      TopMostUrgent(q, idle);
      if bitmap != 0 {
        var p := LeadingZeros(bitmap, 0);
        LeadingZerosClz(bitmap, 0);
        assert LinkedLists.Ring(at.ListRing(q, ReadyQ(p)));
        node := at.heads[ReadyQ(p)].next;
      } else {
        node := at.nodes[idle];
      }
    }
  }
}
