/** The kernel's circular doubly linked lists and the sort link built on them. A list is the ring of
    nodes that starts at its head; the members are the nodes behind the head. */
module LinkedLists {
  import opened TickTimer
  import opened Deadlines
  import TimeArith

  /** LOS_DL_LIST, together with the deadline of the sort link node around it. */
  class Node {
    var prev: Node?
    var next: Node?
    var response: nat

    /** LOS_ListInit. */
    constructor (response: nat)
      ensures Ring([this]) && this.response == response
    {
      this.response := response;
      this.prev, this.next := this, this;
    }
  }

  function Succ(n: nat, i: nat): (j: nat) { if i + 1 == n then 0 else i + 1 }

  function Pred(n: nat, i: nat): (j: int) { if i == 0 then n - 1 else i - 1 }

  function NodeAt(r: seq<Node>, i: int): (node: Node)
    requires 0 <= i < |r|
  {
    r[i]
  }

  ghost predicate Distinct(r: seq<Node>) {
    forall i, j :: 0 <= i < j < |r| ==> r[i] != r[j]
  }

  ghost predicate Ring(r: seq<Node>)
    reads r
  {
    && |r| > 0
    && Distinct(r)
    && (forall i :: 0 <= i < |r| ==> r[i].next == r[Succ(|r|, i)])
    && (forall i :: 0 <= i < |r| ==> r[i].prev == r[Pred(|r|, i)])
  }

  function Inserted<T>(s: seq<T>, pos: nat, x: T): (t: seq<T>)
    requires pos <= |s|
    ensures |t| == |s| + 1
    ensures forall i :: 0 <= i < |t| ==> t[i] == if i < pos then s[i] else if i == pos then x else s[i - 1]
  {
    s[..pos] + [x] + s[pos..]
  }

  function Removed<T>(s: seq<T>, pos: nat): (t: seq<T>)
    requires pos < |s|
    ensures |t| == |s| - 1
    ensures forall i :: 0 <= i < |t| ==> t[i] == if i < pos then s[i] else s[i + 1]
  {
    s[..pos] + s[pos + 1..]
  }

  /** The links of `r` after the four assignments of LOS_ListAdd. */
  ghost predicate Spliced(r: seq<Node>, at: nat, node: Node)
    requires at < |r|
    reads r, node
  {
    && (forall i :: 0 <= i < |r| ==> r[i].next == if i == at then node else r[Succ(|r|, i)])
    && (forall i :: 0 <= i < |r| ==> r[i].prev == if i == Succ(|r|, at) then node else r[Pred(|r|, i)])
    && node.next == r[Succ(|r|, at)]
    && node.prev == r[at]
  }

  lemma {:induction false} SplicedNext(r: seq<Node>, at: nat, node: Node, i: nat)
    requires at < |r| && Spliced(r, at, node) && i < |r| + 1
    ensures var t := Inserted(r, at + 1, node); t[i].next == t[Succ(|t|, i)]
  {
    var t := Inserted(r, at + 1, node);
    assert i <= at ==> t[i] == r[i];
    assert i > at + 1 ==> t[i] == r[i - 1] && r[i - 1].next == r[Succ(|r|, i - 1)];
  }

  lemma {:induction false} SplicedPrev(r: seq<Node>, at: nat, node: Node, i: nat)
    requires at < |r| && Spliced(r, at, node) && i < |r| + 1
    ensures var t := Inserted(r, at + 1, node); t[i].prev == t[Pred(|t|, i)]
  {
    var t := Inserted(r, at + 1, node);
    assert i <= at ==> t[i] == r[i];
    assert i > at + 1 ==> t[i] == r[i - 1] && r[i - 1].prev == if i - 1 == Succ(|r|, at) then node else r[Pred(|r|, i - 1)];
  }

  lemma {:induction false} SplicedRing(r: seq<Node>, at: nat, node: Node)
    requires at < |r| && Distinct(r) && node !in r && Spliced(r, at, node)
    ensures Ring(Inserted(r, at + 1, node))
  {
    var t := Inserted(r, at + 1, node);
    forall i: nat | i < |t| ensures t[i].next == t[Succ(|t|, i)] && t[i].prev == t[Pred(|t|, i)] {
      SplicedNext(r, at, node, i);
      SplicedPrev(r, at, node, i);
    }
    hide Spliced;
  }

  /** LOS_ListAdd: `node` goes behind `list`, the node at `at`. */
  method ListAdd(list: Node, node: Node, ghost r: seq<Node>, ghost at: nat)
    requires Ring(r) && at < |r| && r[at] == list && node !in r
    modifies node`prev, node`next, list`next, NodeAt(r, Succ(|r|, at))`prev
    ensures Ring(Inserted(r, at + 1, node))
  {
    ghost var after := Succ(|r|, at);
    assert list.next == r[after];
    node.next := list.next;
    node.prev := list;
    list.next.prev := node;
    list.next := node;
    assert forall i :: 0 <= i < |r| && i != at ==> r[i] != r[at];
    assert forall i :: 0 <= i < |r| && i != after ==> r[i] != r[after];
    SplicedRing(r, at, node);
  }

  /** LOS_ListTailInsert: the new node becomes the last member. */
  method TailInsert(list: Node, node: Node, ghost r: seq<Node>)
    requires Ring(r) && r[0] == list && node !in r
    modifies node`prev, node`next, NodeAt(r, |r| - 1)`next, list`prev
    ensures Ring(r + [node])
  {
    ghost var last: nat := |r| - 1;
    assert list.prev == r[last];
    assert r[Succ(|r|, last)] == list;
    ListAdd(list.prev, node, r, last);
    assert Inserted(r, |r|, node) == r + [node];
  }

  /** The links of the rest of `r` after the first two assignments of LOS_ListDelete. */
  ghost predicate Bridged(r: seq<Node>, at: nat)
    requires at < |r|
    reads r
  {
    && (forall i :: 0 <= i < |r| && i != at ==> r[i].next == r[if i == Pred(|r|, at) then Succ(|r|, at) else Succ(|r|, i)])
    && (forall i :: 0 <= i < |r| && i != at ==> r[i].prev == r[if i == Succ(|r|, at) then Pred(|r|, at) else Pred(|r|, i)])
  }

  lemma {:induction false} BridgedNext(r: seq<Node>, at: nat, i: nat)
    requires |r| > 1 && at < |r| && Bridged(r, at) && i < |r| - 1
    ensures var t := Removed(r, at); t[i].next == t[Succ(|t|, i)]
  {
    var k := if i < at then i else i + 1;
    assert Removed(r, at)[i] == r[k];
  }

  lemma {:induction false} BridgedPrev(r: seq<Node>, at: nat, i: nat)
    requires |r| > 1 && at < |r| && Bridged(r, at) && i < |r| - 1
    ensures var t := Removed(r, at); t[i].prev == t[Pred(|t|, i)]
  {
    var k := if i < at then i else i + 1;
    assert Removed(r, at)[i] == r[k];
  }

  lemma {:induction false} BridgedRing(r: seq<Node>, at: nat)
    requires |r| > 1 && at < |r| && Distinct(r) && Bridged(r, at)
    ensures Ring(Removed(r, at))
  {
    var t := Removed(r, at);
    forall i: nat | i < |t| ensures t[i].next == t[Succ(|t|, i)] && t[i].prev == t[Pred(|t|, i)] {
      BridgedNext(r, at, i);
      BridgedPrev(r, at, i);
    }
    hide Bridged;
  }

  /** LOS_ListDelete: the node at `at` leaves the ring, the others keep their order. */
  method ListDelete(node: Node, ghost r: seq<Node>, ghost at: nat)
    requires Ring(r) && |r| > 1 && at < |r| && r[at] == node
    modifies node`prev, node`next, NodeAt(r, Succ(|r|, at))`prev, NodeAt(r, Pred(|r|, at))`next
    ensures Ring(Removed(r, at)) && node.next == null && node.prev == null
  {
    ghost var after, before := Succ(|r|, at), Pred(|r|, at);
    assert node.next == r[after] && node.prev == r[before];
    node.next.prev := node.prev;
    node.prev.next := node.next;
    node.next := null;
    node.prev := null;
    assert forall i :: 0 <= i < |r| && i != at ==> r[i] != r[at];
    assert forall i :: 0 <= i < |r| && i != after ==> r[i] != r[after];
    assert forall i :: 0 <= i < |r| && i != before ==> r[i] != r[before];
    BridgedRing(r, at);
  }

  /** LOS_ListEmpty. */
  method ListEmpty(list: Node, ghost r: seq<Node>) returns (empty: bool)
    requires Ring(r) && r[0] == list
    ensures empty <==> |r| == 1
  {
    empty := list.next == list;
  }

  // ------------------------------------------------------------ the sort link

  /** The deadlines of the members, in list order. */
  function Responses(r: seq<Node>): (times: seq<nat>)
    requires |r| > 0
    reads r
  {
    seq(|r| - 1, i requires 0 <= i < |r| - 1 reads r => r[i + 1].response)
  }

  lemma {:induction false} InsertedResponses(r: seq<Node>, pos: nat, node: Node)
    requires pos < |r|
    ensures Responses(Inserted(r, pos + 1, node)) == Inserted(Responses(r), pos, node.response)
  {
  }

  /** The backward walk of OsAddNode2SortLink, to the last member not later than `d`. */
  method WalkBack(head: Node, d: nat, ghost r: seq<Node>) returns (walk: Node, ghost pos: nat)
    requires Ring(r) && |r| > 1 && r[0] == head && r[1].response <= d
    ensures pos == LastNotLater(Responses(r), d, |r| - 1) && walk == r[pos]
  {
    ghost var times := Responses(r);
    walk := head.prev;
    pos := |r| - 1;
    assert times[0] == r[1].response;
    while walk.response > d
      invariant 0 < pos <= |times| && walk == r[pos]
      invariant LastNotLater(times, d, |times|) == LastNotLater(times, d, pos)
      decreases pos
    {
      assert r[pos].response == times[pos - 1];
      walk := walk.prev;
      pos := pos - 1;
    }
    assert r[pos].response == times[pos - 1];
  }

  /** Where OsAddNode2SortLink puts a node with deadline `d`: behind the node at `pos`. */
  method FindPlace(head: Node, d: nat, ghost r: seq<Node>) returns (behind: Node, ghost pos: nat)
    requires Ring(r) && r[0] == head
    ensures pos == InsertPos(Responses(r), d) && pos < |r| && behind == r[pos]
  {
    ghost var times := Responses(r);
    var empty := ListEmpty(head, r);
    if empty {
      return head, 0;
    }
    assert head.next == r[1] && times[0] == r[1].response;
    if head.next.response > d {
      return head, 0;
    } else if head.next.response == d {
      return head.next, 1;
    }
    behind, pos := WalkBack(head, d, r);
  }

  twostate lemma SameResponses(r: seq<Node>)
    requires |r| > 0 && forall i :: 0 <= i < |r| ==> r[i].response == old(r[i].response)
    ensures Responses(r) == old(Responses(r))
  {
  }

  /** OsAddNode2SortLink. */
  method AddNode(head: Node, node: Node, ghost r: seq<Node>) returns (ghost pos: nat)
    requires Ring(r) && r[0] == head && node !in r
    modifies r, node`next, node`prev
    ensures pos == InsertPos(old(Responses(r)), node.response)
    ensures Ring(Inserted(r, pos + 1, node))
    ensures Responses(Inserted(r, pos + 1, node)) == Inserted(old(Responses(r)), pos, node.response)
  {
    var behind;
    behind, pos := FindPlace(head, node.response, r);
    ListAdd(behind, node, r, pos);
    SameResponses(r);
    InsertedResponses(r, pos, node);
    hide Ring, Responses, Inserted, InsertPos;
  }

  lemma {:induction false} RemovedResponses(r: seq<Node>, pos: nat)
    requires pos + 1 < |r|
    ensures Responses(Removed(r, pos + 1)) == Removed(Responses(r), pos)
  {
  }

  /** OsDeleteNodeSortLink on the member at `pos`. */
  method DeleteNode(node: Node, ghost r: seq<Node>, ghost pos: nat)
    requires Ring(r) && pos + 1 < |r| && r[pos + 1] == node
    modifies r
    ensures Ring(Removed(r, pos + 1)) && node.next == null && node.prev == null && node.response == MAX_TIME
    ensures Responses(Removed(r, pos + 1)) == Removed(old(Responses(r)), pos)
  {
    ListDelete(node, r, pos + 1);
    SameResponses(r);
    RemovedResponses(r, pos);
    ghost var t := Removed(r, pos + 1);
    assert forall i :: 0 <= i < |t| ==> t[i] != node;
    hide Responses;
    SetResponse(node, t);
  }

  /** SET_SORTLIST_VALUE on a node outside the list. */
  method SetResponse(node: Node, ghost r: seq<Node>)
    requires Ring(r) && node !in r
    modifies node`response
    ensures node.response == MAX_TIME && Ring(r) && Responses(r) == old(Responses(r))
  {
    node.response := MAX_TIME;
    SameResponses(r);
  }

  /** SortLinkNodeTimeUpdate: every deadline is converted to the new frequency. */
  method TimeUpdate(head: Node, oldFreq: nat, sysClock: nat, ghost r: seq<Node>)
    requires Ring(r) && r[0] == head && oldFreq > 0 && sysClock > 0
    modifies r
    ensures Ring(r)
    ensures Responses(r) == Converted(old(Responses(r)), oldFreq, sysClock)
  {
    var empty := ListEmpty(head, r);
    if empty {
      return;
    }
    var node := head.next;
    ghost var k := 1;
    while node != head
      invariant 1 <= k <= |r| && node == r[if k == |r| then 0 else k]
      invariant Ring(r)
      invariant forall i :: 1 <= i < k ==> r[i].response == TimeArith.ConvertFreq(old(r[i].response), oldFreq, sysClock)
      invariant forall i :: k <= i < |r| ==> r[i].response == old(r[i].response)
      decreases |r| - k
    {
      node.response := TimeArith.ConvertFreq(node.response, oldFreq, sysClock);
      node := node.next;
      k := k + 1;
    }
  }

  function Converted(times: seq<nat>, oldFreq: nat, newFreq: nat): (r: seq<nat>)
    requires oldFreq > 0 && newFreq > 0
  {
    seq(|times|, i requires 0 <= i < |times| => TimeArith.ConvertFreq(times[i], oldFreq, newFreq))
  }

  /** Changing the clock frequency keeps the sort link ordered. */
  lemma {:induction false} ConvertedSorted(times: seq<nat>, oldFreq: nat, newFreq: nat)
    requires Sorted(times) && oldFreq > 0 && newFreq > 0
    ensures Sorted(Converted(times, oldFreq, newFreq))
  {
    forall i, j | 0 <= i < j < |times|
      ensures Converted(times, oldFreq, newFreq)[i] <= Converted(times, oldFreq, newFreq)[j]
    {
      TimeArith.ConvertMonotone(times[i], times[j], oldFreq, newFreq);
    }
  }
}
