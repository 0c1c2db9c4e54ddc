/** The `pendList` nodes of all tasks, the ready queues with their bitmap, and the wait lists. */
module Queues {
  import opened Lists

  const PRIORITIES: nat := 32

  /** The list heads a task's `pendList` node can be linked into. */
  datatype ListId = ReadyQ(p: nat) | WaitQ(w: nat)

  /** What the links of a `pendList` node say: the list it is on, or no list. */
  datatype Link = Unlinked | LinkedTo(l: ListId)

  datatype Queues = Queues(links: seq<Link>, lists: map<ListId, seq<nat>>, bitmap: set<nat>)

  /** A node is on the list its links name, exactly once, and on no other. */
  ghost predicate Membership(links: seq<Link>, lists: map<ListId, seq<nat>>) {
    && (forall l, t {:trigger t in lists[l]} :: l in lists && t in lists[l] ==>
          t < |links| && links[t] == LinkedTo(l))
    && (forall t :: 0 <= t < |links| && links[t].LinkedTo? ==>
          links[t].l in lists && t in lists[links[t].l])
    && (forall l :: l in lists ==> NoDup(lists[l]))
  }

  /** A bit is set exactly when its queue is non-empty. */
  ghost predicate BitmapOk(lists: map<ListId, seq<nat>>, bitmap: set<nat>) {
    && (forall p :: 0 <= p < PRIORITIES ==> ReadyQ(p) in lists)
    && (forall p :: p in bitmap ==> p < PRIORITIES)
    && (forall p :: 0 <= p < PRIORITIES ==> (p in bitmap <==> lists[ReadyQ(p)] != []))
  }

  ghost predicate QueuesOk(q: Queues) {
    Membership(q.links, q.lists) && BitmapOk(q.lists, q.bitmap)
  }

  // ---------------------------------------------------------------- linking

  lemma {:induction false} LinkKeeps(links: seq<Link>, lists: map<ListId, seq<nat>>, t: nat, l: ListId, s: seq<nat>)
    requires Membership(links, lists) && t < |links| && links[t].Unlinked? && l in lists
    requires s == [t] + lists[l] || s == lists[l] + [t]
    ensures Membership(links[t := LinkedTo(l)], lists[l := s])
  {
    assert t !in lists[l];
    assert NoDup(s);
    assert forall u :: u in s <==> u in lists[l] || u == t;
  }

  lemma {:induction false} UnlinkKeeps(links: seq<Link>, lists: map<ListId, seq<nat>>, t: nat)
    requires Membership(links, lists) && t < |links| && links[t].LinkedTo?
    ensures links[t].l in lists
    ensures var l := links[t].l; Membership(links[t := Unlinked], lists[l := Without(lists[l], t)])
  {
  }

  /** LOS_ListTailInsert on a wait list. */
  function TailInsert(q: Queues, t: nat, w: nat): (r: Queues)
    requires QueuesOk(q) && t < |q.links| && q.links[t].Unlinked? && WaitQ(w) in q.lists
    ensures QueuesOk(r) && r.links == q.links[t := LinkedTo(WaitQ(w))]
  {
    LinkKeeps(q.links, q.lists, t, WaitQ(w), q.lists[WaitQ(w)] + [t]);
    Queues(q.links[t := LinkedTo(WaitQ(w))], q.lists[WaitQ(w) := q.lists[WaitQ(w)] + [t]], q.bitmap)
  }

  /** LOS_ListDelete on a node that waits: it leaves whatever wait list it is on. */
  function Delete(q: Queues, t: nat): (r: Queues)
    requires QueuesOk(q) && t < |q.links| && q.links[t].LinkedTo? && q.links[t].l.WaitQ?
    ensures QueuesOk(r) && r.links == q.links[t := Unlinked]
  {
    UnlinkKeeps(q.links, q.lists, t);
    var l := q.links[t].l;
    Queues(q.links[t := Unlinked], q.lists[l := Without(q.lists[l], t)], q.bitmap)
  }

  /** The wait lists are the same. */
  ghost predicate SameWaitLists(q: Queues, r: Queues) {
    && (forall w :: WaitQ(w) in r.lists <==> WaitQ(w) in q.lists)
    && (forall w :: WaitQ(w) in q.lists ==> r.lists[WaitQ(w)] == q.lists[WaitQ(w)])
  }

  /** OsSchedPriQueueEnHead and OsSchedPriQueueEnTail. */
  function PriEn(q: Queues, t: nat, p: nat, head: bool): (r: Queues)
    requires QueuesOk(q) && t < |q.links| && q.links[t].Unlinked? && p < PRIORITIES
    ensures QueuesOk(r) && r.links == q.links[t := LinkedTo(ReadyQ(p))] && SameWaitLists(q, r)
  {
    var l := ReadyQ(p);
    var s := if head then [t] + q.lists[l] else q.lists[l] + [t];
    LinkKeeps(q.links, q.lists, t, l, s);
    Queues(q.links[t := LinkedTo(l)], q.lists[l := s], if q.lists[l] == [] then q.bitmap + {p} else q.bitmap)
  }

  /** OsSchedPriQueueDelete. */
  function PriDelete(q: Queues, t: nat, p: nat): (r: Queues)
    requires QueuesOk(q) && t < |q.links| && q.links[t] == LinkedTo(ReadyQ(p)) && p < PRIORITIES
    ensures QueuesOk(r) && r.links == q.links[t := Unlinked] && SameWaitLists(q, r)
  {
    UnlinkKeeps(q.links, q.lists, t);
    var s := Without(q.lists[ReadyQ(p)], t);
    Queues(q.links[t := Unlinked], q.lists[ReadyQ(p) := s], if s == [] then q.bitmap - {p} else q.bitmap)
  }

  // ---------------------------------------------------------------- choosing

  /** The number of leading zeros of the bitmap, from bit `p` on. */
  function Clz(bitmap: set<nat>, p: nat): (r: nat)
    requires p <= PRIORITIES
    ensures p <= r <= PRIORITIES
    ensures r < PRIORITIES ==> r in bitmap
    ensures forall q :: p <= q < r ==> q !in bitmap
    decreases PRIORITIES - p
  {
    if p == PRIORITIES || p in bitmap then p else Clz(bitmap, p + 1)
  }

  /** OsGetTopTask: the head of the most urgent non-empty queue. */
  function Top(q: Queues, idle: nat): (t: nat)
    requires QueuesOk(q)
  {
    if q.bitmap == {} then idle
    else
      var p := Clz(q.bitmap, 0);
      if p < PRIORITIES then q.lists[ReadyQ(p)][0] else idle
  }

  /** The task chosen is queued, no queued task is more urgent, and it is idle only when
      nothing is queued. */
  lemma {:induction false} TopMostUrgent(q: Queues, idle: nat)
    requires QueuesOk(q)
    ensures q.bitmap != {} ==> Top(q, idle) < |q.links| && q.links[Top(q, idle)] == LinkedTo(ReadyQ(Clz(q.bitmap, 0)))
    ensures q.bitmap == {} ==> Top(q, idle) == idle
    ensures forall t, r :: 0 <= t < |q.links| && 0 <= r < PRIORITIES && q.links[t] == LinkedTo(ReadyQ(r)) ==>
              r in q.bitmap && Clz(q.bitmap, 0) <= r
    ensures q.bitmap != {} ==> Clz(q.bitmap, 0) < PRIORITIES
  {
    forall t, r | 0 <= t < |q.links| && 0 <= r < PRIORITIES && q.links[t] == LinkedTo(ReadyQ(r))
      ensures r in q.bitmap
    {
      assert t in q.lists[ReadyQ(r)];
    }
    if q.bitmap != {} {
      var b :| b in q.bitmap;
      var p := Clz(q.bitmap, 0);
      assert p <= b;
      assert q.lists[ReadyQ(p)][0] in q.lists[ReadyQ(p)];
    }
  }
}
