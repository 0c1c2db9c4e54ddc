/** The deadlines of all tasks and the order the sort link keeps them in. */
module SortLinks {
  import opened Lists
  import opened TickTimer
  import opened Deadlines

  /** `due[t]` is the response time of the sort-link node of task `t`. */
  datatype SortLink = SortLink(due: seq<nat>, order: seq<nat>)

  function DueOf(due: seq<nat>, t: nat): (d: nat) {
    if t < |due| then due[t] else MAX_TIME
  }

  /** The deadlines in list order. */
  function Times(s: SortLink): (r: seq<nat>)
    ensures |r| == |s.order|
    ensures forall i :: 0 <= i < |r| ==> r[i] == DueOf(s.due, s.order[i])
  {
    seq(|s.order|, i requires 0 <= i < |s.order| => DueOf(s.due, s.order[i]))
  }

  /** The tasks are listed in the order of their deadlines. */
  ghost predicate Ordered(due: seq<nat>, order: seq<nat>) {
    forall i, j :: 0 <= i < j < |order| ==> DueOf(due, order[i]) <= DueOf(due, order[j])
  }

  /** The list is ordered and holds exactly the tasks with a valid response time. */
  ghost predicate Valid(s: SortLink) {
    && NoDup(s.order) && Ordered(s.due, s.order)
    && (forall t :: t in s.order <==> 0 <= t < |s.due| && s.due[t] != MAX_TIME)
  }

  /** OsDeleteNodeSortLink. */
  function Drop(s: SortLink, t: nat): (r: SortLink)
    requires t < |s.due|
  {
    SortLink(s.due[t := MAX_TIME], Without(s.order, t))
  }

  lemma {:induction false} DropKeeps(s: SortLink, t: nat)
    requires Valid(s) && t < |s.due|
    ensures Valid(Drop(s, t))
  {
    DropOrdered(s, t);
    hide Ordered;
    assert t !in Without(s.order, t);
  }

  /** A deadline left after a deletion was there before, in the same order. */
  lemma {:induction false} DropAt(s: SortLink, t: nat, i: nat)
    requires NoDup(s.order) && t < |s.due| && i < |Drop(s, t).order|
    ensures var d := Drop(s, t); var j := if i < IndexOf(s.order, t) then i else i + 1;
      j < |s.order| && DueOf(d.due, d.order[i]) == DueOf(s.due, s.order[j])
  {
    WithoutAt(s.order, t, i);
    assert Without(s.order, t)[i] in Without(s.order, t);
    hide NoDup;
  }

  lemma {:induction false} DropOrdered(s: SortLink, t: nat)
    requires NoDup(s.order) && Ordered(s.due, s.order) && t < |s.due|
    ensures Ordered(Drop(s, t).due, Drop(s, t).order)
  {
    hide NoDup, DueOf, Drop;
    var d := Drop(s, t);
    forall i, j | 0 <= i < j < |d.order| ensures DueOf(d.due, d.order[i]) <= DueOf(d.due, d.order[j]) {
      DropAt(s, t, i);
      DropAt(s, t, j);
    }
  }

  /** OsAdd2SortLink with the deadline already computed. */
  function Add(s: SortLink, t: nat, d: nat): (r: SortLink)
    requires t < |s.due|
  {
    var pos := InsertPos(Times(s), d);
    SortLink(s.due[t := d], s.order[..pos] + [t] + s.order[pos..])
  }

  lemma {:induction false} AddKeeps(s: SortLink, t: nat, d: nat)
    requires Valid(s) && t < |s.due| && s.due[t] == MAX_TIME && d != MAX_TIME
    ensures Valid(Add(s, t, d))
  {
    var pos := InsertPos(Times(s), d);
    InsertMembers(s.order, t, pos);
    AddOrdered(s, t, d);
  }

  lemma {:induction false} AddOrdered(s: SortLink, t: nat, d: nat)
    requires Ordered(s.due, s.order) && t < |s.due| && t !in s.order
    ensures Ordered(Add(s, t, d).due, Add(s, t, d).order)
  {
    var a := Add(s, t, d);
    var pos := InsertPos(Times(s), d);
    forall i, j | 0 <= i < j < |a.order| ensures DueOf(a.due, a.order[i]) <= DueOf(a.due, a.order[j]) {
      AddAt(s, t, d, i);
      AddAt(s, t, d, j);
    }
  }

  lemma {:induction false} AddAt(s: SortLink, t: nat, d: nat, j: nat)
    requires t < |s.due| && t !in s.order && j <= |s.order|
    ensures var pos := InsertPos(Times(s), d); var a := Add(s, t, d);
      DueOf(a.due, a.order[j]) ==
        if j < pos then DueOf(s.due, s.order[j]) else if j == pos then d else DueOf(s.due, s.order[j - 1])
  {
    var pos := InsertPos(Times(s), d);
    if j != pos {
      var i := if j < pos then j else j - 1;
      assert Add(s, t, d).order[j] == s.order[i] && s.order[i] in s.order;
    }
  }
}
