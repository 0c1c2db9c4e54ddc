/** Where a deadline goes in the sort link. */
module Deadlines {
  import opened TickTimer

  /** The backward walk: one past the last deadline not later than `d`, at or below `i`. */
  function LastNotLater(times: seq<nat>, d: nat, i: nat): (pos: nat)
    requires 0 < i <= |times|
    requires times[0] <= d
    ensures 0 < pos <= i
    ensures times[pos - 1] <= d
    ensures forall j :: pos <= j < i ==> d < times[j]
  {
    if times[i - 1] <= d then i else LastNotLater(times, d, i - 1)
  }

  /** OsAddNode2SortLink: a deadline equal to the first goes right behind it, any other
      goes behind every deadline not later than itself. */
  function InsertPos(times: seq<nat>, d: nat): (pos: nat)
    ensures pos <= |times|
    ensures Sorted(times) ==> forall i :: 0 <= i < pos ==> times[i] <= d
    ensures Sorted(times) ==> forall i :: pos <= i < |times| ==> d <= times[i]
  {
    if times == [] || times[0] > d then 0
    else if times[0] == d then 1
    else LastNotLater(times, d, |times|)
  }

  /** A deadline goes behind all equal ones, exactly unless the first two both equal it. */
  lemma {:induction false} BehindEquals(times: seq<nat>, d: nat)
    requires Sorted(times)
    ensures (forall i :: InsertPos(times, d) <= i < |times| ==> d < times[i]) <==>
            !(|times| > 1 && times[0] == d && times[1] == d)
  {
    if times != [] && times[0] == d {
      assert forall i :: 1 <= i < |times| ==> times[1] <= times[i];
    }
  }

  /** Inserting at that position keeps the deadlines ordered. */
  lemma {:induction false} InsertKeepsSorted(times: seq<nat>, d: nat)
    requires Sorted(times)
    ensures var pos := InsertPos(times, d); Sorted(times[..pos] + [d] + times[pos..])
  {
    hide InsertPos;
    var pos := InsertPos(times, d);
    var r := times[..pos] + [d] + times[pos..];
    forall i: nat, j: nat | i < j < |r| ensures r[i] <= r[j] {
      InsertedAt(times, pos, d, i);
      InsertedAt(times, pos, d, j);
    }
  }

  lemma {:induction false} InsertedAt(times: seq<nat>, pos: nat, d: nat, i: nat)
    requires pos <= |times| && i <= |times|
    ensures (times[..pos] + [d] + times[pos..])[i] == if i < pos then times[i] else if i == pos then d else times[i - 1]
  {
  }

  /** So does taking a deadline out. */
  lemma {:induction false} RemoveKeepsSorted(times: seq<nat>, i: nat)
    requires i < |times| && Sorted(times)
    ensures Sorted(times[..i] + times[i + 1..])
  {
    var r := times[..i] + times[i + 1..];
    assert forall j :: 0 <= j < |r| ==> r[j] == if j < i then times[j] else times[j + 1];
  }
}
