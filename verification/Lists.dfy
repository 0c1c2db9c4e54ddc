/** Sequences used as the abstract value of the kernel's intrusive lists. */
module Lists {

  ghost predicate NoDup<T>(s: seq<T>) {
    forall i, j :: 0 <= i < j < |s| ==> s[i] != s[j]
  }

  /** The list holds its members in the order of their ranks. */
  ghost predicate Increasing(s: seq<nat>, rank: seq<nat>) {
    && (forall i :: 0 <= i < |s| ==> s[i] < |rank|)
    && (forall i, j :: 0 <= i < j < |s| ==> rank[s[i]] < rank[s[j]])
  }

  /** The list after unlinking the node of `t`. */
  function Without(s: seq<nat>, t: nat): (r: seq<nat>)
    ensures forall x :: x in r ==> x in s
    ensures forall x :: x in s && x != t ==> x in r
    ensures NoDup(s) ==> NoDup(r) && t !in r
    ensures t !in s ==> r == s
    ensures |r| == if t in s then |s| - 1 else |s|
  {
    if s == [] then []
    else if s[0] == t then s[1..]
    else
      var rest := Without(s[1..], t);
      assert s == [s[0]] + s[1..];
      assert NoDup(s) ==> s[0] !in s[1..] && NoDup(s[1..]);
      assert s[0] !in s[1..] ==> s[0] !in rest;
      [s[0]] + rest
  }

  /** The position of `t`, or the length of the list when it is not there. */
  function IndexOf(s: seq<nat>, t: nat): (i: nat)
    ensures i <= |s| && (i < |s| ==> s[i] == t) && (i == |s| ==> t !in s)
  {
    if s == [] || s[0] == t then 0 else 1 + IndexOf(s[1..], t)
  }

  /** Unlinking takes out one position and keeps the order of the others. */
  lemma {:induction false} WithoutAt(s: seq<nat>, t: nat, a: nat)
    requires a < |Without(s, t)|
    ensures var b := if a < IndexOf(s, t) then a else a + 1;
      b < |s| && Without(s, t)[a] == s[b]
  {
    if s[0] != t && a > 0 {
      WithoutAt(s[1..], t, a - 1);
    }
  }

  lemma {:induction false} WithoutKeepsOrder(s: seq<nat>, t: nat, rank: seq<nat>)
    requires Increasing(s, rank)
    ensures Increasing(Without(s, t), rank)
  {
    var r := Without(s, t);
    forall a | 0 <= a < |r| ensures r[a] < |rank| {
      WithoutAt(s, t, a);
    }
    forall a, b | 0 <= a < b < |r| ensures rank[r[a]] < rank[r[b]] {
      WithoutAt(s, t, a);
      WithoutAt(s, t, b);
    }
  }

  /** Linking a new node in at `pos` adds exactly that node. */
  lemma {:induction false} InsertMembers(s: seq<nat>, t: nat, pos: nat)
    requires pos <= |s| && NoDup(s) && t !in s
    ensures var r := s[..pos] + [t] + s[pos..];
      NoDup(r) && forall x :: x in r <==> x in s || x == t
  {
    var r := s[..pos] + [t] + s[pos..];
    assert forall j :: 0 <= j < |r| ==> r[j] == if j < pos then s[j] else if j == pos then t else s[j - 1];
    forall x | x in s ensures x in r {
      var i :| 0 <= i < |s| && s[i] == x;
      assert r[if i < pos then i else i + 1] == x;
    }
    assert r[pos] == t;
  }
}
