/** Symbol lookup of the dynamic linker. Names are the bytes of a C string without its terminator. */
module DynLink {
  import opened Basics

  type Name = seq<bv8>

  // ------------------------------------------------------------ the hash

  function Shifted(h: bv32): (v: bv32) { h << 4 }

  function Plus(a: bv32, b: bv32): (v: bv32) { a + b }

  function Mix(h: bv32, c: bv8): (v: bv32) { Plus(c as bv32, Shifted(h)) }

  function Top(v: bv32): (g: bv32) { v & 0xf000_0000 }

  function Cleared(v: bv32, g: bv32): (r: bv32) { v & !g }

  function Fold(v: bv32): (r: bv32) { Cleared(v ^ (Top(v) >> 24), Top(v)) }

  /** One round of the hash function in the System V ABI, chapter 5, "Hash Table". */
  function Round(h: bv32, c: bv8): (r: bv32) { Fold(Mix(h, c)) }

  function Hash(name: Name): (h: bv32) {
    if name == [] then 0 else Round(Hash(name[..|name| - 1]), name[|name| - 1])
  }

  /** The same hash with the four top bits left in place until the end. */
  function LateFold(v: bv32): (r: bv32) { v ^ ((v >> 24) & 0xf0) }

  function LateRound(h: bv32, c: bv8): (r: bv32) { LateFold(Mix(h, c)) }

  function LateHash(name: Name): (h: bv32) {
    if name == [] then 0 else LateRound(LateHash(name[..|name| - 1]), name[|name| - 1])
  }

  function Low28(h: bv32): (r: bv32) { h & 0x0fff_ffff }

  predicate Small(h: bv32) { h < 0x1000_0000 }

  /** A round in numbers: with sixteen times the hash plus the byte, what leaves 28 bits at the top comes back in
      above the lowest four. */
  lemma {:induction false} RoundExactly(h: bv32, c: bv8)
    ensures var v := Plus(c as bv32, 16 * h); Round(h, c) == (v & 0x0fff_ffff) ^ ((v >> 28) << 4)
  {
    MixNumber(h, c);
    FoldNumber(Mix(h, c));
    hide Mix, Fold;
  }

  lemma {:induction false} MixNumber(h: bv32, c: bv8)
    ensures Mix(h, c) == Plus(c as bv32, 16 * h)
  {
    hide Plus, Shifted;
    ShiftNumber(h);
  }

  lemma {:induction false} ShiftNumber(h: bv32)
    ensures Shifted(h) == 16 * h
  {
  }

  lemma {:induction false} FoldNumber(v: bv32)
    ensures Fold(v) == (v & 0x0fff_ffff) ^ ((v >> 28) << 4)
  {
  }

  lemma {:induction false} FoldSmall(v: bv32)
    ensures Small(Fold(v))
  {
  }

  lemma {:induction false} FoldLate(v: bv32)
    ensures Fold(v) == Low28(LateFold(v))
  {
  }

  lemma {:induction false} MixLow(h: bv32, c: bv8)
    ensures Mix(Low28(h), c) == Mix(h, c)
  {
    hide Plus, Shifted, Low28;
    ShiftLow(h);
  }

  lemma {:induction false} ShiftLow(h: bv32)
    ensures Shifted(Low28(h)) == Shifted(h)
  {
  }

  lemma {:induction false} ZeroLow()
    ensures Low28(0) == 0 && Small(0)
  {
  }

  /** The hash has 28 bits, and clearing the top bits every round or once at the end is the same. */
  lemma {:induction false} HashLate(name: Name)
    ensures Hash(name) == Low28(LateHash(name))
    ensures Small(Hash(name))
  {
    hide Mix, Fold, LateFold, Low28, Small;
    if name == [] {
      ZeroLow();
    } else {
      var front := name[..|name| - 1];
      HashLate(front);
      var c := name[|name| - 1];
      MixLow(LateHash(front), c);
      FoldLate(Mix(LateHash(front), c));
      FoldSmall(Mix(Hash(front), c));
    }
  }

  lemma {:induction false} XorNothing(v: bv32, g: bv32)
    ensures g == 0 ==> v ^ (g >> 24) == v
  {
  }

  /** The second half of the loop body of OsGetHashVal. */
  method FoldTop(v: bv32) returns (hash: bv32)
    ensures hash == Fold(v)
  {
    hide Top, Cleared;
    hash := v;
    var tmp := Top(hash);
    if tmp != 0 {
      hash := hash ^ (tmp >> 24);
    }
    hash := Cleared(hash, tmp);
    XorNothing(v, tmp);
  }

  /** OsGetHashVal. */
  method GetHashVal(name: Name) returns (hash: bv32)
    ensures hash == Hash(name)
    ensures Small(hash)
  {
    hide Mix, Fold, Small;
    hash := 0;
    for i := 0 to |name|
      invariant hash == Hash(name[..i])
    {
      assert name[..i + 1][..i] == name[..i];
      hash := Mix(hash, name[i]);
      hash := FoldTop(hash);
    }
    assert name[..|name|] == name;
    HashLate(name);
  }

  // ------------------------------------------------------------ symbols of a shared object

  /** A symbol table entry with its name read from the string table. */
  datatype Sym = Sym(name: Name, value: nat, shndx: nat)

  /** The symbol table and the System V hash table of an object; entry 0 stands for no symbol. */
  datatype Dso = Dso(syms: seq<Sym>, bucket: seq<nat>, chain: seq<nat>)

  predicate Defined(s: Sym) { s.value != 0 && s.shndx != 0 }

  function BucketOf(dso: Dso, name: Name): (b: nat)
    requires |dso.bucket| > 0
  {
    Hash(name) as nat % |dso.bucket|
  }

  function NodeAt(path: seq<nat>, k: nat): (i: nat) { if k < |path| then path[k] else 0 }

  /** `path` are the symbols that bucket `b` leads to, in order, up to the 0 that ends them. */
  ghost predicate Leads(dso: Dso, b: nat, path: seq<nat>)
    requires b < |dso.bucket|
  {
    && (forall k :: 0 <= k < |path| ==> 0 < path[k] < |dso.syms| && path[k] < |dso.chain|)
    && dso.bucket[b] == NodeAt(path, 0)
    && forall k :: 0 <= k < |path| ==> dso.chain[path[k]] == NodeAt(path, k + 1)
  }

  /** Every chain ends. */
  ghost predicate Chained(dso: Dso, paths: seq<seq<nat>>) {
    && |dso.bucket| > 0
    && |paths| == |dso.bucket|
    && forall b :: 0 <= b < |paths| ==> Leads(dso, b, paths[b])
  }

  /** The first place on a path, from `k` on, with the name. */
  function Along(syms: seq<Sym>, path: seq<nat>, name: Name, k: nat): (r: Option<nat>)
    requires k <= |path| && forall j :: 0 <= j < |path| ==> path[j] < |syms|
    ensures r.Some? ==> r.value < |syms| && syms[r.value].name == name && exists j :: k <= j < |path| && path[j] == r.value
    ensures r.None? ==> forall j :: k <= j < |path| ==> syms[path[j]].name != name
    decreases |path| - k
  {
    if k == |path| then None
    else if syms[path[k]].name == name then Some(path[k])
    else Along(syms, path, name, k + 1)
  }

  /** It is the first one: no place before it has the name, and none at all if nothing is found. */
  lemma {:induction false} AlongFirst(syms: seq<Sym>, path: seq<nat>, name: Name, k: nat)
    requires k <= |path| && forall j :: 0 <= j < |path| ==> path[j] < |syms|
    ensures var r := Along(syms, path, name, k);
      if r.None? then forall j :: k <= j < |path| ==> syms[path[j]].name != name
      else exists j :: k <= j < |path| && path[j] == r.value && forall l :: k <= l < j ==> syms[path[l]].name != name
    decreases |path| - k
  {
    if k < |path| && syms[path[k]].name != name {
      AlongFirst(syms, path, name, k + 1);
      var r := Along(syms, path, name, k);
      if r.Some? {
        var j :| k + 1 <= j < |path| && path[j] == r.value && forall l :: k + 1 <= l < j ==> syms[path[l]].name != name;
        assert forall l :: k <= l < j ==> syms[path[l]].name != name;
      }
    }
  }

  function IfDefined(syms: seq<Sym>, r: Option<nat>): (d: Option<nat>)
    requires r.Some? ==> r.value < |syms|
  {
    if r.Some? && !Defined(syms[r.value]) then None else r
  }

  /** The symbol an object defines for the name, by a scan of the whole symbol table. */
  function Scan(syms: seq<Sym>, name: Name, i: nat): (r: Option<nat>)
    requires i <= |syms|
    ensures r.Some? ==> i <= r.value < |syms| && syms[r.value].name == name
    ensures r.None? ==> forall j :: i <= j < |syms| ==> syms[j].name != name
    decreases |syms| - i
  {
    if i == |syms| then None
    else if syms[i].name == name then Some(i)
    else Scan(syms, name, i + 1)
  }

  /** OsFindSymInDso. */
  method FindSymInDso(dso: Dso, name: Name, ghost paths: seq<seq<nat>>) returns (r: Option<nat>)
    requires Chained(dso, paths)
    ensures r == IfDefined(dso.syms, Along(dso.syms, paths[BucketOf(dso, name)], name, 0))
  {
    var hash := GetHashVal(name);
    ghost var path := paths[BucketOf(dso, name)];
    assert Leads(dso, BucketOf(dso, name), path);
    var i := dso.bucket[hash as nat % |dso.bucket|];
    ghost var k := 0;
    while i != 0
      invariant 0 <= k <= |path|
      invariant i == NodeAt(path, k)
      invariant Along(dso.syms, path, name, 0) == Along(dso.syms, path, name, k)
      decreases |path| - k
    {
      if dso.syms[i].name != name {
        assert dso.chain[path[k]] == NodeAt(path, k + 1);
        i := dso.chain[i];
        k := k + 1;
        continue;
      }
      if dso.syms[i].value == 0 || dso.syms[i].shndx == 0 {
        return None;
      }
      return Some(i);
    }
    r := None;
  }

  ghost predicate DistinctNames(syms: seq<Sym>) {
    forall i, j :: 0 < i < |syms| && 0 < j < |syms| && syms[i].name == syms[j].name ==> i == j
  }

  /** Every defined symbol is on the chain of its name's bucket. */
  ghost predicate Indexed(dso: Dso, paths: seq<seq<nat>>)
    requires Chained(dso, paths)
  {
    forall i :: 0 < i < |dso.syms| && Defined(dso.syms[i]) ==> i in paths[BucketOf(dso, dso.syms[i].name)]
  }

  function Lookup(dso: Dso, name: Name, paths: seq<seq<nat>>): (r: Option<nat>)
    requires Chained(dso, paths)
  {
    assert Leads(dso, BucketOf(dso, name), paths[BucketOf(dso, name)]);
    IfDefined(dso.syms, Along(dso.syms, paths[BucketOf(dso, name)], name, 0))
  }

  function Linear(dso: Dso, name: Name): (r: Option<nat>)
    requires |dso.syms| > 0
  {
    IfDefined(dso.syms, Scan(dso.syms, name, 1))
  }

  /** The chain walk finds what a scan of the table finds, for every name, exactly if every defined
      symbol is on its chain. */
  lemma {:induction false} LookupIsScan(dso: Dso, paths: seq<seq<nat>>)
    requires Chained(dso, paths) && |dso.syms| > 0 && DistinctNames(dso.syms)
    ensures (forall name: Name :: Lookup(dso, name, paths) == Linear(dso, name)) <==> Indexed(dso, paths)
  {
    if Indexed(dso, paths) {
      forall name: Name ensures Lookup(dso, name, paths) == Linear(dso, name) {
        FoundByScan(dso, paths, name);
      }
    } else {
      var i :| 0 < i < |dso.syms| && Defined(dso.syms[i]) && i !in paths[BucketOf(dso, dso.syms[i].name)];
      NotFound(dso, paths, i);
    }
  }

  lemma {:induction false} FoundByScan(dso: Dso, paths: seq<seq<nat>>, name: Name)
    requires Chained(dso, paths) && |dso.syms| > 0 && DistinctNames(dso.syms) && Indexed(dso, paths)
    ensures Lookup(dso, name, paths) == Linear(dso, name)
  {
    var path := paths[BucketOf(dso, name)];
    assert Leads(dso, BucketOf(dso, name), path);
    var found, scanned := Along(dso.syms, path, name, 0), Scan(dso.syms, name, 1);
    assert found.Some? ==> scanned.Some?;
    assert scanned.Some? && Defined(dso.syms[scanned.value]) ==> scanned.value in path && found.Some?;
  }

  lemma {:induction false} NotFound(dso: Dso, paths: seq<seq<nat>>, i: nat)
    requires Chained(dso, paths) && 0 < i < |dso.syms| && DistinctNames(dso.syms)
    requires Defined(dso.syms[i]) && i !in paths[BucketOf(dso, dso.syms[i].name)]
    ensures Lookup(dso, dso.syms[i].name, paths) == None
    ensures Linear(dso, dso.syms[i].name) == Some(i)
  {
    var name := dso.syms[i].name;
    var path := paths[BucketOf(dso, name)];
    assert Leads(dso, BucketOf(dso, name), path);
    assert Scan(dso.syms, name, 1).Some?;
  }

  // ------------------------------------------------------------ the exported symbol table

  datatype Order = Before | Same | After

  /** strcmp, by unsigned bytes; the end of a string comes before every byte. */
  function StrCmp(a: Name, b: Name): (o: Order) {
    if a == [] then (if b == [] then Same else Before)
    else if b == [] then After
    else if a[0] < b[0] then Before
    else if a[0] > b[0] then After
    else StrCmp(a[1..], b[1..])
  }

  /** The first place where two names differ, or the end of one, decides. */
  lemma {:induction false} StrCmpExactly(a: Name, b: Name, k: nat)
    requires k <= |a| && k <= |b| && a[..k] == b[..k] && (k == |a| || k == |b| || a[k] != b[k])
    ensures StrCmp(a, b) ==
              if k == |a| && k == |b| then Same else if k == |a| then Before else if k == |b| then After
              else if a[k] < b[k] then Before else After
  {
    if k > 0 {
      assert a[0] == a[..k][0] == b[..k][0] == b[0];
      assert a[1..][..k - 1] == a[..k][1..] && b[1..][..k - 1] == b[..k][1..];
      StrCmpExactly(a[1..], b[1..], k - 1);
    }
  }

  lemma {:induction false} SameIsEqual(a: Name, b: Name)
    ensures StrCmp(a, b).Same? <==> a == b
  {
    if a != [] && b != [] {
      SameIsEqual(a[1..], b[1..]);
      assert a == [a[0]] + a[1..] && b == [b[0]] + b[1..];
    }
  }

  lemma {:induction false} BeforeTransitive(a: Name, b: Name, c: Name)
    requires !StrCmp(a, b).After? && StrCmp(b, c).Before?
    ensures StrCmp(a, c).Before?
  {
    if a != [] && b != [] && c != [] && a[0] == b[0] == c[0] {
      BeforeTransitive(a[1..], b[1..], c[1..]);
    }
  }

  lemma {:induction false} AfterTransitive(a: Name, b: Name, c: Name)
    requires StrCmp(b, a).After? && !StrCmp(b, c).After?
    ensures StrCmp(c, a).After?
  {
    if a != [] && b != [] && c != [] && a[0] == b[0] == c[0] {
      AfterTransitive(a[1..], b[1..], c[1..]);
    }
  }

  ghost predicate SortedNames(table: seq<Name>) {
    forall i, j :: 0 <= i < j < |table| ==> !StrCmp(table[i], table[j]).After?
  }

  /** OsFindSymInTable. */
  method FindSymInTable(table: seq<Name>, name: Name) returns (r: Option<nat>)
    requires SortedNames(table)
    ensures r.None? <==> name !in table
    ensures r.Some? ==> r.value < |table| && table[r.value] == name
  {
    var start, end: int := 0, |table| - 1;
    while start <= end
      invariant 0 <= start <= end + 1 <= |table|
      invariant forall i :: 0 <= i < start ==> StrCmp(table[i], name).Before?
      invariant forall i :: end < i < |table| ==> StrCmp(table[i], name).After?
      decreases end - start
    {
      var mid := start + (end - start) / 2;
      var order := StrCmp(table[mid], name);
      if order.After? {
        forall i | mid <= i < |table| ensures StrCmp(table[i], name).After? {
          if mid < i {
            AfterTransitive(name, table[mid], table[i]);
          }
        }
        end := mid - 1;
      } else if order.Before? {
        forall i | 0 <= i <= mid ensures StrCmp(table[i], name).Before? {
          if i < mid {
            BeforeTransitive(table[i], table[mid], name);
          }
        }
        start := mid + 1;
      } else {
        SameIsEqual(table[mid], name);
        return Some(mid);
      }
    }
    forall i | 0 <= i < |table| ensures table[i] != name {
      SameIsEqual(table[i], name);
    }
    r := None;
  }
}
