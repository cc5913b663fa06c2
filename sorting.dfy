/**
  sortStructFields (cmd/main2.go): the fields of a struct and of every struct
  linked under it, ordered by name in Go's byte-wise string order.
*/
module FieldSort {
  import opened Strings
  import opened StructModel

  /** Names never decrease along the list. */
  predicate Sorted(fs: seq<FieldInfo>) {
    forall i, j :: 0 <= i < j < |fs| ==> !LexLess(fs[j].name, fs[i].name)
  }

  /** In a sorted list, a name below the one at j is below every one after j too. */
  lemma BelowRest(s: seq<FieldInfo>, j: nat, x: FieldInfo)
    requires Sorted(s) && j < |s| && LexLess(x.name, s[j].name)
    ensures forall k :: j <= k < |s| ==> LexLess(x.name, s[k].name)
  {
    forall k | j < k < |s|
      ensures LexLess(x.name, s[k].name)
    {
      if s[k].name != s[j].name {
        LexTotal(s[k].name, s[j].name);
        LexTransitive(x.name, s[j].name, s[k].name);
      }
    }
  }

  /** Putting x between the fields not above it and the fields above it keeps the list sorted. */
  lemma InsertSorted(s: seq<FieldInfo>, j: nat, x: FieldInfo)
    requires Sorted(s) && j <= |s|
    requires forall k :: 0 <= k < j ==> !LexLess(x.name, s[k].name)
    requires forall k :: j <= k < |s| ==> LexLess(x.name, s[k].name)
    ensures Sorted(s[..j] + [x] + s[j..])
  {
    var r := s[..j] + [x] + s[j..];
    forall a, b | 0 <= a < b < |r|
      ensures !LexLess(r[b].name, r[a].name)
    {
      if a < j && b == j {
        assert r[a] == s[a] && r[b] == x;
      } else if a == j {
        assert r[a] == x && r[b] == s[b - 1];
        LexAsymmetric(x.name, s[b - 1].name);
      } else {
        var a', b' := if a < j then a else a - 1, if b < j then b else b - 1;
        assert r[a] == s[a'] && r[b] == s[b'];
      }
    }
  }

  /** x placed after the leading fields whose names are not above its own. */
  method Insert(s: seq<FieldInfo>, x: FieldInfo) returns (r: seq<FieldInfo>)
    requires Sorted(s)
    ensures Sorted(r) && multiset(r) == multiset(s) + multiset{x}
  {
    var j := 0;
    while j < |s| && !LexLess(x.name, s[j].name)
      invariant 0 <= j <= |s|
      invariant forall k :: 0 <= k < j ==> !LexLess(x.name, s[k].name)
    {
      j := j + 1;
    }
    if j < |s| {
      BelowRest(s, j, x);
    }
    InsertSorted(s, j, x);
    r := s[..j] + [x] + s[j..];
    assert s == s[..j] + s[j..];
  }

  /** sort.Slice by Name: the same fields, in name order (fields with equal names in some order). */
  method SortFields(fs: seq<FieldInfo>) returns (sorted: seq<FieldInfo>)
    ensures Sorted(sorted) && multiset(sorted) == multiset(fs)
  {
    sorted := [];
    for i := 0 to |fs|
      invariant Sorted(sorted) && multiset(sorted) == multiset(fs[..i])
    {
      assert fs[..i + 1] == fs[..i] + [fs[i]];
      sorted := Insert(sorted, fs[i]);
    }
    assert fs[..|fs|] == fs;
  }

  /** s is d with the fields of d and of every struct under it sorted; names and links unchanged. */
  ghost predicate SortedCopy(d: StructDef, s: StructDef)
    decreases d
  {
    s.name == d.name && Sorted(s.fields) && multiset(s.fields) == multiset(d.fields) &&
    s.nested.Keys == d.nested.Keys &&
    forall k :: k in d.nested ==> k in s.nested && SortedCopy(d.nested[k], s.nested[k])
  }

  /** sortStructFields: sorts the fields here, then in each linked struct, in map order. */
  method SortStructFields(d: StructDef) returns (s: StructDef)
    ensures SortedCopy(d, s)
    decreases d
  {
    var fields := SortFields(d.fields);
    var nested := d.nested;
    var todo := d.nested.Keys;
    while todo != {}
      invariant todo <= d.nested.Keys && nested.Keys == d.nested.Keys
      invariant forall k :: k in d.nested && k !in todo ==> SortedCopy(d.nested[k], nested[k])
      invariant forall k :: k in todo ==> nested[k] == d.nested[k]
      decreases todo
    {
      var k :| k in todo;
      var sk := SortStructFields(d.nested[k]);
      nested := nested[k := sk];
      todo := todo - {k};
    }
    s := StructDef(d.name, fields, nested);
  }
}
