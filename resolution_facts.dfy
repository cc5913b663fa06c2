/**
  What the breadth-first field search guarantees: the field list is the
  contribution of each scanned type in scan order; every type is scanned at
  most once; levels are scanned shallowest first; the requested type comes
  first with its own fields; a type is queued at most once per level; and a
  type queued more than once has each of its fields twice, adjacently.
*/
module ResolutionFacts {
  import opened Types
  import opened Encode
  import opened FieldResolution

  /** What one classification records: its field, or nothing. */
  function Records(a: FieldAction): seq<SpecField> {
    if a.Record? then [a.field] else []
  }

  /** x, or x twice when dup. */
  function Copies(x: seq<SpecField>, dup: bool): seq<SpecField> {
    if dup then x + x else x
  }

  /** The fields the first n declared fields record, in declaration order, each twice when dup. */
  function Kept(cl: Classifier, decl: seq<StructField>, n: nat, dup: bool): seq<SpecField>
    requires n <= |decl|
  {
    if n == 0 then [] else Kept(cl, decl, n - 1, dup) + Copies(Records(cl(decl[n - 1])), dup)
  }

  /** The fields a declaration list records, in declaration order. */
  function Recorded(cl: Classifier, decl: seq<StructField>): seq<SpecField> {
    Kept(cl, decl, |decl|, false)
  }

  /** What scanning one type appends. */
  function Contribution(reg: Registry, cl: Classifier, sc: Scanned): seq<SpecField> {
    var decl := DeclaredFields(reg, sc.typ);
    Kept(cl, decl, |decl|, sc.dup)
  }

  /** The contributions of the scanned types, in scan order. */
  function Gathered(reg: Registry, cl: Classifier, scs: seq<Scanned>): seq<SpecField>
    decreases |scs|
  {
    if scs == [] then [] else Gathered(reg, cl, scs[..|scs| - 1]) + Contribution(reg, cl, scs[|scs| - 1])
  }

  function Typs(scs: seq<Scanned>): (ts: seq<TypeId>)
    ensures |ts| == |scs| && forall i :: 0 <= i < |scs| ==> ts[i] == scs[i].typ
  {
    seq(|scs|, i requires 0 <= i < |scs| => scs[i].typ)
  }

  predicate NoDup<T(==)>(s: seq<T>) {
    forall i, j :: 0 <= i < j < |s| ==> s[i] != s[j]
  }

  /**
    A type queued more than once contributes each recorded field twice, the
    copy right after the original: twice the length, with positions 2i and
    2i+1 both holding the i-th recorded field.
  */
  lemma {:induction false} DoubledAdjacent(cl: Classifier, decl: seq<StructField>, n: nat)
    requires n <= |decl|
    ensures var r, d := Kept(cl, decl, n, false), Kept(cl, decl, n, true);
      |d| == 2 * |r| && forall i :: 0 <= i < |r| ==> d[2 * i] == r[i] && d[2 * i + 1] == r[i]
    decreases n
  {
    if n > 0 {
      DoubledAdjacent(cl, decl, n - 1);
      var r0, d0 := Kept(cl, decl, n - 1, false), Kept(cl, decl, n - 1, true);
      var x := Records(cl(decl[n - 1]));
      var r, d := r0 + x, d0 + (x + x);
      assert Kept(cl, decl, n, false) == r && Kept(cl, decl, n, true) == d;
      forall i | 0 <= i < |r|
        ensures d[2 * i] == r[i] && d[2 * i + 1] == r[i]
      {
        if i < |r0| {
          assert r[i] == r0[i] && d[2 * i] == d0[2 * i] && d[2 * i + 1] == d0[2 * i + 1];
        }
      }
    }
  }

  /** A field is among the first n records iff one of the first n declared fields classifies as that record. */
  lemma {:induction false} KeptMembers(cl: Classifier, decl: seq<StructField>, n: nat)
    requires n <= |decl|
    ensures forall f :: f in Kept(cl, decl, n, false) <==> exists i :: 0 <= i < n && cl(decl[i]) == Record(f)
    decreases n
  {
    if n > 0 {
      KeptMembers(cl, decl, n - 1);
      forall f
        ensures f in Kept(cl, decl, n, false) <==> exists i :: 0 <= i < n && cl(decl[i]) == Record(f)
      {
        if f in Kept(cl, decl, n, false) && f !in Kept(cl, decl, n - 1, false) {
          assert cl(decl[n - 1]) == Record(f);
        }
      }
    }
  }

  /** A field is recorded iff some declared field classifies as that record. */
  lemma RecordedMembers(cl: Classifier, decl: seq<StructField>)
    ensures forall f :: f in Recorded(cl, decl) <==> exists i :: 0 <= i < |decl| && cl(decl[i]) == Record(f)
  {
    KeptMembers(cl, decl, |decl|);
  }

  /** One step of the scan appends the field's record, twice when dup. */
  lemma StepFields(cl: Classifier, sf: StructField, dup: bool, s: Scan)
    ensures FieldStep(cl, sf, dup, s).fields == s.fields + Copies(Records(cl(sf)), dup)
  {
    if !cl(sf).Record? {
      assert s.fields + [] == s.fields;
    }
  }

  /** Scanning the first j declared fields appends their records, each twice when dup. */
  lemma {:induction false} ScanDeclFields(cl: Classifier, decl: seq<StructField>, j: nat, dup: bool, s: Scan)
    requires j <= |decl|
    ensures ScanDecl(cl, decl, j, dup, s).fields == s.fields + Kept(cl, decl, j, dup)
    decreases j
  {
    if j == 0 {
      assert s.fields + [] == s.fields;
    } else {
      ScanDeclFields(cl, decl, j - 1, dup, s);
      StepFields(cl, decl[j - 1], dup, ScanDecl(cl, decl, j - 1, dup, s));
      var k := Kept(cl, decl, j - 1, dup);
      var x := Copies(Records(cl(decl[j - 1])), dup);
      assert (s.fields + k) + x == s.fields + (k + x);
    }
  }

  /** Queued types, without repetition, are exactly the types counted so far. */
  ghost predicate QueueOk(s: Scan) {
    NoDup(s.next) && forall x :: x in s.next <==> Count(s.nextCount, x) > 0
  }

  lemma {:induction false} ScanDeclQueue(cl: Classifier, decl: seq<StructField>, j: nat, dup: bool, s: Scan)
    requires j <= |decl| && QueueOk(s)
    ensures QueueOk(ScanDecl(cl, decl, j, dup, s))
    decreases j
  {
    if j > 0 {
      ScanDeclQueue(cl, decl, j - 1, dup, s);
    }
  }

  /** The types of a scan log. */
  function TypSet(scs: seq<Scanned>): set<TypeId>
    decreases |scs|
  {
    if scs == [] then {} else TypSet(scs[..|scs| - 1]) + {scs[|scs| - 1].typ}
  }

  /** No type occurs twice in a scan log. */
  predicate Distinct(scs: seq<Scanned>)
    decreases |scs|
  {
    scs == [] || (Distinct(scs[..|scs| - 1]) && scs[|scs| - 1].typ !in TypSet(scs[..|scs| - 1]))
  }

  /** The levels of a scan log never decrease and end at most at depth. */
  predicate DepthsUpTo(scs: seq<Scanned>, depth: nat)
    decreases |scs|
  {
    scs == [] || (scs[|scs| - 1].depth <= depth && DepthsUpTo(scs[..|scs| - 1], scs[|scs| - 1].depth))
  }

  /** What holds of the search state between any two scanned types. */
  ghost predicate SearchInv(reg: Registry, cl: Classifier, fields: seq<SpecField>, visited: set<TypeId>,
                            scanned: seq<Scanned>, depth: nat) {
    fields == Gathered(reg, cl, scanned) && visited == TypSet(scanned) && Distinct(scanned) && DepthsUpTo(scanned, depth)
  }

  lemma {:induction false} DepthsWiden(scs: seq<Scanned>, d: nat, d': nat)
    requires DepthsUpTo(scs, d) && d <= d'
    ensures DepthsUpTo(scs, d')
  {
  }

  lemma {:induction false} TypSetMembers(scs: seq<Scanned>)
    ensures forall x :: x in TypSet(scs) <==> x in Typs(scs)
    decreases |scs|
  {
    if scs != [] {
      var init := scs[..|scs| - 1];
      TypSetMembers(init);
      assert Typs(scs) == Typs(init) + [scs[|scs| - 1].typ];
    }
  }

  lemma {:induction false} DistinctNoDup(scs: seq<Scanned>)
    requires Distinct(scs)
    ensures NoDup(Typs(scs))
    decreases |scs|
  {
    if scs != [] {
      var init := scs[..|scs| - 1];
      DistinctNoDup(init);
      TypSetMembers(init);
      assert Typs(scs) == Typs(init) + [scs[|scs| - 1].typ];
      assert scs[|scs| - 1].typ !in Typs(init);
    }
  }

  lemma {:induction false} DepthsSorted(scs: seq<Scanned>, d: nat)
    requires DepthsUpTo(scs, d)
    ensures forall i, j :: 0 <= i <= j < |scs| ==> scs[i].depth <= scs[j].depth <= d
    decreases |scs|
  {
    if scs != [] {
      var init := scs[..|scs| - 1];
      DepthsSorted(init, scs[|scs| - 1].depth);
      forall i, j | 0 <= i <= j < |scs|
        ensures scs[i].depth <= scs[j].depth <= d
      {
        if j < |init| {
          assert scs[i] == init[i] && scs[j] == init[j];
        } else if i < |init| {
          assert scs[i] == init[i];
        }
      }
    }
  }

  /** Within one level the field list stays the contribution of each scanned type. */
  lemma {:induction false} LevelGathers(reg: Registry, cl: Classifier, current: seq<TypeId>, k: nat,
                                        count: map<TypeId, nat>, depth: nat, L0: Level)
    requires k <= |current| && L0.scan.fields == Gathered(reg, cl, L0.scanned)
    ensures var L := ScanLevel(reg, cl, current, k, count, depth, L0);
      L.scan.fields == Gathered(reg, cl, L.scanned)
    decreases k
  {
    if k > 0 {
      LevelGathers(reg, cl, current, k - 1, count, depth, L0);
      var L := ScanLevel(reg, cl, current, k - 1, count, depth, L0);
      var ty := current[k - 1];
      if ty in L.visited {
        assert ScanLevel(reg, cl, current, k, count, depth, L0) == L;
      } else {
        var decl := DeclaredFields(reg, ty);
        var dup := Count(count, ty) > 1;
        var sc := Scanned(ty, dup, depth);
        ScanDeclFields(cl, decl, |decl|, dup, L.scan);
        assert (L.scanned + [sc])[..|L.scanned|] == L.scanned;
        assert Gathered(reg, cl, L.scanned + [sc]) == Gathered(reg, cl, L.scanned) + Contribution(reg, cl, sc);
        assert ScanLevel(reg, cl, current, k, count, depth, L0) ==
          Level(ScanDecl(cl, decl, |decl|, dup, L.scan), L.visited + {ty}, L.scanned + [sc]);
      }
    }
  }

  /** Within one level the visited set stays the set of scanned types, none scanned twice. */
  lemma {:induction false} LevelVisits(reg: Registry, cl: Classifier, current: seq<TypeId>, k: nat,
                                       count: map<TypeId, nat>, depth: nat, L0: Level)
    requires k <= |current| && L0.visited == TypSet(L0.scanned) && Distinct(L0.scanned)
    ensures var L := ScanLevel(reg, cl, current, k, count, depth, L0);
      L.visited == TypSet(L.scanned) && Distinct(L.scanned)
    decreases k
  {
    if k > 0 {
      LevelVisits(reg, cl, current, k - 1, count, depth, L0);
      var L := ScanLevel(reg, cl, current, k - 1, count, depth, L0);
      var ty := current[k - 1];
      if ty in L.visited {
        assert ScanLevel(reg, cl, current, k, count, depth, L0) == L;
      } else {
        var sc := Scanned(ty, Count(count, ty) > 1, depth);
        assert (L.scanned + [sc])[..|L.scanned|] == L.scanned;
        assert ScanLevel(reg, cl, current, k, count, depth, L0).scanned == L.scanned + [sc];
        assert ScanLevel(reg, cl, current, k, count, depth, L0).visited == L.visited + {ty};
      }
    }
  }

  /** Within one level every scanned type is at most at the level's depth, in order. */
  lemma {:induction false} LevelDepths(reg: Registry, cl: Classifier, current: seq<TypeId>, k: nat,
                                       count: map<TypeId, nat>, depth: nat, L0: Level)
    requires k <= |current| && DepthsUpTo(L0.scanned, depth)
    ensures DepthsUpTo(ScanLevel(reg, cl, current, k, count, depth, L0).scanned, depth)
    decreases k
  {
    if k > 0 {
      LevelDepths(reg, cl, current, k - 1, count, depth, L0);
      var L := ScanLevel(reg, cl, current, k - 1, count, depth, L0);
      var ty := current[k - 1];
      if ty in L.visited {
        assert ScanLevel(reg, cl, current, k, count, depth, L0) == L;
      } else {
        var sc := Scanned(ty, Count(count, ty) > 1, depth);
        assert (L.scanned + [sc])[..|L.scanned|] == L.scanned;
        assert ScanLevel(reg, cl, current, k, count, depth, L0).scanned == L.scanned + [sc];
      }
    }
  }

  /** One level keeps the invariant. */
  lemma LevelKeeps(reg: Registry, cl: Classifier, current: seq<TypeId>, k: nat,
                   count: map<TypeId, nat>, depth: nat, L0: Level)
    requires k <= |current|
    requires SearchInv(reg, cl, L0.scan.fields, L0.visited, L0.scanned, depth)
    ensures var L := ScanLevel(reg, cl, current, k, count, depth, L0);
      SearchInv(reg, cl, L.scan.fields, L.visited, L.scanned, depth)
  {
    LevelGathers(reg, cl, current, k, count, depth, L0);
    LevelVisits(reg, cl, current, k, count, depth, L0);
    LevelDepths(reg, cl, current, k, count, depth, L0);
  }

  /** A level only appends to the scanned log. */
  lemma {:induction false} LevelExtends(reg: Registry, cl: Classifier, current: seq<TypeId>, k: nat,
                                        count: map<TypeId, nat>, depth: nat, L0: Level)
    requires k <= |current|
    ensures var L := ScanLevel(reg, cl, current, k, count, depth, L0);
      |L0.scanned| <= |L.scanned| && L.scanned[..|L0.scanned|] == L0.scanned
    decreases k
  {
    if k > 0 {
      LevelExtends(reg, cl, current, k - 1, count, depth, L0);
      var L := ScanLevel(reg, cl, current, k - 1, count, depth, L0);
      var sc := Scanned(current[k - 1], Count(count, current[k - 1]) > 1, depth);
      assert (L.scanned + [sc])[..|L0.scanned|] == L.scanned[..|L0.scanned|];
    }
  }

  /** Within one level the queue stays free of repetition and matches the counts. */
  lemma {:induction false} LevelQueue(reg: Registry, cl: Classifier, current: seq<TypeId>, k: nat,
                                      count: map<TypeId, nat>, depth: nat, L0: Level)
    requires k <= |current| && QueueOk(L0.scan)
    ensures QueueOk(ScanLevel(reg, cl, current, k, count, depth, L0).scan)
    decreases k
  {
    if k > 0 {
      LevelQueue(reg, cl, current, k - 1, count, depth, L0);
      var L := ScanLevel(reg, cl, current, k - 1, count, depth, L0);
      var ty := current[k - 1];
      if ty !in L.visited {
        var decl := DeclaredFields(reg, ty);
        ScanDeclQueue(cl, decl, |decl|, Count(count, ty) > 1, L.scan);
      }
    }
  }

  /** Levels never decrease along a scan log. */
  predicate DepthsSortedLog(scs: seq<Scanned>) {
    scs == [] || DepthsUpTo(scs, scs[|scs| - 1].depth)
  }

  /** The whole search keeps the invariant. */
  lemma {:induction false} BfsKeeps(reg: Registry, cl: Classifier, next: seq<TypeId>, nextCount: map<TypeId, nat>,
                                    visited: set<TypeId>, fields: seq<SpecField>, scanned: seq<Scanned>, depth: nat)
    requires EmbedsStructs(reg, cl) && AllStructs(reg, next) && SearchInv(reg, cl, fields, visited, scanned, depth)
    ensures var R := Bfs(reg, cl, next, nextCount, visited, fields, scanned, depth);
      R.fields == Gathered(reg, cl, R.scanned) && Distinct(R.scanned) && DepthsSortedLog(R.scanned)
    decreases |reg.Keys - visited|, |next|
  {
    if next != [] {
      var L0 := Level(Scan(fields, [], map[]), visited, scanned);
      LevelProgress(reg, cl, next, |next|, nextCount, depth, L0);
      LevelKeeps(reg, cl, next, |next|, nextCount, depth, L0);
      var L := ScanLevel(reg, cl, next, |next|, nextCount, depth, L0);
      DepthsWiden(L.scanned, depth, depth + 1);
      assert SearchInv(reg, cl, L.scan.fields, L.visited, L.scanned, depth + 1);
      BfsKeeps(reg, cl, L.scan.next, L.scan.nextCount, L.visited, L.scan.fields, L.scanned, depth + 1);
    }
  }

  /** The whole search only appends to the scanned log. */
  lemma {:induction false} BfsExtends(reg: Registry, cl: Classifier, next: seq<TypeId>, nextCount: map<TypeId, nat>,
                                      visited: set<TypeId>, fields: seq<SpecField>, scanned: seq<Scanned>, depth: nat)
    requires EmbedsStructs(reg, cl) && AllStructs(reg, next)
    ensures var R := Bfs(reg, cl, next, nextCount, visited, fields, scanned, depth);
      |scanned| <= |R.scanned| && R.scanned[..|scanned|] == scanned
    decreases |reg.Keys - visited|, |next|
  {
    if next != [] {
      var L0 := Level(Scan(fields, [], map[]), visited, scanned);
      LevelProgress(reg, cl, next, |next|, nextCount, depth, L0);
      LevelExtends(reg, cl, next, |next|, nextCount, depth, L0);
      var L := ScanLevel(reg, cl, next, |next|, nextCount, depth, L0);
      BfsExtends(reg, cl, L.scan.next, L.scan.nextCount, L.visited, L.scan.fields, L.scanned, depth + 1);
      var R := Bfs(reg, cl, L.scan.next, L.scan.nextCount, L.visited, L.scan.fields, L.scanned, depth + 1);
      assert R.scanned[..|scanned|] == R.scanned[..|L.scanned|][..|scanned|];
    }
  }

  /** The first level scans the requested type alone, undoubled, at depth 0. */
  lemma FirstLevel(reg: Registry, cl: Classifier, t: TypeId)
    requires IsStruct(reg, t)
    ensures var L := ScanLevel(reg, cl, [t], 1, map[], 0, Level(Scan([], [], map[]), {}, []));
      L.scanned == [Scanned(t, false, 0)] && L.visited == {t} &&
      L.scan == ScanDecl(cl, DeclaredFields(reg, t), |DeclaredFields(reg, t)|, false, Scan([], [], map[]))
  {
  }

  /** The search from struct t under any classification that queues only structs. */
  lemma {:induction false} SearchOrder(reg: Registry, cl: Classifier, t: TypeId)
    requires IsStruct(reg, t) && EmbedsStructs(reg, cl)
    ensures var R := Bfs(reg, cl, [t], map[], {}, [], [], 0);
      R.fields == Gathered(reg, cl, R.scanned) &&
      |R.scanned| >= 1 && R.scanned[0] == Scanned(t, false, 0) &&
      NoDup(Typs(R.scanned)) &&
      (forall i, j :: 0 <= i <= j < |R.scanned| ==> R.scanned[i].depth <= R.scanned[j].depth)
  {
    var L0 := Level(Scan([], [], map[]), {}, []);
    var L := ScanLevel(reg, cl, [t], 1, map[], 0, L0);
    FirstLevel(reg, cl, t);
    LevelProgress(reg, cl, [t], 1, map[], 0, L0);
    LevelKeeps(reg, cl, [t], 1, map[], 0, L0);
    DepthsWiden(L.scanned, 0, 1);
    BfsKeeps(reg, cl, L.scan.next, L.scan.nextCount, L.visited, L.scan.fields, L.scanned, 1);
    BfsExtends(reg, cl, L.scan.next, L.scan.nextCount, L.visited, L.scan.fields, L.scanned, 1);
    var R := Bfs(reg, cl, [t], map[], {}, [], [], 0);
    assert R == Bfs(reg, cl, L.scan.next, L.scan.nextCount, L.visited, L.scan.fields, L.scanned, 1);
    assert R.scanned[..1] == [Scanned(t, false, 0)];
    DistinctNoDup(R.scanned);
    DepthsSorted(R.scanned, R.scanned[|R.scanned| - 1].depth);
  }

  /**
    The resolved list is the contribution of each scanned type in scan order;
    the requested type is scanned first, alone at depth 0 and undoubled; no
    type is scanned twice; and levels are scanned shallowest first, so the
    fields lifted from depth k all come before those from depth k + 1.
  */
  lemma ResolutionOrder(reg: Registry, rules: TagRules, t: TypeId)
    requires IsStruct(reg, t)
    ensures var R := Resolve(reg, rules, t);
      R.fields == Gathered(reg, Classifying(reg, rules), R.scanned) &&
      |R.scanned| >= 1 && R.scanned[0] == Scanned(t, false, 0) &&
      NoDup(Typs(R.scanned)) &&
      (forall i, j :: 0 <= i <= j < |R.scanned| ==> R.scanned[i].depth <= R.scanned[j].depth)
  {
    SearchOrder(reg, Classifying(reg, rules), t);
  }

  lemma {:induction false} GatheredStartsWithFirst(reg: Registry, cl: Classifier, scs: seq<Scanned>)
    requires scs != []
    ensures Contribution(reg, cl, scs[0]) <= Gathered(reg, cl, scs)
    decreases |scs|
  {
    if |scs| > 1 {
      GatheredStartsWithFirst(reg, cl, scs[..|scs| - 1]);
    }
  }

  /** The requested type's own fields come first, in declaration order. */
  lemma DirectFieldsFirst(reg: Registry, rules: TagRules, t: TypeId)
    requires IsStruct(reg, t)
    ensures Recorded(Classifying(reg, rules), DeclaredFields(reg, t)) <= CollectedFields(reg, rules, t)
  {
    ResolutionOrder(reg, rules, t);
    GatheredStartsWithFirst(reg, Classifying(reg, rules), Resolve(reg, rules, t).scanned);
  }

  lemma {:induction false} ScanDeclNoEmbed(cl: Classifier, decl: seq<StructField>, j: nat, dup: bool, s: Scan)
    requires j <= |decl| && forall i :: 0 <= i < |decl| ==> !cl(decl[i]).Embed?
    ensures ScanDecl(cl, decl, j, dup, s).next == s.next
    decreases j
  {
    if j > 0 {
      ScanDeclNoEmbed(cl, decl, j - 1, dup, s);
    }
  }

  lemma {:induction false} SearchNoEmbedding(reg: Registry, cl: Classifier, t: TypeId)
    requires IsStruct(reg, t) && EmbedsStructs(reg, cl)
    requires forall i :: 0 <= i < |DeclaredFields(reg, t)| ==> !cl(DeclaredFields(reg, t)[i]).Embed?
    ensures Bfs(reg, cl, [t], map[], {}, [], [], 0).fields == Recorded(cl, DeclaredFields(reg, t))
  {
    var decl := DeclaredFields(reg, t);
    var s0 := Scan([], [], map[]);
    var L0 := Level(s0, {}, []);
    var L := ScanLevel(reg, cl, [t], 1, map[], 0, L0);
    FirstLevel(reg, cl, t);
    LevelProgress(reg, cl, [t], 1, map[], 0, L0);
    ScanDeclNoEmbed(cl, decl, |decl|, false, s0);
    ScanDeclFields(cl, decl, |decl|, false, s0);
    assert L.scan.next == [];
    assert L.scan.fields == [] + Recorded(cl, decl) == Recorded(cl, decl);
    assert Bfs(reg, cl, [t], map[], {}, [], [], 0) == Bfs(reg, cl, L.scan.next, L.scan.nextCount, L.visited, L.scan.fields, L.scanned, 1);
  }

  /** A struct that embeds no struct resolves to its own recorded fields. */
  lemma NoEmbeddingResolvesToOwnFields(reg: Registry, rules: TagRules, t: TypeId)
    requires IsStruct(reg, t)
    requires forall i :: 0 <= i < |DeclaredFields(reg, t)| ==> !Classify(reg, rules, DeclaredFields(reg, t)[i]).Embed?
    ensures CollectedFields(reg, rules, t) == Recorded(Classifying(reg, rules), DeclaredFields(reg, t))
  {
    SearchNoEmbedding(reg, Classifying(reg, rules), t);
  }

  /** Within one level, every embedded type is queued at most once. */
  lemma QueuedOncePerLevel(reg: Registry, cl: Classifier, current: seq<TypeId>, count: map<TypeId, nat>,
                           depth: nat, fields: seq<SpecField>, visited: set<TypeId>, scanned: seq<Scanned>)
    ensures NoDup(ScanLevel(reg, cl, current, |current|, count, depth, Level(Scan(fields, [], map[]), visited, scanned)).scan.next)
  {
    LevelQueue(reg, cl, current, |current|, count, depth, Level(Scan(fields, [], map[]), visited, scanned));
  }
  /** No field of the list carries an encoder. */
  predicate Bare(fs: seq<SpecField>) {
    forall k :: 0 <= k < |fs| ==> fs[k].encoder.None?
  }

  /** Every record the classifier makes carries no encoder. */
  ghost predicate RecordsBare(cl: Classifier) {
    forall sf :: cl(sf).Record? ==> cl(sf).field.encoder.None?
  }

  lemma ClassifyingRecordsBare(reg: Registry, rules: TagRules)
    ensures RecordsBare(Classifying(reg, rules))
  {
    forall sf | Classifying(reg, rules)(sf).Record?
      ensures Classifying(reg, rules)(sf).field.encoder.None?
    {
      ClassifyCases(reg, rules, sf);
    }
  }

  lemma BareAppend(a: seq<SpecField>, b: seq<SpecField>)
    requires Bare(a) && Bare(b)
    ensures Bare(a + b)
  {
    forall k | 0 <= k < |a + b|
      ensures (a + b)[k].encoder.None?
    {
      if k < |a| {
        assert (a + b)[k] == a[k];
      } else {
        assert (a + b)[k] == b[k - |a|];
      }
    }
  }

  lemma {:induction false} KeptBare(cl: Classifier, decl: seq<StructField>, n: nat, dup: bool)
    requires RecordsBare(cl) && n <= |decl|
    ensures Bare(Kept(cl, decl, n, dup))
    decreases n
  {
    if n > 0 {
      KeptBare(cl, decl, n - 1, dup);
      var x := Records(cl(decl[n - 1]));
      assert Bare(x);
      if dup {
        BareAppend(x, x);
      }
      BareAppend(Kept(cl, decl, n - 1, dup), Copies(x, dup));
    }
  }

  lemma {:induction false} GatheredBare(reg: Registry, cl: Classifier, scs: seq<Scanned>)
    requires RecordsBare(cl)
    ensures Bare(Gathered(reg, cl, scs))
    decreases |scs|
  {
    if scs != [] {
      var sc := scs[|scs| - 1];
      GatheredBare(reg, cl, scs[..|scs| - 1]);
      KeptBare(cl, DeclaredFields(reg, sc.typ), |DeclaredFields(reg, sc.typ)|, sc.dup);
      BareAppend(Gathered(reg, cl, scs[..|scs| - 1]), Contribution(reg, cl, sc));
    }
  }

  /** The search attaches no encoder to any field; only the post-pass does. */
  lemma CollectedBare(reg: Registry, rules: TagRules, t: TypeId)
    requires IsStruct(reg, t)
    ensures Bare(CollectedFields(reg, rules, t))
  {
    ResolutionOrder(reg, rules, t);
    ClassifyingRecordsBare(reg, rules);
    GatheredBare(reg, Classifying(reg, rules), Resolve(reg, rules, t).scanned);
  }
}
