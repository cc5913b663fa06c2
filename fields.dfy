/**
  Field resolution (typeSpecFields without its post-pass): a breadth-first
  search over a struct type and the structs embedded in it, level by level,
  that keeps the fields to render, in order, with their keys pre-rendered.

  `Classify` decides what one declared field contributes; `ScanDecl`,
  `ScanLevel` and `Bfs` follow the three nested loops; `CollectFields` is the
  loop program itself, proved to compute `CollectedFields`.
*/
module FieldResolution {
  import opened Wrappers
  import opened Types
  import opened Encode
  import Escape

  /** The struct-tag helpers: the name part of a json tag (parseTag) and isValidTag. */
  datatype TagRules = TagRules(tagName: string -> string, validTag: string -> bool)

  /** A pre-rendered key: the name in double quotes followed by a colon. */
  function KeyForm(name: string): string {
    "\"" + name + "\":"
  }

  /** The type a pointer points to; any other type unchanged (the embedded-field check). */
  function StripPointer(reg: Registry, t: TypeId): TypeId {
    if KindOf(reg, t) == Pointer then Elem(reg, t) else t
  }

  /** One level of an unnamed pointer type followed; named types and other kinds unchanged. */
  function FollowPointer(reg: Registry, t: TypeId): TypeId {
    if TypeName(reg, t) == "" && KindOf(reg, t) == Pointer then Elem(reg, t) else t
  }

  /** The name a json tag gives, or "" when isValidTag refuses it. */
  function TagName(rules: TagRules, tag: string): string {
    var name := rules.tagName(tag);
    if rules.validTag(name) then name else ""
  }

  datatype FieldAction =
    | Skip                     // the field is not rendered
    | Record(field: SpecField) // the field is rendered, with no encoder yet
    | Embed(typ: TypeId)       // the embedded struct is explored at the next level

  /** What one declared field contributes. */
  function Classify(reg: Registry, rules: TagRules, sf: StructField): FieldAction
  {
    if sf.anonymous && !sf.exported && KindOf(reg, StripPointer(reg, sf.typ)) != Struct then Skip
    else if !sf.anonymous && !sf.exported then Skip
    else if sf.jsonTag == "-" then Skip
    else
      var name := TagName(rules, sf.jsonTag);
      var ft := FollowPointer(reg, sf.typ);
      if name != "" || !sf.anonymous || KindOf(reg, ft) != Struct then
        var key := if name != "" then name else sf.name;
        Record(SpecField(ft, key, KeyForm(key), KeyForm(Escape.HTMLEscape(key)), sf.specTag, name != "", None))
      else
        Embed(ft)
  }

  /**
    The classification rules: a field is skipped iff its json tag is "-", or
    it is unexported and either not embedded or embedded with a non-struct
    (pointer-stripped) type; a kept embedded field without a tag name whose
    type, one unnamed pointer followed, is a struct is explored instead of
    recorded; a recorded field takes the tag name when there is one, is
    tagged exactly then, and carries both pre-rendered key forms.
  */
  lemma ClassifyCases(reg: Registry, rules: TagRules, sf: StructField)
    ensures Classify(reg, rules, sf).Skip? <==>
      sf.jsonTag == "-" || (!sf.exported && (!sf.anonymous || !IsStruct(reg, StripPointer(reg, sf.typ))))
    ensures Classify(reg, rules, sf).Embed? <==>
      !Classify(reg, rules, sf).Skip? && sf.anonymous && TagName(rules, sf.jsonTag) == "" && IsStruct(reg, FollowPointer(reg, sf.typ))
    ensures Classify(reg, rules, sf).Embed? ==> Classify(reg, rules, sf).typ == FollowPointer(reg, sf.typ)
    ensures Classify(reg, rules, sf).Record? ==>
      var f := Classify(reg, rules, sf).field;
      var tn := TagName(rules, sf.jsonTag);
      f.tag == (tn != "") && f.name == (if tn != "" then tn else sf.name) &&
      f.typ == FollowPointer(reg, sf.typ) && f.spec == sf.specTag && f.encoder == None &&
      f.nameNonEsc == KeyForm(f.name) && f.nameEscHTML == KeyForm(Escape.HTMLEscape(f.name))
  {
  }

  /** The loop body of the field scan for one declared field, written as its statements. */
  method ResolveField(reg: Registry, rules: TagRules, sf: StructField) returns (action: FieldAction)
    ensures action == Classify(reg, rules, sf)
  {
    if sf.anonymous {
      var t := sf.typ;
      if KindOf(reg, t) == Pointer {
        t := Elem(reg, t);
      }
      if !sf.exported && KindOf(reg, t) != Struct {
        return Skip;
      }
    } else if !sf.exported {
      return Skip;
    }
    var tag := sf.jsonTag;
    if tag == "-" {
      return Skip;
    }
    var name := rules.tagName(tag);
    if !rules.validTag(name) {
      name := "";
    }
    var spec := sf.specTag;
    var ft := sf.typ;
    if TypeName(reg, ft) == "" && KindOf(reg, ft) == Pointer {
      ft := Elem(reg, ft);
    }
    if name != "" || !sf.anonymous || KindOf(reg, ft) != Struct {
      var tagged := name != "";
      if name == "" {
        name := sf.name;
      }
      var nameEsc := Escape.AppendHTMLEscape([], name);
      assert nameEsc == Escape.HTMLEscape(name);
      return Record(SpecField(ft, name, "\"" + name + "\":", "\"" + nameEsc + "\":", spec, tagged, None));
    }
    return Embed(ft);
  }

  /** A classification of declared fields; the search is defined for any that queues only structs. */
  type Classifier = StructField -> FieldAction

  ghost predicate EmbedsStructs(reg: Registry, cl: Classifier) {
    forall sf :: cl(sf).Embed? ==> IsStruct(reg, cl(sf).typ)
  }

  /** The classification typeSpecFields applies, under the given tag rules. */
  function Classifying(reg: Registry, rules: TagRules): (cl: Classifier)
    ensures EmbedsStructs(reg, cl)
  {
    assert forall sf :: Classify(reg, rules, sf).Embed? ==> IsStruct(reg, Classify(reg, rules, sf).typ) by {
      forall sf ensures Classify(reg, rules, sf).Embed? ==> IsStruct(reg, Classify(reg, rules, sf).typ) {
        ClassifyCases(reg, rules, sf);
      }
    }
    sf => Classify(reg, rules, sf)
  }

  function Count(m: map<TypeId, nat>, t: TypeId): nat {
    if t in m then m[t] else 0
  }

  /** The state the field scan updates: the fields found and the queue of the next level with its counts. */
  datatype Scan = Scan(fields: seq<SpecField>, next: seq<TypeId>, nextCount: map<TypeId, nat>)

  /** One declared field scanned; dup says the scanned type was queued more than once. */
  function FieldStep(cl: Classifier, sf: StructField, dup: bool, s: Scan): Scan {
    match cl(sf)
    case Skip => s
    case Record(f) => s.(fields := s.fields + (if dup then [f, f] else [f]))
    case Embed(ft) =>
      var c := Count(s.nextCount, ft) + 1;
      Scan(s.fields, if c == 1 then s.next + [ft] else s.next, s.nextCount[ft := c])
  }

  /** The first j declared fields scanned, in order. */
  function ScanDecl(cl: Classifier, decl: seq<StructField>, j: nat, dup: bool, s: Scan): Scan
    requires j <= |decl|
  {
    if j == 0 then s else FieldStep(cl, decl[j - 1], dup, ScanDecl(cl, decl, j - 1, dup, s))
  }

  /** A type whose fields were scanned, whether its fields were doubled, and its level. */
  datatype Scanned = Scanned(typ: TypeId, dup: bool, depth: nat)

  datatype Level = Level(scan: Scan, visited: set<TypeId>, scanned: seq<Scanned>)

  /** The first k queued types of one level scanned; a type visited before is passed over. */
  function ScanLevel(reg: Registry, cl: Classifier, current: seq<TypeId>, k: nat, count: map<TypeId, nat>,
                     depth: nat, L0: Level): Level
    requires k <= |current|
  {
    if k == 0 then L0
    else
      var L := ScanLevel(reg, cl, current, k - 1, count, depth, L0);
      var ty := current[k - 1];
      if ty in L.visited then L
      else
        var decl := DeclaredFields(reg, ty);
        var dup := Count(count, ty) > 1;
        Level(ScanDecl(cl, decl, |decl|, dup, L.scan), L.visited + {ty}, L.scanned + [Scanned(ty, dup, depth)])
  }

  predicate AllStructs(reg: Registry, ts: seq<TypeId>) {
    forall i :: 0 <= i < |ts| ==> IsStruct(reg, ts[i])
  }

  /** The fields found and the types scanned, in order. */
  datatype Resolution = Resolution(fields: seq<SpecField>, scanned: seq<Scanned>)

  /** The levels from the queue `next` on, until a level queues nothing. */
  function Bfs(reg: Registry, cl: Classifier, next: seq<TypeId>, nextCount: map<TypeId, nat>,
               visited: set<TypeId>, fields: seq<SpecField>, scanned: seq<Scanned>, depth: nat): Resolution
    requires EmbedsStructs(reg, cl) && AllStructs(reg, next)
    decreases |reg.Keys - visited|, |next|
  {
    if next == [] then Resolution(fields, scanned)
    else
      var L0 := Level(Scan(fields, [], map[]), visited, scanned);
      var L := ScanLevel(reg, cl, next, |next|, nextCount, depth, L0);
      LevelProgress(reg, cl, next, |next|, nextCount, depth, L0);
      Bfs(reg, cl, L.scan.next, L.scan.nextCount, L.visited, L.scan.fields, L.scanned, depth + 1)
  }

  /** The search from struct t: one queued type, no counts, nothing visited. */
  function Resolve(reg: Registry, rules: TagRules, t: TypeId): Resolution
    requires IsStruct(reg, t)
  {
    Bfs(reg, Classifying(reg, rules), [t], map[], {}, [], [], 0)
  }

  /** The field list of t before the post-pass. */
  function CollectedFields(reg: Registry, rules: TagRules, t: TypeId): seq<SpecField>
    requires IsStruct(reg, t)
  {
    Resolve(reg, rules, t).fields
  }

  /** The queue only ever holds structs. */
  lemma {:induction false} ScanDeclStructs(reg: Registry, cl: Classifier, decl: seq<StructField>, j: nat, dup: bool, s: Scan)
    requires EmbedsStructs(reg, cl) && j <= |decl| && AllStructs(reg, s.next)
    ensures AllStructs(reg, ScanDecl(cl, decl, j, dup, s).next)
  {
    if j > 0 {
      ScanDeclStructs(reg, cl, decl, j - 1, dup, s);
    }
  }

  /** A level queues only structs. */
  lemma {:induction false} LevelStructs(reg: Registry, cl: Classifier, current: seq<TypeId>, k: nat,
                                        count: map<TypeId, nat>, depth: nat, L0: Level)
    requires EmbedsStructs(reg, cl) && k <= |current| && AllStructs(reg, L0.scan.next)
    ensures AllStructs(reg, ScanLevel(reg, cl, current, k, count, depth, L0).scan.next)
  {
    if k > 0 {
      LevelStructs(reg, cl, current, k - 1, count, depth, L0);
      var L := ScanLevel(reg, cl, current, k - 1, count, depth, L0);
      var ty := current[k - 1];
      if ty in L.visited {
        assert ScanLevel(reg, cl, current, k, count, depth, L0) == L;
      } else {
        var decl := DeclaredFields(reg, ty);
        var dup := Count(count, ty) > 1;
        ScanDeclStructs(reg, cl, decl, |decl|, dup, L.scan);
        assert ScanLevel(reg, cl, current, k, count, depth, L0).scan == ScanDecl(cl, decl, |decl|, dup, L.scan);
      }
    }
  }

  /** A level that scans nothing queues nothing; one that scans a type leaves fewer types unvisited. */
  lemma {:induction false} LevelShrinks(reg: Registry, cl: Classifier, current: seq<TypeId>, k: nat,
                                        count: map<TypeId, nat>, depth: nat, L0: Level)
    requires k <= |current| && AllStructs(reg, current)
    ensures var L := ScanLevel(reg, cl, current, k, count, depth, L0);
      L0.visited <= L.visited &&
      (L.visited == L0.visited ==> L.scan.next == L0.scan.next) &&
      (L.visited != L0.visited ==> |reg.Keys - L.visited| < |reg.Keys - L0.visited|)
  {
    if k > 0 {
      LevelShrinks(reg, cl, current, k - 1, count, depth, L0);
      var L := ScanLevel(reg, cl, current, k - 1, count, depth, L0);
      var L' := ScanLevel(reg, cl, current, k, count, depth, L0);
      var ty := current[k - 1];
      if ty in L.visited {
        assert L' == L;
      } else {
        assert ty !in L0.visited;
        assert L'.visited == L.visited + {ty};
        assert IsStruct(reg, ty);
        StructsAreRegistered(reg, ty);
        VisitOne(reg.Keys, L.visited, ty);
        SubsetCard(reg.Keys - L.visited, reg.Keys - L0.visited);
        assert |reg.Keys - L'.visited| < |reg.Keys - L0.visited|;
      }
    }
  }

  /** The two facts about a level that make the search terminate. */
  lemma LevelProgress(reg: Registry, cl: Classifier, current: seq<TypeId>, k: nat,
                      count: map<TypeId, nat>, depth: nat, L0: Level)
    requires EmbedsStructs(reg, cl) && k <= |current| && AllStructs(reg, current) && AllStructs(reg, L0.scan.next)
    ensures var L := ScanLevel(reg, cl, current, k, count, depth, L0);
      AllStructs(reg, L.scan.next) && L0.visited <= L.visited &&
      (L.visited == L0.visited ==> L.scan.next == L0.scan.next) &&
      (L.visited != L0.visited ==> |reg.Keys - L.visited| < |reg.Keys - L0.visited|)
  {
    LevelStructs(reg, cl, current, k, count, depth, L0);
    LevelShrinks(reg, cl, current, k, count, depth, L0);
  }

  lemma VisitOne<T>(keys: set<T>, visited: set<T>, x: T)
    requires x in keys && x !in visited
    ensures |keys - (visited + {x})| < |keys - visited|
  {
    assert keys - visited == (keys - (visited + {x})) + {x};
  }

  lemma SubsetCard<T>(a: set<T>, b: set<T>)
    requires a <= b
    ensures |a| <= |b|
  {
    assert b == a + (b - a);
  }

  /**
    The innermost loop of typeSpecFields: the declared fields of one scanned
    type, each recorded (twice when `dup`), queued for the next level, or
    skipped.
  */
  method ScanFields(reg: Registry, rules: TagRules, decl: seq<StructField>, dup: bool,
                    fields0: seq<SpecField>, next0: seq<TypeId>, nextCount0: map<TypeId, nat>)
    returns (fields: seq<SpecField>, next: seq<TypeId>, nextCount: map<TypeId, nat>)
    ensures Scan(fields, next, nextCount) == ScanDecl(Classifying(reg, rules), decl, |decl|, dup, Scan(fields0, next0, nextCount0))
  {
    fields, next, nextCount := fields0, next0, nextCount0;
    for i := 0 to |decl|
      invariant Scan(fields, next, nextCount) == ScanDecl(Classifying(reg, rules), decl, i, dup, Scan(fields0, next0, nextCount0))
    {
      ghost var before := Scan(fields, next, nextCount);
      var action := ResolveField(reg, rules, decl[i]);
      match action {
        case Skip =>
        case Record(field) =>
          fields := fields + [field];
          if dup {
            fields := fields + [fields[|fields| - 1]];
            assert fields == before.fields + [field, field];
          }
        case Embed(ft) =>
          nextCount := nextCount[ft := Count(nextCount, ft) + 1];
          if nextCount[ft] == 1 {
            next := next + [ft];
          }
      }
      assert Scan(fields, next, nextCount) == FieldStep(Classifying(reg, rules), decl[i], dup, before);
    }
  }

  /**
    One level of typeSpecFields: every queued type not visited before is
    marked visited and its declared fields scanned, into a fresh queue for
    the next level.
  */
  method ScanTypes(reg: Registry, rules: TagRules, current: seq<TypeId>, count: map<TypeId, nat>, ghost depth: nat,
                   fields0: seq<SpecField>, visited0: set<TypeId>, ghost scanned0: seq<Scanned>)
    returns (fields: seq<SpecField>, next: seq<TypeId>, nextCount: map<TypeId, nat>, visited: set<TypeId>,
             ghost scanned: seq<Scanned>)
    ensures Level(Scan(fields, next, nextCount), visited, scanned) ==
      ScanLevel(reg, Classifying(reg, rules), current, |current|, count, depth, Level(Scan(fields0, [], map[]), visited0, scanned0))
  {
    ghost var cl := Classifying(reg, rules);
    ghost var L0 := Level(Scan(fields0, [], map[]), visited0, scanned0);
    fields, next, nextCount, visited, scanned := fields0, [], map[], visited0, scanned0;
    for k := 0 to |current|
      invariant Level(Scan(fields, next, nextCount), visited, scanned) == ScanLevel(reg, cl, current, k, count, depth, L0)
    {
      var ty := current[k];
      if ty in visited {
        continue;
      }
      visited := visited + {ty};
      var decl := DeclaredFields(reg, ty);
      var dup := Count(count, ty) > 1;
      fields, next, nextCount := ScanFields(reg, rules, decl, dup, fields, next, nextCount);
      scanned := scanned + [Scanned(ty, dup, depth)];
    }
  }

  /**
    typeSpecFields without its post-pass, as the loop program it is: the
    current/next queues swap each level, count/nextCount likewise, and the
    fields are appended as they are found.
  */
  method CollectFields(reg: Registry, rules: TagRules, t: TypeId) returns (fields: seq<SpecField>)
    requires IsStruct(reg, t)
    ensures fields == CollectedFields(reg, rules, t)
  {
    var current: seq<TypeId> := [];
    var next: seq<TypeId> := [t];
    var count: map<TypeId, nat> := map[];
    var nextCount: map<TypeId, nat> := map[];
    var visited: set<TypeId> := {};
    fields := [];
    ghost var cl := Classifying(reg, rules);
    ghost var scanned: seq<Scanned> := [];
    ghost var depth: nat := 0;
    while |next| > 0
      invariant AllStructs(reg, next)
      invariant Bfs(reg, cl, next, nextCount, visited, fields, scanned, depth) == Resolve(reg, rules, t)
      decreases |reg.Keys - visited|, |next|
    {
      current, count := next, nextCount;
      LevelProgress(reg, cl, current, |current|, count, depth, Level(Scan(fields, [], map[]), visited, scanned));
      fields, next, nextCount, visited, scanned := ScanTypes(reg, rules, current, count, depth, fields, visited, scanned);
      depth := depth + 1;
    }
  }
}
