/**
  buildStructHierarchy (cmd/main2.go): from the set of dotted field paths a
  template mentions, the root struct and the structs for the parent paths.

  The set of paths is given as a sequence in the order a map range would
  visit it.  Every path contributes at most one field, placed in the struct
  its parent path names; each parent path names a struct, and a field whose
  own path is a parent path takes that struct as its type.  The structs are
  keyed by name, and since a struct name never holds a dot, the link step
  puts every one of them directly under the root.
*/
module Hierarchy {
  import opened Strings
  import opened StructModel
  import opened FieldSort

  /** The parent path a field path is grouped under: "" for a one-segment path, else its segments but the last, joined by dots. */
  function GroupKey(path: string): string {
    var parts := Split(path, '.');
    if |parts| == 1 then "" else Join(parts[..|parts| - 1], ".")
  }

  /** A path's last segment: the name of the field it stands for. */
  function LastSegment(path: string): string {
    var parts := Split(path, '.');
    parts[|parts| - 1]
  }

  /** A dotted path is its parent path, a dot and its last segment; an undotted one is its own last segment, under the root. */
  lemma PathShape(path: string)
    ensures '.' !in LastSegment(path)
    ensures '.' !in path ==> GroupKey(path) == "" && LastSegment(path) == path
    ensures '.' in path ==> path == GroupKey(path) + "." + LastSegment(path)
  {
    var parts := Split(path, '.');
    SplitJoin(path, '.');
    if '.' in path {
      var init := parts[..|parts| - 1];
      assert parts == init + [parts[|parts| - 1]];
      JoinSnoc(init, parts[|parts| - 1], ".");
    }
  }

  /** The parent path of every path, in order. */
  function Keys(paths: seq<string>): seq<string> {
    seq(|paths|, i requires 0 <= i < |paths| => GroupKey(paths[i]))
  }

  /** fieldGroups after the first n paths, keys[i] being the parent path of paths[i]: each parent path with its paths in order. */
  function Groups(paths: seq<string>, keys: seq<string>, n: nat): map<string, seq<string>>
    requires n <= |paths| && n <= |keys|
  {
    if n == 0 then map[]
    else
      var g := Groups(paths, keys, n - 1);
      var k := keys[n - 1];
      g[k := (if k in g then g[k] else []) + [paths[n - 1]]]
  }

  /** The positions among the first n that hold key k, in order. */
  function KeyIdx(keys: seq<string>, n: nat, k: string): (idx: seq<nat>)
    requires n <= |keys|
    ensures forall j :: 0 <= j < |idx| ==> idx[j] < n && keys[idx[j]] == k
  {
    if n == 0 then []
    else KeyIdx(keys, n - 1, k) + (if keys[n - 1] == k then [n - 1] else [])
  }

  /** k has a position exactly when it occurs among the first n keys. */
  lemma {:induction false} KeyIdxOccurs(keys: seq<string>, n: nat, k: string)
    requires n <= |keys|
    ensures KeyIdx(keys, n, k) != [] <==> exists i :: 0 <= i < n && keys[i] == k
  {
    if n > 0 {
      KeyIdxOccurs(keys, n - 1, k);
    }
  }

  /** A parent path is a key of the groups exactly when some path lies under it, and its group is those paths, in order. */
  lemma {:induction false} GroupsAsFilter(paths: seq<string>, keys: seq<string>, n: nat, k: string)
    requires n <= |paths| && n <= |keys|
    ensures k in Groups(paths, keys, n) <==> KeyIdx(keys, n, k) != []
    ensures k in Groups(paths, keys, n) ==>
      |Groups(paths, keys, n)[k]| == |KeyIdx(keys, n, k)| &&
      forall j :: 0 <= j < |KeyIdx(keys, n, k)| ==> Groups(paths, keys, n)[k][j] == paths[KeyIdx(keys, n, k)[j]]
  {
    if n > 0 {
      GroupsAsFilter(paths, keys, n - 1, k);
    }
  }

  /** Every path's parent path is a key of the groups. */
  lemma {:induction false} KeysGrouped(paths: seq<string>, keys: seq<string>, n: nat, i: nat)
    requires i < n <= |paths| && n <= |keys|
    ensures keys[i] in Groups(paths, keys, n)
  {
    if i < n - 1 {
      KeysGrouped(paths, keys, n - 1, i);
    }
  }

  /** The field a path with a non-empty last segment contributes to the group of parent, given the complete groups. */
  function FieldFor(path: string, parent: string, groups: map<string, seq<string>>): FieldInfo {
    var last := LastSegment(path);
    FieldInfo(Title(last),
      if path in groups then StructNameOf(path) else InferFieldType(last),
      |Split(path, '.')| > 1,
      parent)
  }

  /** The struct a group's fields go to: the root for "", else the struct named after the parent path. */
  datatype Target = Root | Nested(name: string)

  function TargetOf(k: string): Target {
    if k == "" then Root else Nested(StructNameOf(k))
  }

  /** The names of the structs the non-root parent paths among keys create. */
  ghost function NestedNames(keys: set<string>): set<string> {
    set k | k in keys && k != "" :: StructNameOf(k)
  }

  /** What one path amounts to: its parent path, where that parent path's fields go, and its field if it has one. */
  datatype Slot = Slot(key: string, dest: Target, present: bool, field: FieldInfo)

  function SlotOf(p: string, groups: map<string, seq<string>>): Slot {
    var k := GroupKey(p);
    Slot(k, TargetOf(k), LastSegment(p) != "", FieldFor(p, k, groups))
  }

  /** The slot of every path, in order. */
  function Slots(paths: seq<string>, groups: map<string, seq<string>>): seq<Slot> {
    seq(|paths|, i requires 0 <= i < |paths| => SlotOf(paths[i], groups))
  }

  /** The fields struct T receives: the field of each of the first n paths that has one and whose parent path goes to T. */
  function Wanted(slots: seq<Slot>, n: nat, T: Target): multiset<FieldInfo>
    requires n <= |slots|
  {
    if n == 0 then multiset{}
    else
      var s := slots[n - 1];
      Wanted(slots, n - 1, T) + (if s.present && s.dest == T then multiset{s.field} else multiset{})
  }

  /** The part of Wanted that comes from the paths whose parent path is in done. */
  function Picked(slots: seq<Slot>, n: nat, done: set<string>, T: Target): multiset<FieldInfo>
    requires n <= |slots|
  {
    if n == 0 then multiset{}
    else
      var s := slots[n - 1];
      Picked(slots, n - 1, done, T) + (if s.present && s.key in done && s.dest == T then multiset{s.field} else multiset{})
  }

  /** The fields of the first n paths under parent path k. */
  function KeyBag(slots: seq<Slot>, n: nat, k: string): multiset<FieldInfo>
    requires n <= |slots|
  {
    if n == 0 then multiset{}
    else
      var s := slots[n - 1];
      KeyBag(slots, n - 1, k) + (if s.present && s.key == k then multiset{s.field} else multiset{})
  }

  /** The fields of the first n paths under parent path k, in order. */
  function KeyList(slots: seq<Slot>, n: nat, k: string): seq<FieldInfo>
    requires n <= |slots|
  {
    if n == 0 then []
    else
      var s := slots[n - 1];
      KeyList(slots, n - 1, k) + (if s.present && s.key == k then [s.field] else [])
  }

  lemma BagSnoc<X>(a: seq<X>, b: seq<X>)
    requires |b| <= 1
    ensures multiset(a + b) == multiset(a) + (if b == [] then multiset{} else multiset{b[0]})
  {
    if b == [] {
      assert a + b == a;
    }
  }

  lemma KeyBagList(slots: seq<Slot>, n: nat, k: string)
    requires n <= |slots|
    ensures KeyBag(slots, n, k) == multiset(KeyList(slots, n, k))
  {
    for i := 0 to n
      invariant KeyBag(slots, i, k) == multiset(KeyList(slots, i, k))
    {
      var s := slots[i];
      BagSnoc(KeyList(slots, i, k), if s.present && s.key == k then [s.field] else []);
    }
  }

  /** A field is in Wanted exactly when some path gives it and goes to T. */
  lemma {:induction false} WantedMembers(slots: seq<Slot>, n: nat, T: Target, x: FieldInfo)
    requires n <= |slots|
    ensures x in Wanted(slots, n, T) <==> exists i :: 0 <= i < n && slots[i].present && slots[i].dest == T && slots[i].field == x
  {
    if n > 0 {
      WantedMembers(slots, n - 1, T, x);
    }
  }

  /** Taking a parent path k whose fields go to T adds its fields to T. */
  lemma {:induction false} PickedAdd(slots: seq<Slot>, n: nat, done: set<string>, k: string, T: Target)
    requires n <= |slots| && k !in done
    requires forall i :: 0 <= i < n && slots[i].key == k ==> slots[i].dest == T
    ensures Picked(slots, n, done + {k}, T) == Picked(slots, n, done, T) + KeyBag(slots, n, k)
  {
    if n > 0 {
      PickedAdd(slots, n - 1, done, k, T);
    }
  }

  /** Taking a parent path k whose fields go elsewhere leaves T as it was. */
  lemma {:induction false} PickedElsewhere(slots: seq<Slot>, n: nat, done: set<string>, k: string, T: Target)
    requires n <= |slots|
    requires forall i :: 0 <= i < n && slots[i].key == k ==> slots[i].dest != T
    ensures Picked(slots, n, done + {k}, T) == Picked(slots, n, done, T)
  {
    if n > 0 {
      PickedElsewhere(slots, n - 1, done, k, T);
    }
  }

  /** No parent path in done goes to T: T has received nothing. */
  lemma {:induction false} PickedNone(slots: seq<Slot>, n: nat, done: set<string>, T: Target)
    requires n <= |slots|
    requires forall i :: 0 <= i < n && slots[i].key in done ==> slots[i].dest != T
    ensures Picked(slots, n, done, T) == multiset{}
  {
    if n > 0 {
      PickedNone(slots, n - 1, done, T);
    }
  }

  /** Once every path's parent path is in done, each struct has received all it wants. */
  lemma {:induction false} PickedAll(slots: seq<Slot>, n: nat, done: set<string>, T: Target)
    requires n <= |slots|
    requires forall i :: 0 <= i < n ==> slots[i].key in done
    ensures Picked(slots, n, done, T) == Wanted(slots, n, T)
  {
    if n > 0 {
      PickedAll(slots, n - 1, done, T);
    }
  }

  /** The groups after one more path: that path appended to the group of its parent path. */
  lemma GroupsNext(paths: seq<string>, i: nat)
    requires i < |paths|
    ensures var g, k := Groups(paths, Keys(paths), i), GroupKey(paths[i]);
      Groups(paths, Keys(paths), i + 1) == g[k := (if k in g then g[k] else []) + [paths[i]]]
  {
  }

  /** The grouping loop of buildStructHierarchy. */
  method GroupPaths(paths: seq<string>) returns (groups: map<string, seq<string>>)
    ensures groups == Groups(paths, Keys(paths), |paths|)
  {
    groups := map[];
    for i := 0 to |paths|
      invariant groups == Groups(paths, Keys(paths), i)
    {
      GroupsNext(paths, i);
      groups := AddToGroup(groups, paths[i]);
    }
  }

  /** One round of the grouping loop: the path appended to the group of its parent path. */
  method AddToGroup(groups: map<string, seq<string>>, path: string) returns (groups': map<string, seq<string>>)
    ensures var k := GroupKey(path); groups' == groups[k := (if k in groups then groups[k] else []) + [path]]
  {
    var parts := Split(path, '.');
    if |parts| == 1 {
      groups' := groups["" := (if "" in groups then groups[""] else []) + [path]];
    } else {
      var parentPath := Join(parts[..|parts| - 1], ".");
      groups' := groups[parentPath := (if parentPath in groups then groups[parentPath] else []) + [path]];
    }
  }

  /** The field built for a path of the group of parentPath. */
  method MakeField(fieldPath: string, parentPath: string, groups: map<string, seq<string>>) returns (info: FieldInfo)
    ensures info == FieldFor(fieldPath, parentPath, groups)
  {
    var parts := Split(fieldPath, '.');
    var fieldName := parts[|parts| - 1];
    info := FieldInfo(Title(fieldName), InferFieldType(fieldName), |parts| > 1, parentPath);
    var nestedStructName := GetStructNameFromPath(fieldPath);
    if fieldPath in groups {
      info := info.(typ := nestedStructName);
    }
  }

  /** The fields a group of paths contributes, in order: one for each path whose last segment is not empty. */
  function FieldsOf(fields: seq<string>, parent: string, groups: map<string, seq<string>>): seq<FieldInfo>
    decreases |fields|
  {
    if fields == [] then []
    else
      var p := fields[|fields| - 1];
      FieldsOf(fields[..|fields| - 1], parent, groups) + (if LastSegment(p) != "" then [FieldFor(p, parent, groups)] else [])
  }

  /** The field one more path contributes, if any. */
  lemma FieldsOfSnoc(fields: seq<string>, p: string, parent: string, groups: map<string, seq<string>>)
    ensures FieldsOf(fields + [p], parent, groups) == FieldsOf(fields, parent, groups) + (if LastSegment(p) != "" then [FieldFor(p, parent, groups)] else [])
  {
    assert (fields + [p])[..|fields|] == fields;
  }

  /** The groups after one more path: that path appended to its parent path's group, the other groups unchanged. */
  lemma GroupsSnoc(paths: seq<string>, n: nat, k: string)
    requires 0 < n <= |paths|
    ensures var g, g' := Groups(paths, Keys(paths), n - 1), Groups(paths, Keys(paths), n);
      if GroupKey(paths[n - 1]) == k then k in g' && g'[k] == (if k in g then g[k] else []) + [paths[n - 1]]
      else (k in g' <==> k in g) && (k in g ==> g'[k] == g[k])
  {
  }

  /**
    slots stands for the slots of paths: each records its path's parent path
    and whether the path has a field, and holds the field FieldFor gives it.
  */
  ghost predicate SlotsAgree(slots: seq<Slot>, paths: seq<string>, groups: map<string, seq<string>>) {
    |slots| == |paths| &&
    (forall i :: 0 <= i < |paths| ==> slots[i].key == GroupKey(paths[i]) && slots[i].present == (LastSegment(paths[i]) != "")) &&
    (forall i {:trigger FieldFor(paths[i], slots[i].key, groups)} ::
      0 <= i < |paths| ==> slots[i].field == FieldFor(paths[i], slots[i].key, groups))
  }

  lemma SlotsAgreeOf(paths: seq<string>, groups: map<string, seq<string>>)
    ensures SlotsAgree(Slots(paths, groups), paths, groups)
  {
  }

  /** The last of the first n slots adds tail to k's list. */
  lemma KeyListLast(slots: seq<Slot>, n: nat, k: string, tail: seq<FieldInfo>)
    requires 0 < n <= |slots|
    requires tail == if slots[n - 1].present && slots[n - 1].key == k then [slots[n - 1].field] else []
    ensures KeyList(slots, n, k) == KeyList(slots, n - 1, k) + tail
  {
  }

  /** The fields under k among the first n paths, as those of k's group after the first n paths. */
  ghost predicate ListedAsGroup(paths: seq<string>, slots: seq<Slot>, groups: map<string, seq<string>>, n: nat, k: string)
    requires n <= |paths| == |slots|
  {
    var g := Groups(paths, Keys(paths), n);
    KeyList(slots, n, k) == (if k in g then FieldsOf(g[k], k, groups) else [])
  }

  /** A path under k extends both k's list and k's group by its field. */
  lemma ListedHit(paths: seq<string>, slots: seq<Slot>, groups: map<string, seq<string>>, n: nat, k: string)
    requires SlotsAgree(slots, paths, groups)
    requires 0 < n <= |paths| && GroupKey(paths[n - 1]) == k
    requires ListedAsGroup(paths, slots, groups, n - 1, k)
    ensures ListedAsGroup(paths, slots, groups, n, k)
  {
    GroupsSnoc(paths, n, k);
    var p := paths[n - 1];
    assert slots[n - 1].field == FieldFor(p, slots[n - 1].key, groups);
    KeyListLast(slots, n, k, if LastSegment(p) != "" then [FieldFor(p, k, groups)] else []);
    var g := Groups(paths, Keys(paths), n - 1);
    var before := if k in g then g[k] else [];
    assert FieldsOf(before, k, groups) == (if k in g then FieldsOf(g[k], k, groups) else []);
    FieldsOfSnoc(before, p, k, groups);
  }

  /** A path elsewhere leaves k's list and k's group as they were. */
  lemma ListedMiss(paths: seq<string>, slots: seq<Slot>, groups: map<string, seq<string>>, n: nat, k: string)
    requires SlotsAgree(slots, paths, groups)
    requires 0 < n <= |paths| && GroupKey(paths[n - 1]) != k
    requires ListedAsGroup(paths, slots, groups, n - 1, k)
    ensures ListedAsGroup(paths, slots, groups, n, k)
  {
    GroupsSnoc(paths, n, k);
    KeyListLast(slots, n, k, []);
    assert KeyList(slots, n - 1, k) + [] == KeyList(slots, n - 1, k);
  }

  /** One more path keeps k's list equal to the fields of k's group. */
  lemma ListedStep(paths: seq<string>, slots: seq<Slot>, groups: map<string, seq<string>>, n: nat, k: string)
    requires SlotsAgree(slots, paths, groups)
    requires 0 < n <= |paths|
    requires ListedAsGroup(paths, slots, groups, n - 1, k)
    ensures ListedAsGroup(paths, slots, groups, n, k)
  {
    if GroupKey(paths[n - 1]) == k {
      ListedHit(paths, slots, groups, n, k);
    } else {
      ListedMiss(paths, slots, groups, n, k);
    }
  }

  /** The fields under k among the first n paths are those of k's group after the first n paths. */
  lemma GroupFieldsList(paths: seq<string>, slots: seq<Slot>, groups: map<string, seq<string>>, n: nat, k: string)
    requires SlotsAgree(slots, paths, groups)
    requires n <= |paths|
    ensures ListedAsGroup(paths, slots, groups, n, k)
  {
    for i := 0 to n
      invariant ListedAsGroup(paths, slots, groups, i, k)
    {
      ListedStep(paths, slots, groups, i + 1, k);
    }
  }

  /** The paths of a group all have that group's parent path. */
  lemma GroupMembersKeyed(paths: seq<string>, k: string)
    requires k in Groups(paths, Keys(paths), |paths|)
    ensures forall j :: 0 <= j < |Groups(paths, Keys(paths), |paths|)[k]| ==> GroupKey(Groups(paths, Keys(paths), |paths|)[k][j]) == k
  {
    GroupsAsFilter(paths, Keys(paths), |paths|, k);
  }

  /** The fields group k's paths give are the fields the slots hold under k. */
  ghost predicate GroupReadyFor(groups: map<string, seq<string>>, slots: seq<Slot>, k: string) {
    k in groups && KeyBag(slots, |slots|, k) == multiset(FieldsOf(groups[k], k, groups))
  }

  /** What the group loop needs of one group of the complete groups. */
  lemma GroupReady(paths: seq<string>, groups: map<string, seq<string>>, k: string)
    requires groups == Groups(paths, Keys(paths), |paths|) && k in groups
    ensures GroupReadyFor(groups, Slots(paths, groups), k)
  {
    SlotsAgreeOf(paths, groups);
    GroupFieldsList(paths, Slots(paths, groups), groups, |paths|, k);
    KeyBagList(Slots(paths, groups), |paths|, k);
  }

  /** One step of the inner loop: the path's field is appended if its last segment is not empty. */
  method AddField(r: seq<FieldInfo>, fieldPath: string, parentPath: string, groups: map<string, seq<string>>)
    returns (r': seq<FieldInfo>)
    ensures r' == r + (if LastSegment(fieldPath) != "" then [FieldFor(fieldPath, parentPath, groups)] else [])
  {
    r' := r;
    var parts := Split(fieldPath, '.');
    var fieldName := parts[|parts| - 1];
    if fieldName != "" {
      var info := MakeField(fieldPath, parentPath, groups);
      r' := r' + [info];
    }
  }

  /** The inner loop over the paths of one group: the fields of the group appended, in order. */
  method AddFields(target: seq<FieldInfo>, fields: seq<string>, parentPath: string, groups: map<string, seq<string>>)
    returns (r: seq<FieldInfo>)
    ensures r == target + FieldsOf(fields, parentPath, groups)
  {
    r := target;
    for j := 0 to |fields|
      invariant r == target + FieldsOf(fields[..j], parentPath, groups)
    {
      assert fields[..j + 1][..j] == fields[..j];
      r := AddField(r, fields[j], parentPath, groups);
    }
    assert fields[..|fields|] == fields;
  }

  /** The root fields are what the parent paths in done put at the root. */
  ghost predicate RootPlaced(slots: seq<Slot>, done: set<string>, rootFields: seq<FieldInfo>) {
    multiset(rootFields) == Picked(slots, |slots|, done, Root)
  }

  /** Each created struct is named by its key, has no structs of its own, and holds what the parent paths in done put there. */
  ghost predicate NestedPlaced(slots: seq<Slot>, done: set<string>, created: map<string, StructDef>) {
    forall n :: n in created ==> StructPlaced(slots, done, n, created[n])
  }

  /** Struct d is named n, has no structs of its own, and holds what the parent paths in done put in n. */
  ghost predicate StructPlaced(slots: seq<Slot>, done: set<string>, n: string, d: StructDef) {
    d.name == n && d.nested == map[] && multiset(d.fields) == Picked(slots, |slots|, done, Nested(n))
  }

  /** Root fields and created structs hold what the parent paths in done put there, and exactly their structs are created. */
  ghost predicate FieldsPlaced(slots: seq<Slot>, done: set<string>, rootFields: seq<FieldInfo>, created: map<string, StructDef>) {
    RootPlaced(slots, done, rootFields) && created.Keys == NestedNames(done) && NestedPlaced(slots, done, created)
  }

  /** Every slot's fields go where its parent path sends them. */
  ghost predicate Routed(slots: seq<Slot>) {
    forall i :: 0 <= i < |slots| ==> slots[i].dest == TargetOf(slots[i].key)
  }

  /** The slots of the paths record each path's parent path and where it sends its fields. */
  lemma SlotsOfPaths(paths: seq<string>, groups: map<string, seq<string>>)
    ensures |Slots(paths, groups)| == |paths|
    ensures forall i :: 0 <= i < |paths| ==> Slots(paths, groups)[i].key == GroupKey(paths[i])
    ensures Routed(Slots(paths, groups))
  {
  }

  /** The root group creates no struct. */
  lemma RootNames(done: set<string>)
    ensures NestedNames(done + {""}) == NestedNames(done)
  {
  }

  /** A nested group adds the struct of its name. */
  lemma NestedNamesAdd(done: set<string>, k: string)
    requires k != ""
    ensures NestedNames(done + {k}) == NestedNames(done) + {StructNameOf(k)}
  {
  }

  /** Taking the parent path k appends its fields to the place T its fields go. */
  lemma AddPlaced(slots: seq<Slot>, done: set<string>, k: string, T: Target, before: seq<FieldInfo>, fs: seq<FieldInfo>)
    requires Routed(slots) && k !in done && TargetOf(k) == T
    requires multiset(before) == Picked(slots, |slots|, done, T)
    requires multiset(fs) == KeyBag(slots, |slots|, k)
    ensures multiset(before + fs) == Picked(slots, |slots|, done + {k}, T)
  {
    PickedAdd(slots, |slots|, done, k, T);
  }

  /** Taking the parent path k leaves the created structs other than k's own as they were. */
  lemma OthersPlaced(slots: seq<Slot>, done: set<string>, k: string, created: map<string, StructDef>)
    requires Routed(slots)
    requires forall n :: n in created ==> TargetOf(k) != Nested(n)
    requires NestedPlaced(slots, done, created)
    ensures NestedPlaced(slots, done + {k}, created)
  {
    forall n | n in created
      ensures StructPlaced(slots, done + {k}, n, created[n])
    {
      PickedElsewhere(slots, |slots|, done, k, Nested(n));
    }
  }

  /** Taking a parent path k whose fields go elsewhere than T leaves T as it was. */
  lemma RoutedElsewhere(slots: seq<Slot>, done: set<string>, k: string, T: Target)
    requires Routed(slots) && TargetOf(k) != T
    ensures Picked(slots, |slots|, done + {k}, T) == Picked(slots, |slots|, done, T)
  {
    PickedElsewhere(slots, |slots|, done, k, T);
  }

  /** Taking a nested parent path k leaves the root fields as they were. */
  lemma RootUntouched(slots: seq<Slot>, done: set<string>, k: string, rootFields: seq<FieldInfo>)
    requires Routed(slots) && k != ""
    requires RootPlaced(slots, done, rootFields)
    ensures RootPlaced(slots, done + {k}, rootFields)
  {
    PickedElsewhere(slots, |slots|, done, k, Root);
  }

  /** Placing the root group's fields after the root fields keeps everything placed. */
  lemma RootStep(slots: seq<Slot>, done: set<string>, rootFields: seq<FieldInfo>, created: map<string, StructDef>, fs: seq<FieldInfo>)
    requires Routed(slots) && "" !in done
    requires FieldsPlaced(slots, done, rootFields, created)
    requires multiset(fs) == KeyBag(slots, |slots|, "")
    ensures FieldsPlaced(slots, done + {""}, rootFields + fs, created)
  {
    AddPlaced(slots, done, "", Root, rootFields, fs);
    OthersPlaced(slots, done, "", created);
    RootNames(done);
  }

  /** A struct name no parent path in done gives has received no fields. */
  lemma NoneYet(slots: seq<Slot>, done: set<string>, name: string)
    requires Routed(slots) && name !in NestedNames(done)
    ensures Picked(slots, |slots|, done, Nested(name)) == multiset{}
  {
    forall i | 0 <= i < |slots| && slots[i].key in done
      ensures slots[i].dest != Nested(name)
    {
      if slots[i].key != "" {
        assert StructNameOf(slots[i].key) in NestedNames(done);
      }
    }
    PickedNone(slots, |slots|, done, Nested(name));
  }

  /** The struct of a nested parent path k, found or new, holds what it held and k's fields. */
  lemma TargetPlaced(slots: seq<Slot>, done: set<string>, k: string, created: map<string, StructDef>,
                     target: StructDef, fs: seq<FieldInfo>)
    requires Routed(slots) && k != "" && k !in done
    requires created.Keys == NestedNames(done) && NestedPlaced(slots, done, created)
    requires target == if StructNameOf(k) in created then created[StructNameOf(k)] else StructDef(StructNameOf(k), [], map[])
    requires multiset(fs) == KeyBag(slots, |slots|, k)
    ensures StructPlaced(slots, done + {k}, StructNameOf(k), target.(fields := target.fields + fs))
  {
    var name := StructNameOf(k);
    if name !in created {
      NoneYet(slots, done, name);
    }
    AddPlaced(slots, done, k, Nested(name), target.fields, fs);
  }

  /** The structs but k's own keep what they held when k is taken. */
  lemma OthersKept(slots: seq<Slot>, done: set<string>, k: string, created: map<string, StructDef>, name: string)
    requires Routed(slots) && k != "" && name == StructNameOf(k)
    requires NestedPlaced(slots, done, created)
    ensures forall n :: n in created && n != name ==> StructPlaced(slots, done + {k}, n, created[n])
  {
    assert TargetOf(k) == Nested(name);
    forall n | n in created && n != name
      ensures StructPlaced(slots, done + {k}, n, created[n])
    {
      RoutedElsewhere(slots, done, k, Nested(n));
    }
  }

  /** Putting a placed struct under its name among placed structs leaves every struct placed. */
  lemma PlacedUpdate(slots: seq<Slot>, done: set<string>, created: map<string, StructDef>, name: string, d: StructDef)
    requires StructPlaced(slots, done, name, d)
    requires forall n :: n in created && n != name ==> StructPlaced(slots, done, n, created[n])
    ensures NestedPlaced(slots, done, created[name := d])
  {
  }

  /** Appending a nested group's fields to the struct of its name, found or new, keeps everything placed. */
  lemma NestedStep(slots: seq<Slot>, done: set<string>, k: string, rootFields: seq<FieldInfo>, created: map<string, StructDef>,
                   target: StructDef, fs: seq<FieldInfo>)
    requires Routed(slots) && k != "" && k !in done
    requires FieldsPlaced(slots, done, rootFields, created)
    requires target == if StructNameOf(k) in created then created[StructNameOf(k)] else StructDef(StructNameOf(k), [], map[])
    requires multiset(fs) == KeyBag(slots, |slots|, k)
    ensures FieldsPlaced(slots, done + {k}, rootFields, created[StructNameOf(k) := target.(fields := target.fields + fs)])
  {
    var name := StructNameOf(k);
    TargetPlaced(slots, done, k, created, target, fs);
    OthersKept(slots, done, k, created, name);
    PlacedUpdate(slots, done + {k}, created, name, target.(fields := target.fields + fs));
    RootUntouched(slots, done, k, rootFields);
    NestedNamesAdd(done, k);
  }

  /** One round of the group loop: the fields of parentPath's group go to the root or to the struct its name picks, created if new. */
  method AddGroup(paths: seq<string>, groups: map<string, seq<string>>, ghost done: set<string>,
                  parentPath: string, rootFields: seq<FieldInfo>, created: map<string, StructDef>)
    returns (rootFields': seq<FieldInfo>, created': map<string, StructDef>)
    requires groups == Groups(paths, Keys(paths), |paths|) && parentPath in groups && parentPath !in done
    requires FieldsPlaced(Slots(paths, groups), done, rootFields, created)
    ensures FieldsPlaced(Slots(paths, groups), done + {parentPath}, rootFields', created')
  {
    ghost var slots := Slots(paths, groups);
    SlotsOfPaths(paths, groups);
    GroupReady(paths, groups, parentPath);
    var fields := groups[parentPath];
    if parentPath == "" {
      rootFields' := AddFields(rootFields, fields, parentPath, groups);
      created' := created;
      RootStep(slots, done, rootFields, created, FieldsOf(fields, parentPath, groups));
    } else {
      var structName := GetStructNameFromPath(parentPath);
      var target: StructDef;
      if structName in created {
        target := created[structName];
      } else {
        target := StructDef(structName, [], map[]);
      }
      var fs := AddFields(target.fields, fields, parentPath, groups);
      created' := created[structName := target.(fields := fs)];
      rootFields' := rootFields;
      NestedStep(slots, done, parentPath, rootFields, created, target, FieldsOf(fields, parentPath, groups));
    }
  }

  /** Once every parent path has been taken, each struct holds all it wants. */
  lemma GatherDone(paths: seq<string>, groups: map<string, seq<string>>, rootFields: seq<FieldInfo>, created: map<string, StructDef>)
    requires groups == Groups(paths, Keys(paths), |paths|)
    requires FieldsPlaced(Slots(paths, groups), groups.Keys, rootFields, created)
    ensures multiset(rootFields) == Wanted(Slots(paths, groups), |paths|, Root)
    ensures created.Keys == NestedNames(groups.Keys)
    ensures forall n :: n in created ==>
      created[n].name == n && created[n].nested == map[] &&
      multiset(created[n].fields) == Wanted(Slots(paths, groups), |paths|, Nested(n))
  {
    var slots := Slots(paths, groups);
    SlotsOfPaths(paths, groups);
    forall i | 0 <= i < |paths|
      ensures slots[i].key in groups.Keys
    {
      KeysGrouped(paths, Keys(paths), |paths|, i);
    }
    PickedAll(slots, |paths|, groups.Keys, Root);
    forall n | n in created
      ensures multiset(created[n].fields) == Wanted(slots, |paths|, Nested(n))
    {
      PickedAll(slots, |paths|, groups.Keys, Nested(n));
    }
  }

  /** Before the group loop nothing is placed. */
  lemma PlacedStart(slots: seq<Slot>)
    ensures FieldsPlaced(slots, {}, [], map[])
  {
    assert NestedNames({}) == {};
    PickedNone(slots, |slots|, {}, Root);
  }

  /**
    The group loop of buildStructHierarchy, over the parent paths in map
    order: the root and each created struct hold the fields they want.
  */
  method GatherFields(paths: seq<string>, groups: map<string, seq<string>>)
    returns (rootFields: seq<FieldInfo>, created: map<string, StructDef>)
    requires groups == Groups(paths, Keys(paths), |paths|)
    ensures multiset(rootFields) == Wanted(Slots(paths, groups), |paths|, Root)
    ensures created.Keys == NestedNames(groups.Keys)
    ensures forall n :: n in created ==>
      created[n].name == n && created[n].nested == map[] &&
      multiset(created[n].fields) == Wanted(Slots(paths, groups), |paths|, Nested(n))
  {
    rootFields := [];
    created := map[];
    var todo := groups.Keys;
    ghost var done: set<string> := {};
    PlacedStart(Slots(paths, groups));
    while todo != {}
      invariant todo <= groups.Keys && done == groups.Keys - todo
      invariant FieldsPlaced(Slots(paths, groups), done, rootFields, created)
      decreases todo
    {
      var parentPath :| parentPath in todo;
      rootFields, created := AddGroup(paths, groups, done, parentPath, rootFields, created);
      done := done + {parentPath};
      todo := todo - {parentPath};
    }
    assert done == groups.Keys;
    GatherDone(paths, groups, rootFields, created);
  }

  /** The link loop: every created struct goes under the root by its own name (its name has no dot, so no parent is looked up). */
  method LinkNested(rootFields: seq<FieldInfo>, created: map<string, StructDef>) returns (root: StructDef)
    requires forall n :: n in created ==> created[n].name == n && n != "" && '.' !in n
    ensures root == StructDef(RootName, rootFields, created)
  {
    root := StructDef(RootName, rootFields, map[]);
    var todo := created.Keys;
    while todo != {}
      invariant todo <= created.Keys
      invariant root.name == RootName && root.fields == rootFields
      invariant root.nested.Keys == created.Keys - todo
      invariant forall n :: n in root.nested ==> root.nested[n] == created[n]
      decreases todo
    {
      var parentPath :| parentPath in todo;
      if parentPath != "" {
        var parentParts := Split(parentPath, '.');
        if |parentParts| == 1 {
          var nestedStruct := created[parentPath];
          root := root.(nested := root.nested[nestedStruct.name := nestedStruct]);
        } else {
          assert false;
        }
      }
      todo := todo - {parentPath};
    }
    assert root.nested == created;
  }

  /**
    buildStructHierarchy: the root is named RootData and holds, sorted, the
    fields of the one-segment paths; under it lie the structs of all other
    parent paths, each by its name, with no structs of their own, holding
    sorted the fields of the paths under every parent path of that name.
  */
  method BuildStructHierarchy(paths: seq<string>) returns (root: StructDef)
    ensures root.name == RootName
    ensures Sorted(root.fields) && multiset(root.fields) == Wanted(Slots(paths, Groups(paths, Keys(paths), |paths|)), |paths|, Root)
    ensures root.nested.Keys == NestedNames(Groups(paths, Keys(paths), |paths|).Keys)
    ensures forall n :: n in root.nested ==>
      root.nested[n].name == n && root.nested[n].nested == map[] && Sorted(root.nested[n].fields) &&
      multiset(root.nested[n].fields) == Wanted(Slots(paths, Groups(paths, Keys(paths), |paths|)), |paths|, Nested(n))
  {
    var groups := GroupPaths(paths);
    var rootFields, created := GatherFields(paths, groups);
    forall n | n in created
      ensures n != "" && '.' !in n
    {
      var k :| k in groups.Keys && k != "" && StructNameOf(k) == n;
      StructNameShape(k);
    }
    var linked := LinkNested(rootFields, created);
    root := SortStructFields(linked);
    forall n | n in root.nested
      ensures root.nested[n].nested == map[]
    {
      assert root.nested[n].nested.Keys == {};
    }
  }

  /** A parent path is a key of the groups exactly when some path lies under it. */
  lemma ParentPathIff(paths: seq<string>, k: string)
    ensures k in Groups(paths, Keys(paths), |paths|) <==> exists j :: 0 <= j < |paths| && GroupKey(paths[j]) == k
  {
    var keys := Keys(paths);
    GroupsAsFilter(paths, keys, |paths|, k);
    KeyIdxOccurs(keys, |paths|, k);
    assert forall j :: 0 <= j < |paths| ==> keys[j] == GroupKey(paths[j]);
  }

  /**
    A path with a field is a parent path exactly when some path lies under
    it, and then its field is typed by the name of a struct that is created.
  */
  lemma StructTypedFields(paths: seq<string>, i: nat)
    requires i < |paths| && LastSegment(paths[i]) != ""
    ensures paths[i] in Groups(paths, Keys(paths), |paths|) <==>
      exists j :: 0 <= j < |paths| && GroupKey(paths[j]) == paths[i]
    ensures var groups := Groups(paths, Keys(paths), |paths|);
      paths[i] in groups ==>
        FieldFor(paths[i], GroupKey(paths[i]), groups).typ == StructNameOf(paths[i]) && StructNameOf(paths[i]) in NestedNames(groups.Keys)
  {
    ParentPathIff(paths, paths[i]);
    assert Split("", '.') == [""];
  }
}
