/**
  The naming and typing rules of the template-to-struct generator
  (cmd/main2.go): struct names from field paths, field types guessed from
  field names, and the slice rule.
*/
module StructModel {
  import opened Strings

  /** One field of a generated struct (FieldInfo). */
  datatype FieldInfo = FieldInfo(name: string, typ: string, isNested: bool, parent: string)

  /** A generated struct, its fields and the structs linked under it by name (StructDefinition). */
  datatype StructDef = StructDef(name: string, fields: seq<FieldInfo>, nested: map<string, StructDef>)

  const RootName: string := "RootData"
  const NameSuffix: string := "Data"

  /** The non-empty pieces of parts, each title-cased, in order. */
  function TitledParts(parts: seq<string>): (r: seq<string>)
    ensures |r| <= |parts|
    decreases |parts|
  {
    if parts == [] then []
    else (if parts[0] != "" then [Title(parts[0])] else []) + TitledParts(parts[1..])
  }

  /** The struct name for a field path: RootData for "", else the title-cased non-empty segments and "Data". */
  function StructNameOf(path: string): string {
    if path == "" then RootName else Join(TitledParts(Split(path, '.')), "") + NameSuffix
  }

  /** getStructNameFromPath: the root name for "", else the segments joined by the loop below. */
  method GetStructNameFromPath(path: string) returns (name: string)
    ensures name == StructNameOf(path)
  {
    if path == "" {
      return RootName;
    }
    var parts := Split(path, '.');
    var nameParts := TitleSegments(parts);
    name := Join(nameParts, "") + NameSuffix;
  }

  /** The loop of getStructNameFromPath: each non-empty segment title-cased, in order. */
  method TitleSegments(parts: seq<string>) returns (nameParts: seq<string>)
    ensures nameParts == TitledParts(parts)
  {
    nameParts := [];
    for i := 0 to |parts|
      invariant nameParts + TitledParts(parts[i..]) == TitledParts(parts)
    {
      TitledPartsFrom(parts, i);
      var rest := TitledParts(parts[i + 1..]);
      if parts[i] != "" {
        var t := Title(parts[i]);
        assert (nameParts + [t]) + rest == nameParts + ([t] + rest);
        nameParts := nameParts + [t];
      } else {
        assert [] + rest == rest;
      }
    }
    assert TitledParts(parts[|parts|..]) == [];
  }

  /**
    A character-level reading of the naming rule: drop every dot and
    capitalise every letter that starts a word, a word starting after a dot
    or a separator.
  */
  function Camel(s: string, atStart: bool): (r: string)
    decreases |s|
  {
    if s == [] then []
    else if s[0] == '.' then Camel(s[1..], true)
    else [if atStart then UpperChar(s[0]) else s[0]] + Camel(s[1..], IsSeparator(s[0]))
  }

  lemma {:induction false} CamelWithoutDots(s: string, atStart: bool)
    requires '.' !in s
    ensures Camel(s, atStart) == TitleFrom(s, atStart)
    decreases |s|
  {
    if s != [] {
      assert '.' !in s[1..];
      CamelWithoutDots(s[1..], IsSeparator(s[0]));
    }
  }

  lemma {:induction false} CamelAcrossDot(x: string, y: string, atStart: bool)
    requires '.' !in x
    ensures Camel(x + "." + y, atStart) == Camel(x, atStart) + Camel(y, true)
    decreases |x|
  {
    if x == [] {
      assert x + "." + y == "." + y;
      assert ("." + y)[1..] == y;
    } else {
      assert (x + "." + y)[1..] == x[1..] + "." + y;
      assert '.' !in x[1..];
      CamelAcrossDot(x[1..], y, IsSeparator(x[0]));
    }
  }

  lemma TitledPartsCons(x: string, parts: seq<string>)
    ensures TitledParts([x] + parts) == (if x != "" then [Title(x)] else []) + TitledParts(parts)
  {
    assert ([x] + parts)[1..] == parts;
  }

  lemma TitledPartsFrom(parts: seq<string>, i: nat)
    requires i < |parts|
    ensures TitledParts(parts[i..]) == (if parts[i] != "" then [Title(parts[i])] else []) + TitledParts(parts[i + 1..])
  {
    assert parts[i..][1..] == parts[i + 1..];
  }

  /** One dot-free segment in front: its title in front of the name, its camel form in front of the camel form. */
  lemma NamePartsCamelStep(x: string, y: string)
    requires '.' !in x
    requires Join(TitledParts(Split(y, '.')), "") == Camel(y, true)
    ensures Join(TitledParts([x] + Split(y, '.')), "") == Camel(x + "." + y, true)
  {
    TitledPartsCons(x, Split(y, '.'));
    var rest := TitledParts(Split(y, '.'));
    if x != "" {
      JoinCons(Title(x), rest);
    } else {
      assert [] + rest == rest;
    }
    CamelWithoutDots(x, true);
    CamelAcrossDot(x, y, true);
  }

  lemma {:induction false} NamePartsCamel(path: string)
    ensures Join(TitledParts(Split(path, '.')), "") == Camel(path, true)
    decreases |path|
  {
    if '.' !in path {
      assert Split(path, '.') == [path];
      TitledPartsCons(path, []);
      CamelWithoutDots(path, true);
      if path != "" {
        assert TitledParts([path]) == [Title(path)];
      }
    } else {
      var i := IndexOf(path, '.');
      var x, y := path[..i], path[i + 1..];
      assert path == x + "." + y;
      assert Split(path, '.') == [x] + Split(y, '.');
      NamePartsCamel(y);
      NamePartsCamelStep(x, y);
    }
  }

  /**
    The struct name of a non-empty path is the path with its dots removed and
    every word capitalised, followed by "Data"; the empty path names the root.
  */
  lemma StructNameCamel(path: string)
    ensures path == "" ==> StructNameOf(path) == RootName
    ensures path != "" ==> StructNameOf(path) == Camel(path, true) + NameSuffix
  {
    if path != "" {
      NamePartsCamel(path);
    }
  }

  lemma {:induction false} CamelHasNoDot(s: string, atStart: bool)
    ensures '.' !in Camel(s, atStart)
    decreases |s|
  {
    if s != [] {
      CamelHasNoDot(s[1..], if s[0] == '.' then true else IsSeparator(s[0]));
    }
  }

  /** Every struct name ends in "Data" and holds no dot. */
  lemma StructNameShape(path: string)
    ensures HasSuffix(StructNameOf(path), NameSuffix)
    ensures '.' !in StructNameOf(path)
  {
    StructNameCamel(path);
    if path != "" {
      CamelHasNoDot(path, true);
      var c := Camel(path, true);
      assert (c + NameSuffix)[|c|..] == NameSuffix;
    }
  }

  /** Camel drops every dot, so a string of dots only leaves nothing. */
  lemma {:induction false} CamelOfDots(s: string, atStart: bool)
    requires forall i :: 0 <= i < |s| ==> s[i] == '.'
    ensures Camel(s, atStart) == []
    decreases |s|
  {
    if s != [] {
      assert forall i :: 0 <= i < |s[1..]| ==> s[1..][i] == s[i + 1];
      CamelOfDots(s[1..], true);
    }
  }

  /** A path made of dots only (not empty) names "Data", not the root. */
  lemma DotsOnlyName(path: string)
    requires path != "" && forall i :: 0 <= i < |path| ==> path[i] == '.'
    ensures StructNameOf(path) == NameSuffix
  {
    StructNameCamel(path);
    CamelOfDots(path, true);
  }

  /** The keyword groups of inferFieldType in test order, each with its type. */
  const TypeTable: seq<(seq<string>, string)> := [
    (["id"], "int64"),
    (["count", "num"], "int"),
    (["price", "amount", "cost"], "float64"),
    (["is", "has", "enabled"], "bool"),
    (["date", "time", "created", "updated"], "time.Time")
  ]

  /** Some word of words occurs in s. */
  predicate ContainsAny(s: string, words: seq<string>)
    decreases |words|
  {
    words != [] && (Contains(s, words[0]) || ContainsAny(s, words[1..]))
  }

  /** The type of the first keyword group with a word in s; "string" when none has. */
  function FirstMatch(s: string, table: seq<(seq<string>, string)>): string
    decreases |table|
  {
    if table == [] then "string"
    else if ContainsAny(s, table[0].0) then table[0].1
    else FirstMatch(s, table[1..])
  }

  /** inferFieldType: a Go type guessed from keywords in the lower-cased field name. */
  function InferFieldType(fieldName: string): (t: string)
    ensures t in {"int64", "int", "float64", "bool", "time.Time", "string"}
  {
    var lower := Lower(fieldName);
    if Contains(lower, "id") || HasSuffix(lower, "id") then "int64"
    else if Contains(lower, "count") || Contains(lower, "number") || Contains(lower, "num") then "int"
    else if Contains(lower, "price") || Contains(lower, "amount") || Contains(lower, "cost") then "float64"
    else if Contains(lower, "is") || Contains(lower, "has") || Contains(lower, "enabled") then "bool"
    else if Contains(lower, "date") || Contains(lower, "time") || Contains(lower, "created") || Contains(lower, "updated") then "time.Time"
    else if Contains(lower, "email") then "string"
    else if Contains(lower, "url") || Contains(lower, "link") then "string"
    else "string"
  }

  lemma ContainsAnyPair(s: string, a: string, b: string)
    ensures ContainsAny(s, [a, b]) <==> Contains(s, a) || Contains(s, b)
  {
    assert [a, b][1..] == [b] && [b][1..] == [];
    assert ContainsAny(s, [b]) <==> Contains(s, b);
  }

  lemma ContainsAnyTriple(s: string, a: string, b: string, c: string)
    ensures ContainsAny(s, [a, b, c]) <==> Contains(s, a) || Contains(s, b) || Contains(s, c)
  {
    assert [a, b, c][1..] == [b, c];
    ContainsAnyPair(s, b, c);
  }

  lemma ContainsAnyQuad(s: string, a: string, b: string, c: string, d: string)
    ensures ContainsAny(s, [a, b, c, d]) <==> Contains(s, a) || Contains(s, b) || Contains(s, c) || Contains(s, d)
  {
    assert [a, b, c, d][1..] == [b, c, d];
    ContainsAnyTriple(s, b, c, d);
  }

  /** The tests of inferFieldType that can decide its result, in order, on a lower-cased name. */
  function KeywordType(lower: string): string {
    if Contains(lower, "id") then "int64"
    else if Contains(lower, "count") || Contains(lower, "num") then "int"
    else if Contains(lower, "price") || Contains(lower, "amount") || Contains(lower, "cost") then "float64"
    else if Contains(lower, "is") || Contains(lower, "has") || Contains(lower, "enabled") then "bool"
    else if Contains(lower, "date") || Contains(lower, "time") || Contains(lower, "created") || Contains(lower, "updated") then "time.Time"
    else "string"
  }

  /** The suffix test for "id" and the "number" keyword add nothing; the email, url and link cases give the default. */
  lemma InferFieldTypeKeywords(fieldName: string)
    ensures InferFieldType(fieldName) == KeywordType(Lower(fieldName))
  {
    var lower := Lower(fieldName);
    if HasSuffix(lower, "id") {
      SuffixContained(lower, "id");
    }
    if Contains(lower, "number") {
      PrefixContained(lower, "number", 3);
      assert "number"[..3] == "num";
    }
  }

  /** The keyword tests are the rows of the table, tried in order. */
  lemma KeywordTypeTable(lower: string)
    ensures KeywordType(lower) == FirstMatch(lower, TypeTable)
  {
    assert ["id"][1..] == [];
    ContainsAnyPair(lower, "count", "num");
    ContainsAnyTriple(lower, "price", "amount", "cost");
    ContainsAnyTriple(lower, "is", "has", "enabled");
    ContainsAnyQuad(lower, "date", "time", "created", "updated");
    assert TypeTable[1..][1..][1..][1..][1..] == [];
  }

  /** inferFieldType is the first matching row of the keyword table on the lower-cased name. */
  lemma InferFieldTypeTable(fieldName: string)
    ensures InferFieldType(fieldName) == FirstMatch(Lower(fieldName), TypeTable)
  {
    InferFieldTypeKeywords(fieldName);
    KeywordTypeTable(Lower(fieldName));
  }

  /** The guess reads the name only through its lower-cased form. */
  lemma InferFieldTypeByLower(a: string, b: string)
    requires Lower(a) == Lower(b)
    ensures InferFieldType(a) == InferFieldType(b)
  {
  }

  /** The guess ignores case, and so reads a title-cased name as the name itself. */
  lemma InferFieldTypeIgnoresCase(fieldName: string)
    ensures InferFieldType(Lower(fieldName)) == InferFieldType(fieldName)
    ensures InferFieldType(Title(fieldName)) == InferFieldType(fieldName)
  {
    LowerIdempotent(fieldName);
    InferFieldTypeByLower(Lower(fieldName), fieldName);
    LowerTitle(fieldName);
    InferFieldTypeByLower(Title(fieldName), fieldName);
  }

  /** isSliceField: a plural-looking or list-like name; the struct name is not consulted. */
  predicate IsSliceField(fieldName: string, structName: string) {
    var lower := Lower(fieldName);
    HasSuffix(lower, "s") || Contains(lower, "list") || Contains(lower, "items") || Contains(lower, "entries")
  }

  /** The slice decision depends on the field name alone, and not on its case. */
  lemma IsSliceFieldOnlyName(fieldName: string, s1: string, s2: string)
    ensures IsSliceField(fieldName, s1) == IsSliceField(fieldName, s2)
    ensures IsSliceField(Title(fieldName), s1) == IsSliceField(fieldName, s2)
    ensures IsSliceField(fieldName, s1) <==> IsSliceField(Lower(fieldName), s1)
  {
    LowerTitle(fieldName);
    LowerIdempotent(fieldName);
  }

  /** The type written for a field: "[]" put in front for a slice field unless already there. */
  function FieldType(field: FieldInfo, structName: string): (t: string)
    ensures t == field.typ || t == "[]" + field.typ
    ensures HasPrefix(t, "[]") <==> HasPrefix(field.typ, "[]") || IsSliceField(field.name, structName)
    ensures HasPrefix(field.typ, "[]") || !IsSliceField(field.name, structName) ==> t == field.typ
    ensures !HasPrefix(field.typ, "[]") && IsSliceField(field.name, structName) ==> t == "[]" + field.typ
  {
    if IsSliceField(field.name, structName) && !HasPrefix(field.typ, "[]") then
      assert ("[]" + field.typ)[..2] == "[]";
      "[]" + field.typ
    else field.typ
  }

  /** The slice rule never doubles the brackets: applying it to its own result changes nothing. */
  lemma FieldTypeIdempotent(field: FieldInfo, structName: string)
    ensures FieldType(field.(typ := FieldType(field, structName)), structName) == FieldType(field, structName)
  {
  }
}
