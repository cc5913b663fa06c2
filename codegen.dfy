/**
  Go source text for the generated structs (cmd/main2.go):
  generateStructDefinitions, GenerateAllStructDefinitions and the checks of
  ProcessTemplate.  A strings.Builder becomes the string written so far, and
  the `generated` map becomes the set of names already written.
*/
module CodeGen {
  import opened Strings
  import opened StructModel
  import opened Wrappers

  // ---------------------------------------------------------------------
  // The text of one struct

  /** The opening line of a definition, without its newline. */
  function Opening(name: string): string {
    "type " + name + " struct {"
  }

  /** The line of one field, without its newline: a tab, the name, a space, the type. */
  function FieldLine(f: FieldInfo, structName: string): string {
    "\t" + f.name + " " + FieldType(f, structName)
  }

  /** The field lines of a struct in order. */
  function FieldLines(fs: seq<FieldInfo>, structName: string): (lines: seq<string>)
    ensures |lines| == |fs|
    ensures forall i :: 0 <= i < |fs| ==> lines[i] == FieldLine(fs[i], structName)
  {
    if fs == [] then [] else [FieldLine(fs[0], structName)] + FieldLines(fs[1..], structName)
  }

  /** Lines, each ended by a newline. */
  function Block(lines: seq<string>): string {
    if lines == [] then "" else lines[0] + "\n" + Block(lines[1..])
  }

  /** The definition written for one struct. */
  function StructText(d: StructDef): string {
    Opening(d.name) + "\n" + Block(FieldLines(d.fields, d.name)) + "}\n\n"
  }

  /** The lines of a definition: the opening, one per field in field order, the closing brace, a blank line. */
  function StructLines(d: StructDef): seq<string> {
    [Opening(d.name)] + FieldLines(d.fields, d.name) + ["}", "", ""]
  }

  lemma BlockStep(lines: seq<string>, i: nat)
    requires i < |lines|
    ensures Block(lines[i..]) == lines[i] + "\n" + Block(lines[i + 1..])
  {
    assert lines[i..][1..] == lines[i + 1..];
  }

  /** Joining lines followed by further lines puts a newline after each of the first. */
  lemma {:induction false} JoinBlock(lines: seq<string>, tail: seq<string>)
    requires tail != []
    ensures Join(lines + tail, "\n") == Block(lines) + Join(tail, "\n")
    decreases |lines|
  {
    if lines == [] {
      assert lines + tail == tail;
    } else {
      assert (lines + tail)[1..] == lines[1..] + tail;
      JoinBlock(lines[1..], tail);
      Assoc(lines[0] + "\n", Block(lines[1..]), Join(tail, "\n"));
    }
  }

  /** A definition is its lines joined by newlines. */
  lemma StructTextJoin(d: StructDef)
    ensures StructText(d) == Join(StructLines(d), "\n")
  {
    var lines := FieldLines(d.fields, d.name);
    var closing := ["}", "", ""];
    assert StructLines(d) == [Opening(d.name)] + (lines + closing);
    assert (StructLines(d))[1..] == lines + closing;
    JoinBlock(lines, closing);
    assert closing[1..] == ["", ""] && closing[1..][1..] == [""];
    assert Join(closing, "\n") == "}\n\n";
    Assoc(Opening(d.name) + "\n", Block(lines), "}\n\n");
  }

  /** No newline in a name or a type. */
  predicate SingleLine(d: StructDef) {
    '\n' !in d.name && forall i :: 0 <= i < |d.fields| ==> '\n' !in d.fields[i].name && '\n' !in d.fields[i].typ
  }

  lemma FieldLineSingle(f: FieldInfo, structName: string)
    requires '\n' !in f.name && '\n' !in f.typ
    ensures '\n' !in FieldLine(f, structName)
  {
    assert '\n' !in FieldType(f, structName) by {
      if FieldType(f, structName) != f.typ {
        assert FieldType(f, structName) == "[]" + f.typ;
      }
    }
  }

  lemma LinesSingle(d: StructDef)
    requires SingleLine(d)
    ensures forall k :: 0 <= k < |StructLines(d)| ==> '\n' !in StructLines(d)[k]
  {
    var fields := FieldLines(d.fields, d.name);
    forall k | 0 <= k < |fields|
      ensures '\n' !in fields[k]
    {
      FieldLineSingle(d.fields[k], d.name);
    }
    assert '\n' !in Opening(d.name);
    var lines := StructLines(d);
    forall k | 0 <= k < |lines|
      ensures '\n' !in lines[k]
    {
      if 0 < k <= |fields| {
        assert lines[k] == fields[k - 1];
      }
    }
  }

  /** Unless a name or a type holds a newline, a definition's lines are read back by splitting it at newlines. */
  lemma StructTextLines(d: StructDef)
    requires SingleLine(d)
    ensures Split(StructText(d), '\n') == StructLines(d)
  {
    StructTextJoin(d);
    LinesSingle(d);
    JoinSplit(StructLines(d), '\n');
  }

  /** Writes the definition of d after text, a field line at a time. */
  method WriteStruct(d: StructDef, text: string) returns (out: string)
    ensures out == text + StructText(d)
  {
    ghost var lines := FieldLines(d.fields, d.name);
    ghost var whole := text + StructText(d);
    out := text + Opening(d.name) + "\n";
    WriteStart(d, text, lines, whole);
    for i := 0 to |d.fields|
      invariant out + (Block(lines[i..]) + "}\n\n") == whole
    {
      var field := d.fields[i];
      var fieldType := FieldType(field, d.name);
      var line := "\t" + field.name + " " + fieldType;
      FieldLineIs(field, d.name, fieldType, line);
      WriteStep(out, lines, i, line, "}\n\n", whole);
      out := out + line + "\n";
    }
    WriteEnd(out, lines, "}\n\n", whole);
    out := out + "}\n\n";
  }

  lemma WriteStart(d: StructDef, text: string, lines: seq<string>, whole: string)
    requires lines == FieldLines(d.fields, d.name) && whole == text + StructText(d)
    ensures text + Opening(d.name) + "\n" + (Block(lines[0..]) + "}\n\n") == whole
  {
    assert lines[0..] == lines;
    Assoc(text, Opening(d.name) + "\n", Block(lines) + "}\n\n");
  }

  lemma FieldLineIs(f: FieldInfo, structName: string, fieldType: string, line: string)
    requires fieldType == FieldType(f, structName) && line == "\t" + f.name + " " + fieldType
    ensures line == FieldLine(f, structName)
  {
  }

  lemma WriteStep(out: string, lines: seq<string>, i: int, line: string, tail: string, whole: string)
    requires 0 <= i < |lines| && line == lines[i] && out + (Block(lines[i..]) + tail) == whole
    ensures out + line + "\n" + (Block(lines[i + 1..]) + tail) == whole
  {
    BlockStep(lines, i);
    AppendLine(out, line, Block(lines[i + 1..]) + tail);
    Assoc(line + "\n", Block(lines[i + 1..]), tail);
  }

  lemma WriteEnd(out: string, lines: seq<string>, tail: string, whole: string)
    requires out + (Block(lines[|lines|..]) + tail) == whole
    ensures out + tail == whole
  {
    assert lines[|lines|..] == [];
  }

  lemma AppendLine(out: string, line: string, rest: string)
    ensures out + (line + "\n" + rest) == out + line + "\n" + rest
  {
  }

  lemma Assoc(a: string, b: string, c: string)
    ensures a + b + c == a + (b + c)
  {
  }

  // ---------------------------------------------------------------------
  // The definitions of a struct tree

  /** The definitions of es, one after another. */
  function Texts(es: seq<StructDef>): string {
    if es == [] then "" else StructText(es[0]) + Texts(es[1..])
  }

  lemma {:induction false} TextsAppend(a: seq<StructDef>, b: seq<StructDef>)
    ensures Texts(a + b) == Texts(a) + Texts(b)
    decreases |a|
  {
    if a == [] {
      assert a + b == b;
    } else {
      assert (a + b)[1..] == a[1..] + b;
      TextsAppend(a[1..], b);
      Assoc(StructText(a[0]), Texts(a[1..]), Texts(b));
    }
  }

  lemma TextsSnoc(es: seq<StructDef>, d: StructDef)
    ensures Texts(es + [d]) == Texts(es) + StructText(d)
  {
    TextsAppend(es, [d]);
    assert [d][1..] == [];
  }

  /** Every name in the tree of d, its own included. */
  ghost function Names(d: StructDef): set<string>
    decreases d
  {
    {d.name} + (set k, n | k in d.nested && n in Names(d.nested[k]) :: n)
  }

  /** e is d or lies somewhere below it. */
  ghost predicate Within(e: StructDef, d: StructDef)
    decreases d
  {
    e == d || exists k :: k in d.nested && Within(e, d.nested[k])
  }

  /** The names of the structs linked directly under d by the keys in ks. */
  ghost function NamesUnder(d: StructDef, ks: set<string>): set<string> {
    set k | k in ks && k in d.nested :: d.nested[k].name
  }

  /** The names of the structs in es. */
  ghost function NamesOf(es: seq<StructDef>): set<string> {
    set e | e in es :: e.name
  }

  /** No name is written twice. */
  ghost predicate DistinctNames(es: seq<StructDef>) {
    forall i, j :: 0 <= i < j < |es| ==> es[i].name != es[j].name
  }

  /**
    The structs es, written in this order after the names gen, are each
    within d, each of a name not yet written, and each written after the
    structs it links to; gen' is gen with their names.
  */
  ghost predicate Emits(es: seq<StructDef>, gen: set<string>, gen': set<string>, d: StructDef)
    decreases |es|
  {
    if es == [] then gen' == gen
    else
      es[0].name !in gen && Within(es[0], d) && NamesUnder(es[0], es[0].nested.Keys) <= gen &&
      Emits(es[1..], gen + {es[0].name}, gen', d)
  }

  /**
    What one call of generateStructDefinitions on d, with the names gen
    already written, writes (the structs es, in order) and leaves written
    (gen'): what Emits says, and also d and every struct directly under d
    written by the end, no name from outside d's tree, and d, when written,
    last.
  */
  ghost predicate Emission(d: StructDef, gen: set<string>, es: seq<StructDef>, gen': set<string>) {
    Emits(es, gen, gen', d) &&
    d.name in gen' && gen' <= gen + Names(d) && NamesUnder(d, d.nested.Keys) <= gen' &&
    (d in es ==> es[|es| - 1] == d)
  }

  lemma NamesOfSnoc(es: seq<StructDef>, e: StructDef)
    ensures NamesOf(es + [e]) == NamesOf(es) + {e.name}
  {
    assert forall x :: x in es + [e] <==> x in es || x == e;
  }

  /** After the first i structs, the rest are written as Emits says, with their names added to gen. */
  lemma {:induction false} EmitsSuffix(es: seq<StructDef>, gen: set<string>, gen': set<string>, d: StructDef, i: nat)
    requires Emits(es, gen, gen', d) && i <= |es|
    ensures Emits(es[i..], gen + NamesOf(es[..i]), gen', d)
  {
    if i == 0 {
      assert es[0..] == es && es[..0] == [];
      assert gen + NamesOf(es[..0]) == gen;
    } else {
      EmitsSuffix(es, gen, gen', d, i - 1);
      var g := gen + NamesOf(es[..i - 1]);
      EmitsTail(es[i - 1..], g, gen', d);
      assert es[i - 1..][0] == es[i - 1] && es[i - 1..][1..] == es[i..];
      assert es[..i] == es[..i - 1] + [es[i - 1]];
      NamesOfSnoc(es[..i - 1], es[i - 1]);
      assert g + {es[i - 1].name} == gen + NamesOf(es[..i]);
    }
  }

  lemma EmitsTail(es: seq<StructDef>, gen: set<string>, gen': set<string>, d: StructDef)
    requires Emits(es, gen, gen', d) && es != []
    ensures Emits(es[1..], gen + {es[0].name}, gen', d)
  {
  }

  /** The struct at position i: a new name, from d's tree, linking only to names written before it. */
  lemma EmitsAt(es: seq<StructDef>, gen: set<string>, gen': set<string>, d: StructDef, i: nat)
    requires Emits(es, gen, gen', d) && i < |es|
    ensures es[i].name !in gen + NamesOf(es[..i]) && Within(es[i], d)
    ensures NamesUnder(es[i], es[i].nested.Keys) <= gen + NamesOf(es[..i])
  {
    EmitsSuffix(es, gen, gen', d, i);
    assert es[i..][0] == es[i];
  }

  /** gen' is gen with the names of es. */
  lemma EmitsNames(es: seq<StructDef>, gen: set<string>, gen': set<string>, d: StructDef)
    requires Emits(es, gen, gen', d)
    ensures gen' == gen + NamesOf(es)
  {
    EmitsSuffix(es, gen, gen', d, |es|);
    assert es[|es|..] == [] && es[..|es|] == es;
  }

  /** Emits, spelled out: names distinct and new, structs from d's tree, dependencies first. */
  lemma EmitsFacts(es: seq<StructDef>, gen: set<string>, gen': set<string>, d: StructDef)
    requires Emits(es, gen, gen', d)
    ensures DistinctNames(es)
    ensures forall i :: 0 <= i < |es| ==> es[i].name !in gen && Within(es[i], d)
    ensures gen' == gen + NamesOf(es)
    ensures forall i :: 0 <= i < |es| ==> NamesUnder(es[i], es[i].nested.Keys) <= gen + NamesOf(es[..i])
  {
    EmitsNames(es, gen, gen', d);
    forall i | 0 <= i < |es|
      ensures es[i].name !in gen && Within(es[i], d)
      ensures NamesUnder(es[i], es[i].nested.Keys) <= gen + NamesOf(es[..i])
    {
      EmitsAt(es, gen, gen', d, i);
    }
    forall i, j | 0 <= i < j < |es|
      ensures es[i].name != es[j].name
    {
      EmitsAt(es, gen, gen', d, j);
      assert es[i] in es[..j];
    }
  }

  lemma {:induction false} EmitsAppend(a: seq<StructDef>, b: seq<StructDef>, gen: set<string>, g: set<string>, g': set<string>, d: StructDef)
    requires Emits(a, gen, g, d) && Emits(b, g, g', d)
    ensures Emits(a + b, gen, g', d)
    decreases |a|
  {
    if a == [] {
      assert a + b == b;
    } else {
      assert (a + b)[0] == a[0] && (a + b)[1..] == a[1..] + b;
      EmitsAppend(a[1..], b, gen + {a[0].name}, g, g', d);
    }
  }

  lemma {:induction false} EmitsGrows(es: seq<StructDef>, gen: set<string>, gen': set<string>, d: StructDef)
    requires Emits(es, gen, gen', d)
    ensures gen <= gen'
    decreases |es|
  {
    if es != [] {
      EmitsGrows(es[1..], gen + {es[0].name}, gen', d);
    }
  }

  /** What lies within c lies within c or strictly below it. */
  lemma {:induction false} WithinBelow(e: StructDef, c: StructDef)
    requires Within(e, c)
    ensures e == c || e < c
    decreases c
  {
    if e != c {
      var k :| k in c.nested && Within(e, c.nested[k]);
      WithinBelow(e, c.nested[k]);
    }
  }

  /** What a call writes for a struct directly under d is within d, and is not d. */
  lemma {:induction false} EmitsWiden(es: seq<StructDef>, g: set<string>, g': set<string>, d: StructDef, k: string)
    requires k in d.nested && Emits(es, g, g', d.nested[k])
    ensures Emits(es, g, g', d) && d !in es
    decreases |es|
  {
    if es != [] {
      WithinBelow(es[0], d.nested[k]);
      assert Within(es[0], d);
      EmitsWiden(es[1..], g + {es[0].name}, g', d, k);
      assert es == [es[0]] + es[1..];
    }
  }

  /** The state of the loop over the structs directly under d once the keys in done are handled. */
  ghost predicate Partial(d: StructDef, gen: set<string>, es: seq<StructDef>, gen': set<string>, done: set<string>) {
    Emits(es, gen, gen', d) && d !in es && gen' <= gen + Names(d) && NamesUnder(d, done) <= gen'
  }

  lemma NamesBelow(d: StructDef, k: string)
    requires k in d.nested
    ensures Names(d.nested[k]) <= Names(d)
  {
  }

  lemma PartialChild(d: StructDef, gen: set<string>, es: seq<StructDef>, g: set<string>, done: set<string>,
                     k: string, e: seq<StructDef>, g': set<string>)
    requires Partial(d, gen, es, g, done) && k in d.nested
    requires Emission(d.nested[k], g, e, g')
    ensures Partial(d, gen, es + e, g', done + {k})
  {
    EmitsWiden(e, g, g', d, k);
    EmitsAppend(es, e, gen, g, g', d);
    EmitsGrows(e, g, g', d);
    NamesBelow(d, k);
    assert NamesUnder(d, done + {k}) == NamesUnder(d, done) + {d.nested[k].name};
  }

  /** One struct linked under d written, with what it links to. */
  lemma NestedStep(d: StructDef, gen: set<string>, es: seq<StructDef>, g: set<string>, done: set<string>,
                   k: string, e: seq<StructDef>, g': set<string>, text: string, before: string, after: string)
    requires Partial(d, gen, es, g, done) && k in d.nested
    requires Emission(d.nested[k], g, e, g')
    requires before == text + Texts(es) && after == before + Texts(e)
    ensures Partial(d, gen, es + e, g', done + {k})
    ensures after == text + Texts(es + e)
  {
    PartialChild(d, gen, es, g, done, k, e, g');
    TextsAppend(es, e);
    Assoc(text, Texts(es), Texts(e));
  }

  lemma PartialSkip(d: StructDef, gen: set<string>, es: seq<StructDef>, g: set<string>, done: set<string>, k: string)
    requires Partial(d, gen, es, g, done) && k in d.nested && d.nested[k].name in g
    ensures Partial(d, gen, es, g, done + {k})
  {
    assert NamesUnder(d, done + {k}) == NamesUnder(d, done) + {d.nested[k].name};
  }

  lemma PartialDone(d: StructDef, gen: set<string>, es: seq<StructDef>, g: set<string>)
    requires Partial(d, gen, es, g, d.nested.Keys)
    ensures d.name in g ==> Emission(d, gen, es, g)
    ensures d.name !in g ==> Emission(d, gen, es + [d], g + {d.name})
  {
    if d.name !in g {
      assert [d][1..] == [];
      assert Emits([d], g, g + {d.name}, d);
      EmitsAppend(es, [d], gen, g, g + {d.name}, d);
    }
  }

  /**
    generateStructDefinitions: first each struct linked under d whose name is
    not yet written (in map order), then d itself unless its name is written.
  */
  method GenerateStructDefinitions(d: StructDef, text: string, gen: set<string>)
    returns (text': string, gen': set<string>, ghost es: seq<StructDef>)
    ensures text' == text + Texts(es)
    ensures Emission(d, gen, es, gen')
    decreases d, 2
  {
    text', gen', es := GenerateNested(d, text, gen);
    PartialDone(d, gen, es, gen');
    if d.name !in gen' {
      ghost var before := es;
      text' := WriteStruct(d, text');
      gen' := gen' + {d.name};
      es := es + [d];
      TextsSnoc(before, d);
      Assoc(text, Texts(before), StructText(d));
    }
  }

  /** The loop of generateStructDefinitions over the structs linked under d. */
  method GenerateNested(d: StructDef, text: string, gen: set<string>)
    returns (text': string, gen': set<string>, ghost es: seq<StructDef>)
    ensures text' == text + Texts(es)
    ensures Partial(d, gen, es, gen', d.nested.Keys)
    decreases d, 1
  {
    text', gen', es := text, gen, [];
    var todo := d.nested.Keys;
    ghost var done: set<string> := {};
    while todo != {}
      invariant todo + done == d.nested.Keys && todo !! done
      invariant text' == text + Texts(es)
      invariant Partial(d, gen, es, gen', done)
      decreases todo
    {
      var k :| k in todo;
      text', gen', es := VisitNested(d, k, text, gen, text', gen', es, done);
      todo := todo - {k};
      done := done + {k};
    }
    assert done == d.nested.Keys;
  }

  /** One round of that loop: the struct under key k, with what it links to, unless its name is written. */
  method VisitNested(d: StructDef, k: string, text: string, gen: set<string>,
                     text0: string, gen0: set<string>, ghost es0: seq<StructDef>, ghost done: set<string>)
    returns (text': string, gen': set<string>, ghost es: seq<StructDef>)
    requires k in d.nested
    requires text0 == text + Texts(es0) && Partial(d, gen, es0, gen0, done)
    ensures text' == text + Texts(es)
    ensures Partial(d, gen, es, gen', done + {k})
    decreases d, 0
  {
    var nestedStruct := d.nested[k];
    if nestedStruct.name !in gen0 {
      ghost var e;
      text', gen', e := GenerateStructDefinitions(nestedStruct, text0, gen0);
      NestedStep(d, gen, es0, gen0, done, k, e, gen', text, text0, text');
      es := es0 + e;
    } else {
      PartialSkip(d, gen, es0, gen0, done, k);
      text', gen', es := text0, gen0, es0;
    }
  }

  /** The package clause written first, or nothing without a package name. */
  function PackageHeader(packageName: string): string {
    if packageName != "" then "package " + packageName + "\n\n" else ""
  }

  /** GenerateAllStructDefinitions: the package clause, then the definitions of the whole tree. */
  method GenerateAllStructDefinitions(root: StructDef, packageName: string)
    returns (out: string, ghost es: seq<StructDef>)
    ensures out == PackageHeader(packageName) + Texts(es)
    ensures Emission(root, {}, es, NamesOf(es))
  {
    var header := "";
    if packageName != "" {
      header := "package " + packageName + "\n\n";
    }
    var gen;
    out, gen, es := GenerateStructDefinitions(root, header, {});
    EmitsFacts(es, {}, gen, root);
    assert gen == NamesOf(es);
  }

  /** The written text starts with a package clause exactly when a package name is given. */
  lemma PackageClauseIff(packageName: string, es: seq<StructDef>)
    ensures HasPrefix(PackageHeader(packageName) + Texts(es), "package ") <==> packageName != ""
  {
    var out := PackageHeader(packageName) + Texts(es);
    if packageName != "" {
      assert out[..8] == "package ";
    } else if es != [] {
      assert out[0] == StructText(es[0])[0] == 't';
      assert !HasPrefix(out, "package ") by {
        if |out| >= 8 {
          assert out[..8][0] == 't';
        }
      }
    }
  }

  /** A tree whose structs directly under the root link to nothing more, as buildStructHierarchy builds. */
  ghost predicate Flat(d: StructDef) {
    forall k :: k in d.nested ==> d.nested[k].nested == map[]
  }

  lemma LeafNames(c: StructDef)
    requires c.nested == map[]
    ensures Names(c) == {c.name}
  {
  }

  /** In a flat tree, what lies within the root is the root or a struct directly under it. */
  lemma FlatWithin(e: StructDef, d: StructDef)
    requires Flat(d) && Within(e, d)
    ensures e == d || exists k :: k in d.nested && e == d.nested[k]
  {
    if e != d {
      var k :| k in d.nested && Within(e, d.nested[k]);
      assert d.nested[k].nested == map[];
    }
  }

  /** On a flat tree, every name is written exactly once. */
  lemma FlatWritesAll(d: StructDef, es: seq<StructDef>)
    requires Flat(d) && Emission(d, {}, es, NamesOf(es))
    ensures NamesOf(es) == Names(d) && DistinctNames(es)
  {
    EmitsFacts(es, {}, NamesOf(es), d);
    forall n | n in Names(d)
      ensures n in NamesOf(es)
    {
      if n != d.name {
        var k :| k in d.nested && n in Names(d.nested[k]);
        LeafNames(d.nested[k]);
        assert n in NamesUnder(d, d.nested.Keys);
      }
    }
  }

  /** When the root's own definition is written, it is written last, and no struct under it bears its name. */
  lemma RootWrittenLast(d: StructDef, es: seq<StructDef>)
    requires Emission(d, {}, es, NamesOf(es)) && d in es
    ensures es[|es| - 1] == d
    ensures forall k :: k in d.nested ==> d.nested[k].name != d.name
  {
    var i := |es| - 1;
    EmitsAt(es, {}, NamesOf(es), d, i);
    forall k | k in d.nested
      ensures d.nested[k].name != d.name
    {
      assert d.nested[k].name in NamesUnder(es[i], es[i].nested.Keys);
    }
  }

  /**
    On a flat tree the root's own definition is written, and written last,
    exactly when no struct under it bears the root's name.
  */
  lemma RootWrittenIff(d: StructDef, es: seq<StructDef>)
    requires Flat(d) && Emission(d, {}, es, NamesOf(es))
    ensures d in es <==> forall k :: k in d.nested ==> d.nested[k].name != d.name
    ensures d in es ==> es[|es| - 1] == d
  {
    if d in es {
      RootWrittenLast(d, es);
    } else if forall k :: k in d.nested ==> d.nested[k].name != d.name {
      var e :| e in es && e.name == d.name;
      var i :| 0 <= i < |es| && es[i] == e;
      EmitsAt(es, {}, NamesOf(es), d, i);
      FlatWithin(es[i], d);
    }
  }

  // ---------------------------------------------------------------------
  // ProcessTemplate

  /** TemplateProcessor: the package name given to every generated file. */
  datatype TemplateProcessor = TemplateProcessor(defaultPackage: string) {

    /**
      ProcessTemplate, after extraction: a failed extraction is reported with
      its cause; a tree without fields and without nested structs is refused;
      otherwise the root is renamed to structName and the whole tree written.
    */
    method ProcessTemplate(extracted: Result<StructDef, string>, structName: string)
      returns (r: Result<string, string>, ghost es: seq<StructDef>)
      ensures extracted.Failure? ==> r == Failure("failed to extract fields: " + extracted.error)
      ensures extracted.Success? && |extracted.value.fields| == 0 && |extracted.value.nested| == 0 ==>
        r == Failure("no template fields found")
      ensures extracted.Success? && (|extracted.value.fields| > 0 || |extracted.value.nested| > 0) ==>
        r.Success? && r.value == PackageHeader(defaultPackage) + Texts(es) &&
        Emission(extracted.value.(name := structName), {}, es, NamesOf(es))
    {
      es := [];
      if extracted.Failure? {
        return Failure("failed to extract fields: " + extracted.error), es;
      }
      var rootStruct := extracted.value;
      if |rootStruct.fields| == 0 && |rootStruct.nested| == 0 {
        return Failure("no template fields found"), es;
      }
      rootStruct := rootStruct.(name := structName);
      var structDef;
      structDef, es := GenerateAllStructDefinitions(rootStruct, defaultPackage);
      r := Success(structDef);
    }
  }
}
