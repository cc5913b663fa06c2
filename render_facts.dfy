/**
  Properties of the rendered text: the object layout read as a join of
  entries, the first failing entry deciding the error, encoders built only
  from struct and collection encoders never failing, the key form being the
  only thing `escapeHTML` changes, and the error texts naming their type.
*/
module RenderFacts {
  import opened Wrappers
  import opened Types
  import opened Encode
  import opened Strings

  /** Every one of the first n fields renders its value. */
  ghost predicate ValuesSucceed(fields: seq<SpecField>, n: nat, opts: EncOpts)
    requires n <= |fields|
  {
    forall i :: 0 <= i < n ==> FieldValue(fields[i], opts).Success?
  }

  /** The entry lines of the first n fields: prefix, key, value. */
  function EntryLines(fields: seq<SpecField>, n: nat, opts: EncOpts): (lines: seq<string>)
    requires n <= |fields| && ValuesSucceed(fields, n, opts)
    ensures |lines| == n
    decreases n
  {
    if n == 0 then []
    else EntryLines(fields, n - 1, opts) + [opts.prefix + Key(fields[n - 1], opts) + FieldValue(fields[n - 1], opts).value]
  }

  /**
    The body of an object succeeds iff every field's value does, and it is
    then the entry lines in list order joined by ",\n".
  */
  lemma {:induction false} EntriesAsJoin(fields: seq<SpecField>, n: nat, opts: EncOpts)
    requires n <= |fields|
    ensures RenderEntries(fields, n, opts).Success? <==> ValuesSucceed(fields, n, opts)
    ensures ValuesSucceed(fields, n, opts) ==>
      RenderEntries(fields, n, opts).value == Join(EntryLines(fields, n, opts), ",\n")
    decreases n
  {
    if n > 0 {
      EntriesAsJoin(fields, n - 1, opts);
      if ValuesSucceed(fields, n, opts) {
        assert ValuesSucceed(fields, n - 1, opts);
        var lines := EntryLines(fields, n - 1, opts);
        var last := opts.prefix + Key(fields[n - 1], opts) + FieldValue(fields[n - 1], opts).value;
        if n == 1 {
          assert EntryLines(fields, n, opts) == [last];
        } else {
          JoinSnoc(lines, last, ",\n");
        }
      } else if RenderEntries(fields, n - 1, opts).Success? {
        assert !FieldValue(fields[n - 1], opts).Success?;
      }
    }
  }

  /** When field k fails and all before it succeed, the body fails with k's error. */
  lemma {:induction false} FirstErrorWins(fields: seq<SpecField>, n: nat, k: nat, opts: EncOpts)
    requires k < n <= |fields|
    requires ValuesSucceed(fields, k, opts) && FieldValue(fields[k], opts).Failure?
    ensures RenderEntries(fields, n, opts) == Failure(FieldValue(fields[k], opts).error)
    decreases n
  {
    if n == k + 1 {
      EntriesAsJoin(fields, k, opts);
    } else {
      FirstErrorWins(fields, n - 1, k, opts);
    }
  }

  /**
    The object layout: `{}` for no fields; otherwise the prefix, `{`, a
    newline, the entry lines joined by ",\n", a newline, the prefix and `}`.
  */
  lemma StructLayout(fields: seq<SpecField>, opts: EncOpts)
    requires ValuesSucceed(fields, |fields|, opts)
    ensures Render(StructEncoder(fields), opts) ==
      Success(if fields == [] then "{}"
              else opts.prefix + "{\n" + Join(EntryLines(fields, |fields|, opts), ",\n") + "\n" + opts.prefix + "}")
  {
    EntriesAsJoin(fields, |fields|, opts);
  }

  /** An object with one field whose value is its hint. */
  lemma OneFieldLayout(f: SpecField, opts: EncOpts)
    requires f.encoder.None?
    ensures Render(StructEncoder([f]), opts) ==
      Success(opts.prefix + "{\n" + (opts.prefix + Key(f, opts) + f.spec) + "\n" + opts.prefix + "}")
  {
    StructLayout([f], opts);
    assert EntryLines([f], 1, opts) == [opts.prefix + Key(f, opts) + f.spec];
  }

  /** Built from struct and collection encoders and hints only, with every placeholder filled in. */
  predicate WellBuilt(enc: Encoder)
    decreases enc, 1
  {
    match enc
    case StructEncoder(fields) => forall i :: 0 <= i < |fields| ==> FieldWellBuilt(fields[i])
    case ArrayEncoder(nested) => WellBuilt(nested)
    case UnsupportedEncoder(_) => false
    case IndirectEncoder(_, target) => target.Some? && WellBuilt(target.value)
  }

  predicate FieldWellBuilt(f: SpecField)
    decreases f, 0
  {
    f.encoder.None? || WellBuilt(f.encoder.value)
  }

  /** A well-built encoder never raises an error, whatever the options. */
  lemma {:induction false} WellBuiltRenders(enc: Encoder, opts: EncOpts)
    requires WellBuilt(enc)
    ensures Render(enc, opts).Success?
    decreases enc, 1
  {
    match enc
    case StructEncoder(fields) =>
      forall i | 0 <= i < |fields|
        ensures FieldValue(fields[i], opts).Success?
      {
        FieldWellBuiltRenders(fields[i], opts);
      }
      EntriesAsJoin(fields, |fields|, opts);
    case ArrayEncoder(nested) =>
      WellBuiltRenders(nested, Nested(opts));
    case IndirectEncoder(_, target) =>
      WellBuiltRenders(target.value, opts);
  }

  lemma {:induction false} FieldWellBuiltRenders(f: SpecField, opts: EncOpts)
    requires FieldWellBuilt(f)
    ensures FieldValue(f, opts).Success?
    decreases f, 0
  {
    if f.encoder.Some? {
      WellBuiltRenders(f.encoder.value, Nested(opts));
    }
  }

  /** Every key, at every depth, has the same escaped and plain form. */
  predicate PlainKeys(enc: Encoder)
    decreases enc, 1
  {
    match enc
    case StructEncoder(fields) => forall i :: 0 <= i < |fields| ==> FieldPlainKeys(fields[i])
    case ArrayEncoder(nested) => PlainKeys(nested)
    case UnsupportedEncoder(_) => true
    case IndirectEncoder(_, target) => target.Some? ==> PlainKeys(target.value)
  }

  predicate FieldPlainKeys(f: SpecField)
    decreases f, 0
  {
    f.nameEscHTML == f.nameNonEsc && (f.encoder.Some? ==> PlainKeys(f.encoder.value))
  }

  /**
    Two option sets with the same prefix and indent render alike when they
    also agree on escapeHTML or when no key depends on it: `quoted` is never
    read, and hints are never escaped.
  */
  predicate SameLayout(o1: EncOpts, o2: EncOpts) {
    o1.prefix == o2.prefix && o1.indent == o2.indent
  }

  lemma {:induction false} OptionsIrrelevant(enc: Encoder, o1: EncOpts, o2: EncOpts)
    requires SameLayout(o1, o2) && (o1.escapeHTML == o2.escapeHTML || PlainKeys(enc))
    ensures Render(enc, o1) == Render(enc, o2)
    decreases enc, 1, 0
  {
    match enc
    case StructEncoder(fields) =>
      EntriesIrrelevant(fields, |fields|, o1, o2);
    case ArrayEncoder(nested) =>
      OptionsIrrelevant(nested, Nested(o1), Nested(o2));
    case UnsupportedEncoder(_) =>
    case IndirectEncoder(_, target) =>
      if target.Some? {
        OptionsIrrelevant(target.value, o1, o2);
      }
  }

  lemma {:induction false} EntriesIrrelevant(fields: seq<SpecField>, n: nat, o1: EncOpts, o2: EncOpts)
    requires n <= |fields|
    requires SameLayout(o1, o2) && (o1.escapeHTML == o2.escapeHTML || PlainKeys(StructEncoder(fields)))
    ensures RenderEntries(fields, n, o1) == RenderEntries(fields, n, o2)
    decreases StructEncoder(fields), 0, n
  {
    if n > 0 {
      EntriesIrrelevant(fields, n - 1, o1, o2);
      var f := fields[n - 1];
      assert Key(f, o1) == Key(f, o2);
      if f.encoder.Some? {
        OptionsIrrelevant(f.encoder.value, Nested(o1), Nested(o2));
      }
    }
  }

  /**
    The error text starts with its kind's prefix and ends with the type's
    Name() (unsupported type) or String() (placeholder); the first byte tells
    the kinds apart.
  */
  lemma ErrorTextNamesType(reg: Registry, e: SpecError)
    ensures var text := ErrorText(reg, e);
      var prefix := if e.UnsupportedTypeSpecError? then UnsupportedPrefix else RecursiveNilPrefix;
      |prefix| <= |text| && text[..|prefix|] == prefix && text[|prefix|..] == (if e.UnsupportedTypeSpecError? then TypeName(reg, e.typ) else TypeString(reg, e.typ))
    ensures ErrorText(reg, e)[0] == (if e.UnsupportedTypeSpecError? then 'j' else 'r')
  {
  }
}
