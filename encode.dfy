/**
  Encoders and the output they append (struct.go, array.go, unsupported.go and
  the encoder function type of spec.go).

  A Go encoder is a closure; here it is an `Encoder` value holding what the
  closure captures: the resolved field list of a struct, the nested encoder of
  a collection, the type of an unsupported-type error, or the real encoder a
  forward-declared placeholder hands over to.  `Render` says what text an
  encoder appends; the methods of `EncodeState` append it step by step.
*/
module Encode {
  import opened Wrappers
  import opened Types
  import Escape

  /** A resolved field (specField): its rendering type, key forms, hint and nested encoder. */
  datatype SpecField = SpecField(
    typ: TypeId,
    name: string,
    nameNonEsc: string,    // `"` + name + `":`
    nameEscHTML: string,   // `"` + HTML-escaped name + `":`
    spec: string,          // the literal hint text
    tag: bool,             // the name came from the json tag
    encoder: Option<Encoder>)

  datatype Encoder =
    | StructEncoder(fields: seq<SpecField>)
    | ArrayEncoder(nested: Encoder)
    | UnsupportedEncoder(typ: TypeId)
    | IndirectEncoder(typ: TypeId, target: Option<Encoder>)  // placeholder, after its wait returned

  /** Formatting options (encOpts); `quoted` is carried but never read. */
  datatype EncOpts = EncOpts(escapeHTML: bool, quoted: bool, prefix: string, indent: string)

  /** The errors raised with `error` and caught by the driver (jsonError). */
  datatype SpecError =
    | UnsupportedTypeSpecError(typ: TypeId)
    | RecursiveEncoderNilError(typ: TypeId)

  const UnsupportedPrefix: string := "json: unsupported type: "
  const RecursiveNilPrefix: string := "recursive encoder is nil for type "

  /**
    The text of an error: Error() of the unsupported-type error, built from
    the type's Name(), and the fmt.Errorf message of the placeholder, which
    formats the type with `%v`, that is with its String().
  */
  function ErrorText(reg: Registry, e: SpecError): string {
    match e
    case UnsupportedTypeSpecError(t) => UnsupportedPrefix + TypeName(reg, t)
    case RecursiveEncoderNilError(t) => RecursiveNilPrefix + TypeString(reg, t)
  }

  /** The options a nested encoder is called with: one indent deeper, all else unchanged. */
  function Nested(opts: EncOpts): (n: EncOpts)
    ensures n.prefix == opts.prefix + opts.indent
    ensures n.escapeHTML == opts.escapeHTML && n.indent == opts.indent && n.quoted == opts.quoted
  {
    opts.(prefix := opts.prefix + opts.indent)
  }

  /** The key form written for f. */
  function Key(f: SpecField, opts: EncOpts): string {
    if opts.escapeHTML then f.nameEscHTML else f.nameNonEsc
  }

  /** The text an encoder appends, or the error it raises. */
  function Render(enc: Encoder, opts: EncOpts): Result<string, SpecError>
    decreases enc, 1, 0
  {
    match enc
    case StructEncoder(fields) =>
      if |fields| == 0 then Success("{}")
      else
        var body :- RenderEntries(fields, |fields|, opts);
        Success(opts.prefix + "{\n" + body + "\n" + opts.prefix + "}")
    case ArrayEncoder(nested) =>
      var element :- Render(nested, Nested(opts));
      Success("[\n" + element + ",...]")
    case UnsupportedEncoder(t) =>
      Failure(UnsupportedTypeSpecError(t))
    case IndirectEncoder(t, target) =>
      if target.None? then Failure(RecursiveEncoderNilError(t)) else Render(target.value, opts)
  }

  /**
    The first n entries of an object, separated by ",\n"; each entry is the
    prefix, the key and either the hint or the nested encoder's output.  The
    first failing entry decides the error.
  */
  function RenderEntries(fields: seq<SpecField>, n: nat, opts: EncOpts): Result<string, SpecError>
    requires n <= |fields|
    decreases StructEncoder(fields), 0, n
  {
    if n == 0 then Success("")
    else
      var prior :- RenderEntries(fields, n - 1, opts);
      var f := fields[n - 1];
      var value :- FieldValue(f, opts);
      Success(prior + (if n == 1 then "" else ",\n") + (opts.prefix + Key(f, opts) + value))
  }

  /** What one entry writes after its key: the hint, or the nested encoder's output one indent deeper. */
  function FieldValue(f: SpecField, opts: EncOpts): Result<string, SpecError>
    decreases f, 0
  {
    if f.encoder.None? then Success(f.spec) else Render(f.encoder.value, Nested(opts))
  }

  /** newArraySpecEncoder: captures the nested encoder and nothing else. */
  function NewArraySpecEncoder(nested: Encoder): (enc: Encoder)
    ensures forall opts ::
      Render(enc, opts) ==
      (match Render(nested, Nested(opts))
       case Success(element) => Success("[\n" + element + ",...]")
       case Failure(e) => Failure(e))
  {
    ArrayEncoder(nested)
  }

  /** newUnsupportedTypeSpecEncoder: an encoder that always raises the unsupported-type error for t. */
  function NewUnsupportedTypeSpecEncoder(t: TypeId): (enc: Encoder)
    ensures forall opts :: Render(enc, opts) == Failure(UnsupportedTypeSpecError(t))
  {
    UnsupportedEncoder(t)
  }

  /** What precedes an entry: the opening brace line for the first, a comma line for the others. */
  function Lead(first: bool, opts: EncOpts): string {
    if first then opts.prefix + "{\n" else ",\n"
  }

  /** The text structSpecEncoder.encode writes for fields[i]: its lead, the prefix, the key and the value. */
  function EntryText(fields: seq<SpecField>, i: nat, opts: EncOpts): Result<string, SpecError>
    requires i < |fields|
  {
    var value :- FieldValue(fields[i], opts);
    Success(Lead(i == 0, opts) + opts.prefix + Key(fields[i], opts) + value)
  }

  /** What structSpecEncoder.encode has written after its first i iterations, or the error that stopped it. */
  function Partial(fields: seq<SpecField>, i: nat, opts: EncOpts): Result<string, SpecError>
    requires i <= |fields|
  {
    if i == 0 then Success("")
    else
      var p :- Partial(fields, i - 1, opts);
      var e :- EntryText(fields, i - 1, opts);
      Success(p + e)
  }

  /**
    after == before + the rendered text when rendering succeeds; otherwise err
    is the raised error and before is still a prefix of after, since an
    encoder only ever appends.
  */
  ghost predicate Written(before: string, after: string, err: Option<SpecError>, r: Result<string, SpecError>) {
    match r
    case Success(s) => err == None && after == before + s
    case Failure(e) => err == Some(e) && Extends(before, after)
  }

  /** after is before followed by more text. */
  ghost predicate Extends(before: string, after: string) {
    |before| <= |after| && after[..|before|] == before
  }

  /**
    The output buffer of one rendering call (specEncodeState).  A raised error
    is returned as `err` instead of unwinding the stack; what was written
    before the error is discarded by the driver.
  */
  class EncodeState {
    var buf: string

    constructor ()
      ensures buf == []
    {
      buf := [];
    }

    /** A call `f(e, opts)` of an encoder function. */
    method Encode(enc: Encoder, opts: EncOpts) returns (err: Option<SpecError>)
      modifies this
      decreases enc, 3
      ensures Written(old(buf), buf, err, Render(enc, opts))
    {
      match enc
      case StructEncoder(fields) =>
        err := EncodeStruct(fields, opts);
        StructFromPartial(fields, opts);
      case ArrayEncoder(nested) =>
        err := EncodeArray(nested, opts);
      case UnsupportedEncoder(t) =>
        err := EncodeUnsupported(t, opts);
      case IndirectEncoder(t, target) =>
        err := EncodeIndirect(t, target, opts);
    }

    /** structSpecEncoder.encode */
    method EncodeStruct(fields: seq<SpecField>, opts: EncOpts) returns (err: Option<SpecError>)
      modifies this
      decreases StructEncoder(fields), 2
      ensures Written(old(buf), buf, err, StructText(fields, opts))
    {
      var next := '{';
      var i := 0;
      while i < |fields|
        invariant 0 <= i <= |fields|
        invariant next == (if i == 0 then '{' else ',')
        invariant Partial(fields, i, opts).Success? && buf == old(buf) + Partial(fields, i, opts).value
      {
        ghost var before := Partial(fields, i, opts).value;
        PartialStep(fields, i, opts);
        err := EncodeEntry(fields, i, opts, next);
        next := ',';
        if err.Some? {
          PartialFailurePersists(fields, i + 1, |fields|, opts);
          return;
        }
        Associate(old(buf), before, EntryText(fields, i, opts).value, "");
        i := i + 1;
      }
      EncodeClosing(opts, next);
      Associate(old(buf), Partial(fields, i, opts).value, Closing(fields == [], opts), "");
      err := None;
    }

    /** The end of structSpecEncoder.encode: `{}` when no entry was written, else the closing line. */
    method EncodeClosing(opts: EncOpts, next: char)
      modifies this
      ensures buf == old(buf) + Closing(next == '{', opts)
    {
      if next == '{' {
        buf := buf + "{}";
      } else {
        buf := buf + "\n";
        buf := buf + opts.prefix;
        buf := buf + ['}'];
        Associate(old(buf), "\n", opts.prefix, "}");
      }
    }

    /** The loop body of structSpecEncoder.encode for fields[i]: the separator, the key and the value. */
    method EncodeEntry(fields: seq<SpecField>, i: nat, opts: EncOpts, next: char) returns (err: Option<SpecError>)
      requires i < |fields| && next == (if i == 0 then '{' else ',')
      modifies this
      decreases StructEncoder(fields), 1
      ensures Written(old(buf), buf, err, EntryText(fields, i, opts))
    {
      var f := fields[i];
      if next == '{' {
        buf := buf + opts.prefix;
      }
      buf := buf + [next];
      buf := buf + "\n";
      buf := buf + opts.prefix;
      if opts.escapeHTML {
        buf := buf + f.nameEscHTML;
      } else {
        buf := buf + f.nameNonEsc;
      }
      ghost var head := buf;
      assert head == old(buf) + (Lead(i == 0, opts) + opts.prefix + Key(f, opts));
      err := EncodeValue(fields, i, opts);
      if err.None? {
        ghost var value := FieldValue(f, opts).value;
        assert buf == old(buf) + (Lead(i == 0, opts) + opts.prefix + Key(f, opts) + value);
      }
    }

    /** The value part of the loop body of structSpecEncoder.encode, for fields[i]. */
    method EncodeValue(fields: seq<SpecField>, i: nat, opts: EncOpts) returns (err: Option<SpecError>)
      requires i < |fields|
      modifies this
      decreases StructEncoder(fields), 0
      ensures Written(old(buf), buf, err, FieldValue(fields[i], opts))
    {
      var f := fields[i];
      if f.encoder == None {
        buf := buf + f.spec;
        err := None;
      } else {
        var nopts := opts.(prefix := opts.prefix + opts.indent);
        err := Encode(f.encoder.value, nopts);
      }
    }

    /** arraySpecEncoder.encode */
    method EncodeArray(nested: Encoder, opts: EncOpts) returns (err: Option<SpecError>)
      modifies this
      decreases ArrayEncoder(nested), 0
      ensures Written(old(buf), buf, err, Render(ArrayEncoder(nested), opts))
    {
      buf := buf + "[\n";
      var nopts := opts.(prefix := opts.prefix + opts.indent);
      err := Encode(nested, nopts);
      if err.Some? {
        return;
      }
      buf := buf + ",...]";
    }

    /** UnsupportedTypeSpecError.encode: writes nothing and raises its own value. */
    method EncodeUnsupported(t: TypeId, opts: EncOpts) returns (err: Option<SpecError>)
      ensures err == Some(UnsupportedTypeSpecError(t))
    {
      err := Some(UnsupportedTypeSpecError(t));
    }

    /** The placeholder installed by typeSpecEncoder, called after its wait returned. */
    method EncodeIndirect(t: TypeId, target: Option<Encoder>, opts: EncOpts) returns (err: Option<SpecError>)
      modifies this
      decreases IndirectEncoder(t, target), 0
      ensures Written(old(buf), buf, err, Render(IndirectEncoder(t, target), opts))
      ensures target.None? ==> buf == old(buf)
    {
      if target.None? {
        err := Some(RecursiveEncoderNilError(t));
        return;
      }
      err := Encode(target.value, opts);
    }
  }

  /** The text written so far is the opening line followed by the entries rendered so far. */
  lemma {:induction false} PartialEntries(fields: seq<SpecField>, i: nat, opts: EncOpts)
    requires 0 < i <= |fields|
    ensures Partial(fields, i, opts).Success? <==> RenderEntries(fields, i, opts).Success?
    ensures Partial(fields, i, opts).Success? ==>
      Partial(fields, i, opts).value == opts.prefix + "{\n" + RenderEntries(fields, i, opts).value
    ensures Partial(fields, i, opts).Failure? ==> Partial(fields, i, opts).error == RenderEntries(fields, i, opts).error
  {
    var fv := FieldValue(fields[i - 1], opts);
    var key := opts.prefix + Key(fields[i - 1], opts);
    if fv.Success? {
      var lead := Lead(i == 1, opts);
      Associate(lead, opts.prefix, Key(fields[i - 1], opts), fv.value);
      assert EntryText(fields, i - 1, opts) == Success(lead + (key + fv.value));
    }
    if i == 1 {
      assert Partial(fields, 0, opts) == Success("") && RenderEntries(fields, 0, opts) == Success("");
      if fv.Success? {
        assert "" + (opts.prefix + "{\n" + (key + fv.value)) == opts.prefix + "{\n" + (key + fv.value);
        assert "" + "" + (key + fv.value) == key + fv.value;
      }
    } else {
      PartialEntries(fields, i - 1, opts);
      var r := RenderEntries(fields, i - 1, opts);
      if r.Failure? {
        assert RenderEntries(fields, i, opts) == Failure(r.error);
        assert Partial(fields, i, opts) == Failure(r.error);
      } else if fv.Failure? {
        assert RenderEntries(fields, i, opts) == Failure(fv.error);
        assert Partial(fields, i, opts) == Failure(fv.error);
      } else {
        var p := r.value;
        var entry := key + fv.value;
        assert RenderEntries(fields, i, opts) == Success(p + ",\n" + entry);
        assert Partial(fields, i, opts) == Success((opts.prefix + "{\n" + p) + (",\n" + entry));
        assert (opts.prefix + "{\n" + p) + (",\n" + entry) == opts.prefix + "{\n" + (p + ",\n" + entry);
      }
    }
  }

  lemma Associate(a: string, b: string, c: string, d: string)
    ensures a + b + c + d == a + (b + c + d)
    ensures a + b + c == a + (b + c)
  {
  }

  /** One more iteration: its entry text is appended, or its error stops the loop. */
  lemma PartialStep(fields: seq<SpecField>, i: nat, opts: EncOpts)
    requires i < |fields| && Partial(fields, i, opts).Success?
    ensures EntryText(fields, i, opts).Failure? ==> Partial(fields, i + 1, opts) == Failure(EntryText(fields, i, opts).error)
    ensures EntryText(fields, i, opts).Success? ==>
      Partial(fields, i + 1, opts) == Success(Partial(fields, i, opts).value + EntryText(fields, i, opts).value)
  {
  }

  /** A failed iteration fails every later one with the same error. */
  lemma {:induction false} PartialFailurePersists(fields: seq<SpecField>, n: nat, m: nat, opts: EncOpts)
    requires n <= m <= |fields| && Partial(fields, n, opts).Failure?
    ensures Partial(fields, m, opts) == Partial(fields, n, opts)
    decreases m - n
  {
    if n < m {
      PartialFailurePersists(fields, n, m - 1, opts);
    }
  }

  /** What follows the entries: `{}` for an object without any, the closing line otherwise. */
  function Closing(empty: bool, opts: EncOpts): string {
    if empty then "{}" else "\n" + opts.prefix + "}"
  }

  /** What structSpecEncoder.encode writes in all: the loop's text, then the closing text. */
  function StructText(fields: seq<SpecField>, opts: EncOpts): Result<string, SpecError> {
    var p :- Partial(fields, |fields|, opts);
    Success(p + Closing(fields == [], opts))
  }

  /** The loop program's text is the rendering of the struct encoder. */
  lemma StructFromPartial(fields: seq<SpecField>, opts: EncOpts)
    ensures Render(StructEncoder(fields), opts) == StructText(fields, opts)
  {
    if fields == [] {
      assert "" + "{}" == "{}";
    } else {
      PartialEntries(fields, |fields|, opts);
      var r := RenderEntries(fields, |fields|, opts);
      if r.Success? {
        Associate(opts.prefix + "{\n" + r.value, "\n", opts.prefix, "}");
      }
    }
  }
}
