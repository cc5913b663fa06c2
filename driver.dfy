/**
  Dispatch, the encoder cache and the driver (spec.go): the kind-based choice
  of encoder, the get-or-build encoder cache, SpecMarshal with its error
  conversion, and AppendSpec's fenced wrapper.
*/
module Driver {
  import opened Wrappers
  import opened Types
  import opened Encode
  import opened FieldResolution
  import opened RenderFacts
  import opened FieldCaches

  /** The kinds newTypeSpecEncoder builds an encoder for: a struct, or an array or slice of structs. */
  predicate Dispatchable(reg: Registry, t: TypeId) {
    IsStruct(reg, t) || ((KindOf(reg, t) == Slice || KindOf(reg, t) == Array) && IsStruct(reg, Elem(reg, t)))
  }

  /** newTypeSpecEncoder: the encoder built for t, None for the nil encoder. */
  ghost function Dispatch(reg: Registry, rules: TagRules, rank: map<TypeId, nat>, t: TypeId): (enc: Option<Encoder>)
    requires Acyclic(reg, rules, rank)
    ensures enc.Some? <==> Dispatchable(reg, t)
    decreases if IsStruct(reg, t) then 0 else 1
  {
    match KindOf(reg, t)
    case Struct => Some(StructEncoder(ResolvedFields(reg, rules, rank, t)))
    case Array | Slice =>
      if IsStruct(reg, Elem(reg, t)) then
        var nested := Dispatch(reg, rules, rank, Elem(reg, t));
        if nested.Some? then Some(NewArraySpecEncoder(nested.value)) else None
      else None
    case _ => None
  }

  /**
    The dispatch rule: an encoder exactly for the dispatchable kinds; a struct
    gets the struct encoder over its cached field list, an array or slice of
    structs an array encoder around its element's struct encoder.
  */
  lemma DispatchCases(reg: Registry, rules: TagRules, rank: map<TypeId, nat>, t: TypeId)
    requires Acyclic(reg, rules, rank)
    ensures Dispatch(reg, rules, rank, t).Some? <==> Dispatchable(reg, t)
    ensures IsStruct(reg, t) ==> Dispatch(reg, rules, rank, t) == Some(StructEncoder(ResolvedFields(reg, rules, rank, t)))
    ensures Dispatchable(reg, t) && !IsStruct(reg, t) ==>
      Dispatch(reg, rules, rank, t) == Some(ArrayEncoder(StructEncoder(ResolvedFields(reg, rules, rank, Elem(reg, t)))))
  {
    if !IsStruct(reg, t) && Dispatchable(reg, t) {
      assert Dispatch(reg, rules, rank, Elem(reg, t)) == Some(StructEncoder(ResolvedFields(reg, rules, rank, Elem(reg, t))));
    }
  }

  /** A dispatched encoder never raises an error: the unsupported-type and placeholder errors cannot arise. */
  lemma DispatchRenders(reg: Registry, rules: TagRules, rank: map<TypeId, nat>, t: TypeId, opts: EncOpts)
    requires Acyclic(reg, rules, rank) && Dispatchable(reg, t)
    ensures Dispatch(reg, rules, rank, t).Some?
    ensures Render(Dispatch(reg, rules, rank, t).value, opts).Success?
  {
    DispatchCases(reg, rules, rank, t);
    if IsStruct(reg, t) {
      ResolvedRenders(reg, rules, rank, t, opts);
    } else {
      ResolvedRenders(reg, rules, rank, Elem(reg, t), Nested(opts));
    }
  }

  /**
    What a caller that loaded the forward-declared placeholder for t gets once
    its wait returns: the real encoder's output when there is one, the
    "recursive encoder is nil" error when newTypeSpecEncoder built none.
  */
  lemma PlaceholderRenders(reg: Registry, rules: TagRules, rank: map<TypeId, nat>, t: TypeId, opts: EncOpts)
    requires Acyclic(reg, rules, rank)
    ensures var placeholder := IndirectEncoder(t, Dispatch(reg, rules, rank, t));
      Render(placeholder, opts) ==
      if Dispatchable(reg, t) then Render(Dispatch(reg, rules, rank, t).value, opts)
      else Failure(RecursiveEncoderNilError(t))
    ensures !Dispatchable(reg, t) ==>
      ErrorText(reg, Render(IndirectEncoder(t, Dispatch(reg, rules, rank, t)), opts).error) ==
      RecursiveNilPrefix + TypeString(reg, t)
  {
    DispatchCases(reg, rules, rank, t);
  }

  /**
    The encoder cache (specEncoderCache), over a field cache.  Every stored
    encoder is the one newTypeSpecEncoder builds for its type.
  */
  class EncoderCache {
    const fields: FieldCache
    var encoders: map<TypeId, Option<Encoder>>

    ghost predicate Valid()
      reads this, fields
    {
      fields.Valid() &&
      forall t :: t in encoders ==> encoders[t] == Dispatch(fields.reg, fields.rules, fields.rank, t)
    }

    constructor (fields: FieldCache)
      requires fields.Valid()
      ensures Valid() && this.fields == fields && encoders == map[]
    {
      this.fields := fields;
      encoders := map[];
    }

    /**
      typeSpecEncoder: a hit returns the stored encoder and changes nothing;
      a miss builds the encoder and stores it.
    */
    method TypeSpecEncoder(t: TypeId) returns (enc: Option<Encoder>)
      requires Valid()
      modifies this, fields
      ensures Valid()
      ensures enc == Dispatch(fields.reg, fields.rules, fields.rank, t)
      ensures t in encoders && encoders[t] == enc
      ensures t in old(encoders) ==> encoders == old(encoders) && fields.entries == old(fields.entries)
      ensures encoders.Keys == old(encoders).Keys + {t}
      ensures old(fields.entries).Keys <= fields.entries.Keys
    {
      if t in encoders {
        return encoders[t];
      }
      var f := NewTypeSpecEncoder(t);
      encoders := encoders[t := f];
      enc := f;
    }

    /** newTypeSpecEncoder, building nested struct encoders through the field cache. */
    method NewTypeSpecEncoder(t: TypeId) returns (enc: Option<Encoder>)
      requires fields.Valid()
      modifies fields
      decreases if IsStruct(fields.reg, t) then 0 else 1
      ensures fields.Valid() && old(fields.entries).Keys <= fields.entries.Keys
      ensures enc == Dispatch(fields.reg, fields.rules, fields.rank, t)
    {
      var reg := fields.reg;
      match KindOf(reg, t)
      case Struct =>
        var se := fields.NewStructSpecEncoder(t);
        enc := Some(se);
      case Array =>
        enc := NewCollectionEncoder(t);
      case Slice =>
        enc := NewCollectionEncoder(t);
      case _ =>
        enc := None;
    }

    /** The array and slice case of newTypeSpecEncoder. */
    method NewCollectionEncoder(t: TypeId) returns (enc: Option<Encoder>)
      requires fields.Valid() && (KindOf(fields.reg, t) == Slice || KindOf(fields.reg, t) == Array)
      modifies fields
      decreases 1, 0
      ensures fields.Valid() && old(fields.entries).Keys <= fields.entries.Keys
      ensures enc == Dispatch(fields.reg, fields.rules, fields.rank, t)
    {
      var elem := Elem(fields.reg, t);
      if KindOf(fields.reg, elem) == Struct {
        var nested := NewTypeSpecEncoder(elem);
        enc := Some(NewArraySpecEncoder(nested.value));
      } else {
        enc := None;
      }
    }
  }

  /** The options SpecMarshal renders with: HTML escaping on, the caller's prefix and indent. */
  function MarshalOpts(prefix: string, indent: string): (opts: EncOpts)
    ensures opts.escapeHTML && opts.prefix == prefix && opts.indent == indent
  {
    EncOpts(true, false, prefix, indent)
  }

  /** The result of SpecMarshal for a dispatchable t: the rendered text, or the raised error. */
  ghost function Marshal(reg: Registry, rules: TagRules, rank: map<TypeId, nat>, t: TypeId, prefix: string, indent: string): Result<string, SpecError>
    requires Acyclic(reg, rules, rank) && Dispatchable(reg, t)
  {
    DispatchCases(reg, rules, rank, t);
    Render(Dispatch(reg, rules, rank, t).value, MarshalOpts(prefix, indent))
  }

  /**
    SpecMarshal: renders t into a fresh buffer; an error raised while
    rendering becomes the returned error with no text, otherwise the text is
    exactly what the buffer holds.
  */
  method SpecMarshal(cache: EncoderCache, t: TypeId, prefix: string, indent: string) returns (r: Result<string, SpecError>)
    requires cache.Valid() && Dispatchable(cache.fields.reg, t)
    modifies cache, cache.fields
    ensures cache.Valid()
    ensures t in cache.encoders && old(cache.encoders).Keys <= cache.encoders.Keys
    ensures r == Marshal(cache.fields.reg, cache.fields.rules, cache.fields.rank, t, prefix, indent)
  {
    var e := new EncodeState();
    var enc := cache.TypeSpecEncoder(t);
    DispatchCases(cache.fields.reg, cache.fields.rules, cache.fields.rank, t);
    ghost var rendered := Render(enc.value, MarshalOpts(prefix, indent));
    var err := e.Encode(enc.value, MarshalOpts(prefix, indent));
    if err.Some? {
      return Failure(err.value);
    }
    assert e.buf == [] + rendered.value == rendered.value;
    r := Success(e.buf);
  }

  /** SpecMarshal of a dispatchable type always succeeds. */
  lemma MarshalSucceeds(reg: Registry, rules: TagRules, rank: map<TypeId, nat>, t: TypeId, prefix: string, indent: string)
    requires Acyclic(reg, rules, rank) && Dispatchable(reg, t)
    ensures Marshal(reg, rules, rank, t, prefix, indent).Success?
  {
    DispatchRenders(reg, rules, rank, t, MarshalOpts(prefix, indent));
  }

  /**
    For an array or slice of structs the text is "[\n", the element struct
    rendered one indent deeper, and ",...]".
  */
  lemma MarshalCollection(reg: Registry, rules: TagRules, rank: map<TypeId, nat>, t: TypeId, prefix: string, indent: string)
    requires Acyclic(reg, rules, rank) && Dispatchable(reg, t) && !IsStruct(reg, t)
    ensures var element := Render(StructEncoder(ResolvedFields(reg, rules, rank, Elem(reg, t))), MarshalOpts(prefix + indent, indent));
      element.Success? &&
      Marshal(reg, rules, rank, t, prefix, indent) == Success("[\n" + element.value + ",...]")
  {
    DispatchCases(reg, rules, rank, t);
    ResolvedRenders(reg, rules, rank, Elem(reg, t), MarshalOpts(prefix + indent, indent));
    assert Nested(MarshalOpts(prefix, indent)) == MarshalOpts(prefix + indent, indent);
  }

  /** The parameter AppendSpec returns (TPromptParam). */
  datatype PromptParam<P> = PromptParam(inParam: P, outSpec: string)

  /**
    The prefix of AppendSpec's error, 生成模型OutSpec参数失败 ("generating the
    model's OutSpec parameter failed") and a colon and space, as its 33 UTF-8
    bytes.
  */
  const AppendSpecErrorPrefix: string :=
    "\U{E7}\U{94}\U{9F}\U{E6}\U{88}\U{90}\U{E6}\U{A8}\U{A1}\U{E5}\U{9E}\U{8B}OutSpec" +
    "\U{E5}\U{8F}\U{82}\U{E6}\U{95}\U{B0}\U{E5}\U{A4}\U{B1}\U{E8}\U{B4}\U{A5}: "
  const FenceOpen: string := "```json\n"
  const FenceClose: string := "\n```"

  /** The spec text in a fenced json code block. */
  function Fence(spec: string): (text: string)
    ensures |text| == |FenceOpen| + |spec| + |FenceClose|
  {
    FenceOpen + spec + FenceClose
  }

  /** The text inside a fenced json code block, if text is one. */
  function Unfence(text: string): Option<string> {
    if |text| >= |FenceOpen| + |FenceClose| &&
       text[..|FenceOpen|] == FenceOpen && text[|text| - |FenceClose|..] == FenceClose
    then Some(text[|FenceOpen|..|text| - |FenceClose|])
    else None
  }

  /** Fencing is undone by Unfence, and Unfence finds only what fencing made. */
  lemma FenceRoundTrip(spec: string, text: string)
    ensures Unfence(Fence(spec)) == Some(spec)
    ensures Unfence(text) == Some(spec) ==> Fence(spec) == text
  {
    var f := Fence(spec);
    assert f[..|FenceOpen|] == FenceOpen;
    assert f[|f| - |FenceClose|..] == FenceClose;
    assert f[|FenceOpen|..|f| - |FenceClose|] == spec;
    if Unfence(text) == Some(spec) {
      assert text == text[..|FenceOpen|] + text[|FenceOpen|..|text| - |FenceClose|] + text[|text| - |FenceClose|..];
    }
  }

  /**
    The body of AppendSpec after SpecMarshal: the parameter with the fenced
    spec, or the prefixed text of the error.
  */
  function WrapSpec<P>(reg: Registry, marshalled: Result<string, SpecError>, param: P): (r: Result<PromptParam<P>, string>)
    ensures r.Success? <==> marshalled.Success?
    ensures r.Success? ==> r.value.inParam == param && Unfence(r.value.outSpec) == Some(marshalled.value)
    ensures r.Failure? ==>
      |AppendSpecErrorPrefix| <= |r.error| && r.error[..|AppendSpecErrorPrefix|] == AppendSpecErrorPrefix &&
      r.error[|AppendSpecErrorPrefix|..] == ErrorText(reg, marshalled.error)
  {
    match marshalled
    case Failure(e) => Failure(AppendSpecErrorPrefix + ErrorText(reg, e))
    case Success(spec) =>
      FenceRoundTrip(spec, "");
      Success(PromptParam(param, Fence(spec)))
  }

  /** AppendSpec for type t: marshal with no prefix and a two-space indent, then wrap. */
  method AppendSpec<P>(cache: EncoderCache, t: TypeId, param: P) returns (r: Result<PromptParam<P>, string>)
    requires cache.Valid() && Dispatchable(cache.fields.reg, t)
    modifies cache, cache.fields
    ensures cache.Valid()
    ensures t in cache.encoders && old(cache.encoders).Keys <= cache.encoders.Keys
    ensures r == WrapSpec(cache.fields.reg, Marshal(cache.fields.reg, cache.fields.rules, cache.fields.rank, t, "", "  "), param)
  {
    var spec := SpecMarshal(cache, t, "", "  ");
    r := WrapSpec(cache.fields.reg, spec, param);
  }

  /** AppendSpec of a dispatchable type always succeeds, with the fenced spec of t. */
  lemma AppendSpecSucceeds<P>(reg: Registry, rules: TagRules, rank: map<TypeId, nat>, t: TypeId, param: P)
    requires Acyclic(reg, rules, rank) && Dispatchable(reg, t)
    ensures var m := Marshal(reg, rules, rank, t, "", "  ");
      m.Success? && WrapSpec(reg, m, param) == Success(PromptParam(param, Fence(m.value)))
  {
    MarshalSucceeds(reg, rules, rank, t, "", "  ");
  }
}
