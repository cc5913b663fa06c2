/**
  The field cache and the post-pass of typeSpecFields (field_cache.go) with
  newStructSpecEncoder (struct.go).

  After the search, every struct field is given a struct encoder over its
  type's cached field list, and every slice-of-struct field an array encoder
  around one.  These nested encoders are built eagerly, and the cache stores
  a list only after computing it, so a struct that reaches itself through
  its field types would recurse without end.  The model therefore takes the
  nesting to be acyclic, witnessed by a ghost rank that every field's target
  struct lies below.
*/
module FieldCaches {
  import opened Wrappers
  import opened Types
  import opened Encode
  import opened FieldResolution
  import opened RenderFacts
  import opened ResolutionFacts

  /** The struct whose fields the post-pass encoder of a field of type typ renders, if any. */
  function EncoderTarget(reg: Registry, typ: TypeId): (u: Option<TypeId>)
    ensures u.Some? <==> IsStruct(reg, typ) || IsSliceOfStruct(reg, typ)
    ensures u.Some? ==> IsStruct(reg, u.value)
  {
    if IsStruct(reg, typ) then Some(typ)
    else if IsSliceOfStruct(reg, typ) then Some(Elem(reg, typ))
    else None
  }

  /** Every target struct of the collected fields of t ranks below t. */
  ghost predicate RanksBelow(reg: Registry, rank: map<TypeId, nat>, t: TypeId, fields: seq<SpecField>)
    requires t in rank
  {
    forall i :: 0 <= i < |fields| && EncoderTarget(reg, fields[i].typ).Some? ==>
      EncoderTarget(reg, fields[i].typ).value in rank &&
      rank[EncoderTarget(reg, fields[i].typ).value] < rank[t]
  }

  /** Struct nesting through field types is acyclic, as rank shows. */
  ghost predicate Acyclic(reg: Registry, rules: TagRules, rank: map<TypeId, nat>) {
    forall t :: IsStruct(reg, t) ==> t in rank && RanksBelow(reg, rank, t, CollectedFields(reg, rules, t))
  }

  lemma TargetRanked(reg: Registry, rules: TagRules, rank: map<TypeId, nat>, t: TypeId, i: nat)
    requires Acyclic(reg, rules, rank) && IsStruct(reg, t) && i < |CollectedFields(reg, rules, t)|
    ensures t in rank
    ensures var u := EncoderTarget(reg, CollectedFields(reg, rules, t)[i].typ);
      u.Some? ==> u.value in rank && rank[u.value] < rank[t]
  {
  }

  /** The field list cachedSpecTypeFields returns for struct t: the search's fields after the post-pass. */
  ghost function ResolvedFields(reg: Registry, rules: TagRules, rank: map<TypeId, nat>, t: TypeId): seq<SpecField>
    requires Acyclic(reg, rules, rank) && IsStruct(reg, t)
    decreases rank[t], 1
  {
    var c := CollectedFields(reg, rules, t);
    seq(|c|, i requires 0 <= i < |c| => Attach(reg, rules, rank, t, i))
  }

  /** Field i of t after the post-pass. */
  ghost function Attach(reg: Registry, rules: TagRules, rank: map<TypeId, nat>, t: TypeId, i: nat): SpecField
    requires Acyclic(reg, rules, rank) && IsStruct(reg, t) && i < |CollectedFields(reg, rules, t)|
    decreases rank[t], 0
  {
    var f := CollectedFields(reg, rules, t)[i];
    TargetRanked(reg, rules, rank, t, i);
    if IsStruct(reg, f.typ) then
      f.(encoder := Some(StructEncoder(ResolvedFields(reg, rules, rank, f.typ))))
    else if IsSliceOfStruct(reg, f.typ) then
      f.(encoder := Some(NewArraySpecEncoder(StructEncoder(ResolvedFields(reg, rules, rank, Elem(reg, f.typ))))))
    else f
  }

  /**
    The post-pass keeps the list's length and every field's type, names, key
    forms, hint and tag, and sets the encoder: a struct encoder over the
    field's type for a struct field; an array encoder around a struct encoder
    over the element type for a slice-of-struct field; none for every other
    field (arrays, nested slices, other kinds), which then renders its hint.
  */
  lemma PostPass(reg: Registry, rules: TagRules, rank: map<TypeId, nat>, t: TypeId, i: nat)
    requires Acyclic(reg, rules, rank) && IsStruct(reg, t)
    ensures |ResolvedFields(reg, rules, rank, t)| == |CollectedFields(reg, rules, t)|
    ensures i < |CollectedFields(reg, rules, t)| ==>
      var f := CollectedFields(reg, rules, t)[i];
      var g := ResolvedFields(reg, rules, rank, t)[i];
      g == f.(encoder := g.encoder) &&
      (IsStruct(reg, f.typ) ==> g.encoder == Some(StructEncoder(ResolvedFields(reg, rules, rank, f.typ)))) &&
      (IsSliceOfStruct(reg, f.typ) ==>
        g.encoder == Some(ArrayEncoder(StructEncoder(ResolvedFields(reg, rules, rank, Elem(reg, f.typ)))))) &&
      (EncoderTarget(reg, f.typ).None? ==> g.encoder.None? && FieldValue(g, EncOpts(false, false, "", "")).Success?)
  {
    if i < |CollectedFields(reg, rules, t)| {
      CollectedBare(reg, rules, t);
    }
  }

  /** Every encoder the post-pass builds is made of struct and array encoders only, at every depth. */
  lemma {:induction false} ResolvedWellBuilt(reg: Registry, rules: TagRules, rank: map<TypeId, nat>, t: TypeId)
    requires Acyclic(reg, rules, rank) && IsStruct(reg, t)
    ensures WellBuilt(StructEncoder(ResolvedFields(reg, rules, rank, t)))
    decreases rank[t]
  {
    var c := CollectedFields(reg, rules, t);
    var fs := ResolvedFields(reg, rules, rank, t);
    CollectedBare(reg, rules, t);
    forall i | 0 <= i < |fs|
      ensures FieldWellBuilt(fs[i])
    {
      TargetRanked(reg, rules, rank, t, i);
      var f := c[i];
      assert fs[i] == Attach(reg, rules, rank, t, i);
      if IsStruct(reg, f.typ) {
        ResolvedWellBuilt(reg, rules, rank, f.typ);
      } else if IsSliceOfStruct(reg, f.typ) {
        ResolvedWellBuilt(reg, rules, rank, Elem(reg, f.typ));
      } else {
        assert fs[i] == f;
      }
    }
  }

  /** Rendering a struct through its cached field list never raises an error. */
  lemma ResolvedRenders(reg: Registry, rules: TagRules, rank: map<TypeId, nat>, t: TypeId, opts: EncOpts)
    requires Acyclic(reg, rules, rank) && IsStruct(reg, t)
    ensures Render(StructEncoder(ResolvedFields(reg, rules, rank, t)), opts).Success?
  {
    ResolvedWellBuilt(reg, rules, rank, t);
    WellBuiltRenders(StructEncoder(ResolvedFields(reg, rules, rank, t)), opts);
  }

  /**
    The field cache (specFieldCache) over a fixed registry and tag rules.
    Every stored entry is the resolved field list of its struct type.
  */
  class FieldCache {
    const reg: Registry
    const rules: TagRules
    ghost const rank: map<TypeId, nat>
    var entries: map<TypeId, seq<SpecField>>

    ghost predicate Valid()
      reads this
    {
      Acyclic(reg, rules, rank) &&
      forall t :: t in entries ==> IsStruct(reg, t) && entries[t] == ResolvedFields(reg, rules, rank, t)
    }

    constructor (reg: Registry, rules: TagRules, ghost rank: map<TypeId, nat>)
      requires Acyclic(reg, rules, rank)
      ensures Valid()
      ensures this.reg == reg && this.rules == rules && this.rank == rank && entries == map[]
    {
      this.reg := reg;
      this.rules := rules;
      this.rank := rank;
      entries := map[];
    }

    /**
      cachedSpecTypeFields: a hit returns the stored list and changes nothing;
      a miss computes the list and stores it unless an entry appeared
      meanwhile, in which case the stored one is returned.
    */
    method CachedSpecTypeFields(t: TypeId) returns (fields: seq<SpecField>)
      requires Valid() && IsStruct(reg, t)
      modifies this
      decreases rank[t], 2
      ensures Valid() && old(entries).Keys <= entries.Keys
      ensures fields == ResolvedFields(reg, rules, rank, t)
      ensures t in entries && entries[t] == fields
      ensures t in old(entries) ==> entries == old(entries)
    {
      if t in entries {
        return entries[t];
      }
      var computed := TypeSpecFields(t);
      if t in entries {
        fields := entries[t];
      } else {
        entries := entries[t := computed];
        fields := computed;
      }
    }

    /** typeSpecFields: the search, then the post-pass over the found fields. */
    method TypeSpecFields(t: TypeId) returns (fields: seq<SpecField>)
      requires Valid() && IsStruct(reg, t)
      modifies this
      decreases rank[t], 1
      ensures Valid() && old(entries).Keys <= entries.Keys
      ensures fields == ResolvedFields(reg, rules, rank, t)
    {
      fields := CollectFields(reg, rules, t);
      ghost var c := fields;
      var i := 0;
      while i < |fields|
        invariant 0 <= i <= |fields| == |c|
        invariant Valid() && old(entries).Keys <= entries.Keys
        invariant forall j :: 0 <= j < i ==> fields[j] == Attach(reg, rules, rank, t, j)
        invariant forall j :: i <= j < |fields| ==> fields[j] == c[j]
      {
        TargetRanked(reg, rules, rank, t, i);
        var f := AttachEncoder(t, i, fields[i]);
        fields := fields[i := f];
        i := i + 1;
      }
    }

    /** The post-pass body for fields[i] of t. */
    method AttachEncoder(t: TypeId, ghost i: nat, f: SpecField) returns (g: SpecField)
      requires Valid() && IsStruct(reg, t) && i < |CollectedFields(reg, rules, t)|
      requires f == CollectedFields(reg, rules, t)[i]
      modifies this
      decreases rank[t], 0
      ensures Valid() && old(entries).Keys <= entries.Keys
      ensures g == Attach(reg, rules, rank, t, i)
    {
      TargetRanked(reg, rules, rank, t, i);
      g := f;
      if KindOf(reg, f.typ) == Struct {
        var enc := NewStructSpecEncoder(f.typ);
        g := g.(encoder := Some(enc));
      }
      if KindOf(reg, f.typ) == Slice && KindOf(reg, Elem(reg, f.typ)) == Struct {
        var nested := NewStructSpecEncoder(Elem(reg, f.typ));
        g := g.(encoder := Some(NewArraySpecEncoder(nested)));
      }
    }

    /** newStructSpecEncoder: a struct encoder capturing the cached field list of t. */
    method NewStructSpecEncoder(t: TypeId) returns (enc: Encoder)
      requires Valid() && IsStruct(reg, t)
      modifies this
      decreases rank[t], 3
      ensures Valid() && old(entries).Keys <= entries.Keys && t in entries
      ensures enc == StructEncoder(ResolvedFields(reg, rules, rank, t))
    {
      var fields := CachedSpecTypeFields(t);
      enc := StructEncoder(fields);
    }
  }
}
