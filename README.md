# jsonspec in Dafny

A model of the type-to-spec renderer of `jsonspec` (Go), with proofs about it.
The renderer takes a Go type and writes a JSON-shaped skeleton of it. Every
leaf of the skeleton holds the `spec` tag text of its field, not a value.
The project also models the template helpers of `cmd/main2.go`. These group
dotted field paths into structs, sort the fields, guess their types and write
Go struct definitions.

What is modelled, file by file:

- `types.dfy` (module `Types`): Go types as a finite registry
  `map<TypeId, TypeDesc>`. A type has a `Name()`, a `String()` text and a
  shape: a struct (with declared fields), a slice, an array, a pointer or
  any other kind.
- `fields.dfy` (`FieldResolution`), `resolution_facts.dfy`
  (`ResolutionFacts`): the breadth-first field search of `typeSpecFields`.
  - A reference definition (`ScanDecl`, `ScanLevel`, `Bfs`) has the
    imperative methods `ScanFields`, `ScanTypes` and `CollectFields` proved
    equal to it.
  - Lemmas give the properties: breadth-first order, each type scanned once,
    the skip/record/embed decision, the doubled fields, and no encoder before
    the post-pass.
- `cache.dfy` (`FieldCaches`): the post-pass that attaches nested encoders,
  and the `cachedSpecTypeFields` memo as a class with a `map` field.
- `encode.dfy` (`Encode`), `render_facts.dfy` (`RenderFacts`):
  - An `Encoder` datatype holds what a Go encoder closure captures.
  - `Render` gives the text an encoder appends, or the error it raises.
  - The `EncodeState` class holds the output buffer. Its methods
    (`EncodeStruct`, `EncodeArray`, ...) are the Go loops, proved to append
    exactly `Render`'s text.
  - Lemmas give the exact object layout, that errors propagate, and that
    well-built encoders never fail.
- `escape.dfy` (`Escape`): `appendHTMLEscape` as a byte loop. It is proved
  against a left-to-right reference definition `HTMLEscape`, which comes
  with a length formula, an identity case, HTML safety and a decoder that
  inverts it.
- `driver.dfy` (`Driver`): the kind-based dispatch of `newTypeSpecEncoder`,
  the get-or-build encoder cache of `typeSpecEncoder`, `SpecMarshal` with
  its error conversion, and `AppendSpec` with its fenced wrapper.
- `strings.dfy` (`Strings`): `strings.Split` and `Join`, `Contains`, ASCII
  `ToLower`, `Title`, and Go's byte-wise string order.
- `structgen.dfy` (`StructModel`): `getStructNameFromPath`,
  `inferFieldType`, `isSliceField` and the field type rule of
  `generateStructDefinitions`.
- `hierarchy.dfy` (`Hierarchy`): `buildStructHierarchy`. The set of field
  paths is given as a sequence in map order.
- `sorting.dfy` (`FieldSort`): `sortStructFields`.
- `codegen.dfy` (`CodeGen`): `generateStructDefinitions`,
  `GenerateAllStructDefinitions` and `ProcessTemplate`.
  - The `strings.Builder` is the text written so far.
  - The `generated` map is a set of names.
  - A ghost sequence records the structs written, in order.
- `wrappers.dfy` (`Wrappers`): `Option` and `Result`.

Inputs from outside the shown code become parameters:
- `parseTag` and `isValidTag` form the `TagRules` value.
- The map iteration order is a sequence (field paths) or a nondeterministic
  choice (`:|`, for nested structs and groups).
- The result of `ExtractTemplateFields` is an argument of `ProcessTemplate`.

A Go panic raised through `specEncodeState.error` is an `Option<SpecError>`
returned by each encoding method, and an encoder stops at the first one.
Byte strings are Dafny strings with one character per byte. Non-ASCII text,
such as the Chinese prefix of `AppendSpec`'s error, is written as its UTF-8
bytes.

## Model

| member | source | states |
|---|---|---|
| Types.IsStruct | field_cache.go:156 | a type is a struct exactly when its kind is Struct |
| FieldResolution.ClassifyCases | field_cache.go:66-132 | these fields are skipped: tag `-`, unexported non-embedded, and embedded unexported whose pointer-stripped type is not a struct. An unskipped embedded field with no tag name and a struct type (one unnamed pointer level followed) is queued. Every other field is recorded with the tag name when valid (tag true) else the declared name, the type with one unnamed pointer level stripped, the spec text, no encoder and both quoted key forms |
| FieldResolution.ResolveField | field_cache.go:66-149 | the loop body's statements classify a declared field exactly as the reference classification does |
| FieldResolution.Classifying | field_cache.go:145-149 | the classification used by the search queues only struct types |
| FieldResolution.LevelShrinks | field_cache.go:57-61 | a level that scans no new type queues nothing; one that does leaves fewer unvisited types (the search terminates) |
| FieldResolution.LevelProgress | field_cache.go:53-61 | a level keeps the queue made of structs and either queues nothing new or shrinks the unvisited types |
| FieldResolution.ScanFields | field_cache.go:64-150 | the inner loop over the declared fields of one type yields the reference scan of all of them |
| FieldResolution.ScanTypes | field_cache.go:57-151 | the loop over one level's queued types yields the reference level scan, skipping visited types |
| FieldResolution.CollectFields | field_cache.go:36-152 | the whole search loop yields the reference breadth-first search from t |
| ResolutionFacts.DoubledAdjacent | field_cache.go:135-141 | when the scanned type was queued more than once, the records are each field twice, adjacently, and otherwise in order |
| ResolutionFacts.KeptMembers | field_cache.go:115-134 | a field is among the records of the first n declared fields exactly when one of them classifies as that record |
| ResolutionFacts.RecordedMembers | field_cache.go:115-134 | a field is recorded exactly when some declared field classifies as it |
| ResolutionFacts.ScanDeclFields | field_cache.go:64-142 | scanning declared fields appends exactly their records, in declaration order, doubled when the type was queued twice |
| ResolutionFacts.ScanDeclQueue | field_cache.go:145-149 | the next-level queue stays without repetition and holds exactly the types counted so far |
| ResolutionFacts.QueuedOncePerLevel | field_cache.go:145-149 | within one level every embedded struct type is queued at most once |
| ResolutionFacts.LevelKeeps | field_cache.go:57-151 | a level keeps the search invariant: fields are the contributions of the scanned types, visited is the set of scanned types, none twice, depths ordered |
| ResolutionFacts.BfsKeeps | field_cache.go:53-152 | the whole search keeps that invariant and scans levels in non-decreasing depth |
| ResolutionFacts.SearchOrder | field_cache.go:53-152 | for any classification that queues only structs, the fields are the scanned types' contributions in scan order, t is scanned first at depth 0, no type is scanned twice, depths never decrease |
| ResolutionFacts.ResolutionOrder | field_cache.go:53-152 | the same for typeSpecFields' own classification: fields from depth k come before fields lifted from depth k+1, each type's in declaration order |
| ResolutionFacts.DirectFieldsFirst | field_cache.go:36-65 | the requested struct's own recorded fields, in declaration order, are a prefix of the result |
| ResolutionFacts.NoEmbeddingResolvesToOwnFields | field_cache.go:53-152 | a struct embedding no struct resolves to exactly its own recorded fields |
| ResolutionFacts.CollectedBare | field_cache.go:121-134 | no field found by the search carries an encoder yet |
| FieldCaches.EncoderTarget | field_cache.go:154-163 | a field gets a nested encoder exactly when its type is a struct or a slice of structs, and that encoder renders a struct |
| FieldCaches.TargetRanked | field_cache.go:154-163 | under acyclic nesting every struct a field's encoder renders ranks below the enclosing struct |
| FieldCaches.PostPass | field_cache.go:154-163 | the post-pass keeps length and every field but its encoder. A struct field gets a struct encoder over the struct's resolved fields; a slice-of-struct field gets an array encoder wrapping one; array, nested-slice and other fields get none and render their hint |
| FieldCaches.ResolvedWellBuilt | field_cache.go:154-163 | every encoder the post-pass builds consists of struct and array encoders at every depth |
| FieldCaches.ResolvedRenders | field_cache.go:154-165 | rendering a struct through its resolved field list never raises an error |
| FieldCaches.FieldCache.CachedSpecTypeFields | field_cache.go:171-177 | returns the resolved fields of t; afterwards t is cached with them; a hit leaves the cache unchanged; entries only grow |
| FieldCaches.FieldCache.TypeSpecFields | field_cache.go:36-166 | the search followed by the post-pass loop returns the resolved fields of t |
| FieldCaches.FieldCache.AttachEncoder | field_cache.go:155-162 | the post-pass body for field i returns the field with its encoder attached |
| FieldCaches.FieldCache.NewStructSpecEncoder | struct.go:54-57 | the struct encoder captures the cached field list of t |
| Encode.Nested | struct.go:39-41 | a nested call gets prefix + indent, every other option unchanged |
| Encode.NewArraySpecEncoder | array.go:7-18 | the encoder renders `[\n`, the nested encoder's text one indent deeper, then `,...]`, or the nested error |
| Encode.NewUnsupportedTypeSpecEncoder | unsupported.go:15-21 | the encoder always raises the unsupported-type error carrying t |
| Encode.EncodeState.Encode | spec.go:106-108 | calling an encoder appends exactly its rendered text, or reports its error with the old buffer still a prefix of the new one |
| Encode.EncodeState.EncodeStruct | struct.go:15-52 | the loop with its `next` byte appends exactly the struct text (entries, then the closing), or stops at the first error with the old buffer kept as a prefix |
| Encode.EncodeState.EncodeClosing | struct.go:45-51 | with no entry written it appends `{}`, otherwise newline, prefix and `}` |
| Encode.EncodeState.EncodeEntry | struct.go:18-42 | one iteration appends the lead (prefix and `{` for the first, `,` otherwise, then a newline), the prefix, the key and the value; on a nested error the old buffer is kept as a prefix |
| Encode.EncodeState.EncodeValue | struct.go:36-42 | a field without encoder writes its hint; otherwise the nested encoder runs one indent deeper, and on its error the old buffer is kept as a prefix |
| Encode.EncodeState.EncodeArray | array.go:11-18 | appends `[\n`, the nested output one indent deeper, then `,...]`, or reports the nested error with the old buffer kept as a prefix |
| Encode.EncodeState.EncodeUnsupported | unsupported.go:15-17 | writes nothing and raises its own unsupported-type error |
| Encode.EncodeState.EncodeIndirect | spec.go:132-139 | the placeholder raises "recursive encoder is nil" and writes nothing when the real encoder is missing, else runs it with the same promise as `Encode` |
| Encode.PartialEntries | struct.go:16-43 | after i iterations the text is the opening prefix and `{\n` followed by the entries so far |
| Encode.PartialStep | struct.go:18-43 | one more iteration appends its entry text or stops with its error |
| Encode.PartialFailurePersists | spec.go:102-104 | once an error is raised, every later point of the loop reports that same error |
| Encode.StructFromPartial | struct.go:15-52 | the loop's text followed by the closing is the struct encoder's rendering |
| RenderFacts.EntriesAsJoin | struct.go:18-43 | the entries succeed exactly when every value does, and are the entry lines joined by `,\n` (n-1 commas, list order) |
| RenderFacts.FirstErrorWins | struct.go:18-43 | the first failing field's error is the struct's error |
| RenderFacts.StructLayout | struct.go:15-52 | zero fields give exactly `{}`; n fields give `P{\n`, the entries `P key value` joined by `,\n`, then `\nP}` |
| RenderFacts.OneFieldLayout | struct.go:15-52 | a one-field object with a hint is `P{\nP key hint\nP}` |
| RenderFacts.WellBuiltRenders | struct.go:15-52 | encoders made of struct and array encoders and hints never fail |
| RenderFacts.FieldWellBuiltRenders | struct.go:36-42 | a well-built field always renders its value |
| RenderFacts.OptionsIrrelevant | struct.go:30-34 | only prefix, indent and (when some key has distinct escaped and plain forms) escapeHTML affect the output; quoted never does |
| RenderFacts.EntriesIrrelevant | struct.go:30-34 | the same for the entries of a struct |
| RenderFacts.ErrorTextNamesType | unsupported.go:11-13 | the unsupported-type text is `json: unsupported type: ` followed by the type's `Name()`; the placeholder's is `recursive encoder is nil for type ` followed by its `String()`, as `%v` prints a type (spec.go:135); the first byte tells them apart |
| Escape.ByteEscape | escape.go:10-13 | the escape of an HTML byte is six bytes |
| Escape.SeparatorEscape | escape.go:16-20 | U+2028 escapes to `\u2028`, U+2029 to `\u2029` |
| Escape.AppendHTMLEscape | escape.go:5-23 | the loop returns dst followed by the reference escaping of src |
| Escape.HTMLEscapeLength | escape.go:10-20 | the length grows by 5 per HTML byte and by 3 per complete separator |
| Escape.HTMLEscapeIdentity | escape.go:22 | without special bytes or separators the input is copied unchanged |
| Escape.HTMLEscapeIsHTMLSafe | escape.go:10-13 | the output contains no `<`, `>` or `&` |
| Escape.HTMLEscapeRoundTrip | escape.go:5-23 | decoding the escape forms recovers any input without a backslash |
| Escape.SpecialEscapes | escape.go:10-13 | `<`, `>`, `&` escape to `\u003c`, `\u003e`, `\u0026` and decode back |
| Escape.HTMLEscapeByteForms | escape.go:10-13 | `<`, `>` and `&` alone escape to exactly `\u003c`, `\u003e` and `\u0026` |
| Escape.HTMLEscapeSeparatorForms | escape.go:16-20 | E2 80 A8 and E2 80 A9 become `\u2028` and `\u2029`; a truncated E2 80 is copied unchanged |
| Driver.Dispatch | spec.go:154-164 | an encoder is built exactly for a struct, or an array or slice of structs |
| Driver.DispatchCases | spec.go:154-164 | a struct gets a struct encoder over its resolved fields; an array or slice of structs an array encoder wrapping the element's; anything else the nil encoder |
| Driver.DispatchRenders | spec.go:106-107 | a dispatched encoder never raises an error |
| Driver.PlaceholderRenders | spec.go:132-139 | the placeholder renders as the real encoder, or fails with "recursive encoder is nil for type " followed by the type's `String()` when that is nil |
| Driver.EncoderCache.TypeSpecEncoder | spec.go:118-150 | returns the dispatched encoder of t and caches it; a hit changes neither cache, a miss adds exactly t to the encoder cache and only grows the field cache |
| Driver.EncoderCache.NewTypeSpecEncoder | spec.go:154-164 | the switch returns the dispatched encoder, building nested struct encoders through the field cache |
| Driver.EncoderCache.NewCollectionEncoder | spec.go:158-161 | the array and slice case returns the dispatched encoder |
| Driver.MarshalOpts | spec.go:48 | rendering uses escapeHTML and the caller's prefix and indent |
| Driver.SpecMarshal | spec.go:41-55 | the result is exactly the buffer's text after rendering, or the raised error with no text; afterwards t is cached and no cached type was dropped |
| Driver.MarshalSucceeds | spec.go:41-55 | marshalling a dispatchable type always succeeds |
| Driver.MarshalCollection | spec.go:158-161 | a collection of structs marshals to `[\n`, the element struct one indent deeper, then `,...]` |
| Driver.Fence | spec.go:25 | the fenced text is the spec with the opening and closing fences around it |
| Driver.FenceRoundTrip | spec.go:25 | unfencing undoes fencing, and only fenced text unfences |
| Driver.WrapSpec | spec.go:20-31 | succeeds exactly when marshalling did, with In = param and the fenced spec; otherwise the error is the prefix followed by the error's text |
| Driver.AppendSpec | spec.go:18-31 | marshals with prefix "" and indent two spaces, then wraps; afterwards t is cached and no cached type was dropped |
| Driver.AppendSpecSucceeds | spec.go:18-31 | for a dispatchable type the result is In = param and OutSpec = the fenced spec |
| Strings.Split | cmd/main2.go:179 | splitting always yields at least one piece |
| Strings.SplitJoin | cmd/main2.go:179 | the pieces joined by the separator give back the string, and no piece holds the separator |
| Strings.JoinSplit | cmd/main2.go:185 | splitting a join of separator-free pieces gives back the pieces |
| Strings.Lower | cmd/main2.go:298 | lower-casing maps A-Z to a-z byte by byte and keeps the length |
| Strings.LowerIdempotent | cmd/main2.go:298 | lowering twice is lowering once |
| Strings.LowerTitle | cmd/main2.go:221 | lowering a title-cased name is lowering the name |
| Strings.LexTransitive | cmd/main2.go:288 | Go's string order is transitive |
| Strings.LexTotal | cmd/main2.go:288 | any two different strings are ordered one way or the other |
| Strings.LexAsymmetric | cmd/main2.go:288 | Go's string order is asymmetric |
| StructModel.GetStructNameFromPath | cmd/main2.go:270-283 | the method returns the reference struct name of the path |
| StructModel.TitleSegments | cmd/main2.go:277-281 | the loop keeps the non-empty segments, title-cased, in order |
| StructModel.StructNameCamel | cmd/main2.go:270-283 | "" names RootData; any other path names its camel form (each segment's first letter raised, dots removed) followed by Data |
| StructModel.StructNameShape | cmd/main2.go:270-283 | every struct name ends in Data and holds no dot |
| StructModel.DotsOnlyName | cmd/main2.go:275-282 | every non-empty path made only of dots drops all its segments and names plain Data, not the root |
| StructModel.InferFieldType | cmd/main2.go:297-319 | the guess is one of int64, int, float64, bool, time.Time, string |
| StructModel.InferFieldTypeKeywords | cmd/main2.go:302-318 | the guess is the first matching keyword group on the lower-cased name, id first; the suffix test and "number" add nothing; email, url and link give the default string |
| StructModel.InferFieldTypeTable | cmd/main2.go:297-319 | the guess is the first row of the keyword table matching the lower-cased name |
| StructModel.InferFieldTypeByLower | cmd/main2.go:298 | names with the same lower-cased form get the same guess |
| StructModel.InferFieldTypeIgnoresCase | cmd/main2.go:298 | the guess is unchanged by lower-casing or title-casing the name |
| StructModel.IsSliceFieldOnlyName | cmd/main2.go:402-409 | the slice decision ignores the struct name and the case of the field name |
| StructModel.FieldType | cmd/main2.go:374-379 | the written type is the field's type with `[]` in front exactly when the field looks like a slice and the type does not already start with `[]` |
| StructModel.FieldTypeIdempotent | cmd/main2.go:376-378 | applying the slice rule to its own result changes nothing |
| Hierarchy.PathShape | cmd/main2.go:179-187 | a one-segment path goes to the root group; a dotted path is its parent path, a dot and its last segment |
| Hierarchy.GroupsAsFilter | cmd/main2.go:176-188 | a parent path is a group key exactly when some path lies under it, and its group is those paths in order |
| Hierarchy.ParentPathIff | cmd/main2.go:176-188 | a parent path is a group key exactly when some path has it as parent |
| Hierarchy.GroupPaths | cmd/main2.go:176-188 | the grouping loop yields the reference groups |
| Hierarchy.AddToGroup | cmd/main2.go:179-187 | one round appends the path to the group of its parent path |
| Hierarchy.MakeField | cmd/main2.go:217-236 | the field's name is the title-cased last segment, its type the nested struct name when its path is a group key and the guessed type otherwise, IsNested when the path has more than one segment, Parent the parent path |
| Hierarchy.StructTypedFields | cmd/main2.go:231-235 | a field's type is a nested struct name exactly when its path is a group key, and then that struct is created |
| Hierarchy.AddField | cmd/main2.go:216-238 | a path with a non-empty last segment appends its field; any other appends nothing |
| Hierarchy.AddFields | cmd/main2.go:216-239 | the inner loop appends the fields of a group in order |
| Hierarchy.WantedMembers | cmd/main2.go:215-238 | a field belongs to a struct exactly when some path gives it and its parent path names that struct |
| Hierarchy.AddGroup | cmd/main2.go:194-240 | one round sends the group's fields to the root or to the struct its name picks, created if new |
| Hierarchy.GatherDone | cmd/main2.go:191-240 | after all groups, the root and every created struct hold exactly the fields meant for them, and exactly the parent paths' structs are created |
| Hierarchy.GatherFields | cmd/main2.go:191-240 | the group loop builds those fields and structs |
| Hierarchy.LinkNested | cmd/main2.go:243-261 | every created struct goes directly under the root by its name; the deeper-parent branch is never taken |
| Hierarchy.BuildStructHierarchy | cmd/main2.go:168-267 | the root is RootData with exactly its fields, sorted; its nested structs are exactly those of the parent paths, each with its own fields sorted and no structs under it |
| FieldSort.Insert | cmd/main2.go:287-289 | inserting into a sorted list keeps it sorted and adds the field |
| FieldSort.SortFields | cmd/main2.go:287-289 | the result is sorted by name and a permutation of the fields |
| FieldSort.SortStructFields | cmd/main2.go:286-294 | every struct of the tree has its fields sorted and permuted; names and links unchanged |
| CodeGen.FieldLines | cmd/main2.go:372-394 | one line per field, in field order |
| CodeGen.StructTextJoin | cmd/main2.go:370-396 | a definition is its lines joined by newlines |
| CodeGen.StructTextLines | cmd/main2.go:370-396 | unless a name or type holds a newline, splitting a definition at newlines gives `type N struct {`, one `\tname type` line per field in order, `}`, and two empty lines |
| CodeGen.WriteStruct | cmd/main2.go:369-398 | the loop appends exactly the definition of the struct |
| CodeGen.EmitsAt | cmd/main2.go:360-399 | the struct written at position i has a name not written before, lies in the tree, and every struct linked under it was written before it |
| CodeGen.EmitsNames | cmd/main2.go:363-397 | the generated set afterwards is the one before plus the written names |
| CodeGen.EmitsFacts | cmd/main2.go:360-399 | no name is written twice, none already generated, only structs of the tree, nested ones before the struct linking them |
| CodeGen.GenerateStructDefinitions | cmd/main2.go:360-399 | appends the written structs' definitions, in the order written, with the order and set properties above; the struct itself and everything directly under it are generated afterwards; it is written last when at all |
| CodeGen.GenerateNested | cmd/main2.go:362-366 | the loop over linked structs writes each one not yet generated, with what it links to |
| CodeGen.VisitNested | cmd/main2.go:363-365 | a linked struct whose name is generated is skipped; otherwise it and what it links to are written |
| CodeGen.GenerateAllStructDefinitions | cmd/main2.go:322-340 | the package clause, then exactly the definitions written for the tree, with the generated set equal to their names |
| CodeGen.PackageClauseIff | cmd/main2.go:326-328 | the output starts with `package ` exactly when a package name is given |
| CodeGen.FlatWritesAll | cmd/main2.go:360-399 | for a tree as buildStructHierarchy builds it, every name is written exactly once |
| CodeGen.RootWrittenLast | cmd/main2.go:369-398 | when the root's definition is written, it is written last and no struct under it has its name |
| CodeGen.RootWrittenIff | cmd/main2.go:360-399 | on such a tree the root's definition is written exactly when no struct under it has the root's name |
| CodeGen.TemplateProcessor.ProcessTemplate | cmd/main2.go:417-432 | a failed extraction gives "failed to extract fields: " and the cause; no fields and no nested structs give "no template fields found"; otherwise the tree, with the root renamed, is written in full |

## Left out

- Concurrency: `sync.Map` in both caches, the `sync.WaitGroup` handoff and the `sync.Pool` of encode states. The caches are sequential maps.
- The placeholder is not stored in the encoder cache while the real encoder is built. Nothing called from `newTypeSpecEncoder` reads the encoder cache, so in a sequential run it is never seen there. Its behaviour is kept as `IndirectEncoder` (`PlaceholderRenders`).
- `ptrLevel`, `ptrSeen` and the pool checks of `newSpecEncodeState` are not modelled: they do nothing here. The unused `quoted` option is carried but never read. `nameBytes` is the field's name itself.
- Reflection: types are the registry. `parseTag` and `isValidTag` are not part of this model; they are the parameters in `TagRules`.
- Recursive struct types: `typeSpecFields` builds nested encoders eagerly and caches only after computing. It does not terminate on self-referential structs. `FieldCaches.Acyclic` (a rank decreasing along field types) is a precondition of the field cache and the driver. It ranks every struct of the registry, where Go only needs the structs reachable from the rendered type to be acyclic; this loses nothing, because a registry cut down to the types reachable from t gives the same results.
- Driver.SpecMarshal: requires a struct or a collection of structs, because for any other type Go calls the nil encoder, which is a runtime panic and not a reported error. Re-raising panics other than `jsonError` is therefore not modelled either.
- Driver.WrapSpec: `%v` formatting is the error's text, as `ErrorText` gives it.
- FieldSort.SortFields: `sort.Slice` is modelled as an insertion sort. Go's sort is not stable, so fields with equal names may end in another order there; the contract states only sortedness and permutation, which both orders meet.
- Map iteration order is not fixed in Go. The field paths are a sequence. The group loop, the link loop, `sortStructFields` and `generateStructDefinitions` choose keys with `:|`, so their contracts hold for every order.
- Struct pointers are values. `buildStructHierarchy` links each created struct once, after all its fields are added, so no sharing is lost. `ProcessTemplate` renames a copy of the root.
- Hierarchy.BuildStructHierarchy: the field paths may repeat in the sequence, although a Go map key set cannot; the contract holds either way.
- Duplicated paths or fields (two paths with one name) are rendered as they come; nothing rejects them.
- A nested struct named like the root is a real behaviour of `generateStructDefinitions`, not modelled away. The path `root` names `RootData`, so it marks the root's name as generated and the root's own definition is never written. `CodeGen.RootWrittenIff` states this exactly.
- The template-AST walker (`ExtractTemplateFields`, `walkNodes`, `walkPipe`, `walkCommand`, `extractRangeContext`, `extractWithContext`) is not part of this model. `ProcessTemplate` takes its result as an argument.
- `main2` and its printing, `cmd/llm_call.go`, `cmd/main.go`, `cmd/example.go` and `cmd/extract.go` are not part of this model: they are entry points, glue and foreign calls.
- `strings.ToLower` and `strings.Title` are ASCII only. Title starts a word after any ASCII byte other than a letter, digit or underscore.
- `fmt.Sprintf` calls are written out as string concatenation.
