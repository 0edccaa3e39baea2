# Extension-preserving JSON codec for streamed chat completions

This project models the extension mechanism of a Go OpenAI client as a
verified Dafny project.

Each streamed chat-completion record embeds a `RawExtensions` store, which holds three things:
- the JSON keys the record's schema does not know (`Extensions`);
- the bytes of the last payload decoded into the record (`RawData`);
- those unknown keys re-serialised on their own (`ExtensionRawData`).

Decoding (`UnmarshalWithExtensions`) works in four steps:
1. It decodes the payload into the record's fields.
2. It parses the payload again as a generic object.
3. It takes as *known* the keys the populated record itself prints (`getKnownFields`).
4. It stores every other key as an extension.

Encoding (`MarshalWithExtensions`) prints the record's fields. It then writes every extension over them, and an extension wins when a key collides.

The seven stream record types route their `UnmarshalJSON` and `MarshalJSON` through these two functions:
- ChatCompletionStreamChoiceDelta;
- ChatCompletionStreamChoiceLogprobs;
- ChatCompletionTokenLogprob;
- ChatCompletionTokenLogprobTopLogprob;
- ChatCompletionStreamChoice;
- PromptFilterResult;
- ChatCompletionStreamResponse.

Which keys a record prints follows from its struct tags: required keys always appear, and omitempty keys appear only when set. Those same rules then decide which incoming keys become extensions.

## Files

- `json.dfy` (module `Json`) covers the JSON layer:
  - JSON values, where `JForeign` stands for a Go value that `json.Marshal` refuses;
  - when marshalling succeeds;
  - `json.Unmarshal` into a `map[string]interface{}`.

  Numbers are kept as the literals they were read from (a mantissa and a decimal exponent).

  The byte-level printer and parser stay abstract as a `Wire`. The lemmas assume only that it is `Lawful`: what it prints it parses back, and what it parses can be printed.
- `exact_wire.dfy` (module `ExactWire`) gives one concrete wire and proves it `Lawful`, so the lemmas that assume a lawful wire are not vacuous. It prints a tag byte per value, then counts and digits in base 128. It is not encoding/json's text format. The delta round trip and the empty-content edge case are instantiated on it.
- `extensions.dfy` (module `Extensions`) holds the `RawExtensions` store in two forms:
  - a value (`Store`), which is what a record embeds;
  - a class whose methods update it in place, with the lazily allocated map and the copied byte buffer.
- `codec.dfy` (module `Codec`) contains the rest of json.go:
  - how a tagged struct is printed (`EmitFields`);
  - `getKnownFields`, the split loop, `UnmarshalWithExtensions` and `MarshalWithExtensions` with its merge loop;
  - the variadic `UnmarshalJSON`;
  - the generic split, merge-precedence and round-trip lemmas.
- `field_decoding.dfy` (module `FieldDecoding`) says how `json.Unmarshal` fills one struct field of each kind the records use:
  - a missing key leaves the field alone;
  - `null` keeps a value field and clears a pointer or slice;
  - a wrong-typed value is an error;
  - a nested record runs its own `UnmarshalJSON` on its own member.
- `chat_stream.dfy` (module `ChatStream`) has, for each type:
  - the struct tags, the alias type's printed object and its decoder;
  - `UnmarshalJSON` / `MarshalJSON`, as `Unmarshal<T>` / `Marshal<T>`.
- `stream_properties.dfy` (module `StreamProperties`) proves the per-type properties:
  - which keys each type prints;
  - which keys can never become extensions;
  - that nested records keep their own stores;
  - the round trips;
  - the edge cases where the known-field rule gives surprising results.

Two consequences of the known-field rule are proved explicitly:

- **Empty fields.** An omitempty field arriving empty on the wire (`"content":""`) is not printed by the decoded delta, so the key is stored as an extension. Encoding the delta again writes it back (`DeltaEmptyContentIsExtension`).
- **Round-trip condition.** For a round trip, it is not enough that extension keys avoid the keys the record *prints*. An extension named `content` beside an empty content is printed, read back into the content field, and lost (`DeltaExtensionShadowsEmptyField`). The per-type round-trip lemmas therefore require extension keys to avoid all of the type's field names. The generic `Codec.RoundTrip` and `Codec.ExtensionsRecovered` require only that they avoid the printed keys, and leave the rest to their premise on the decoder.

## Model

| member | source | states |
|---|---|---|
| Json.Marshal | json.go:109-112 | json.Marshal succeeds exactly on values without a foreign part; a lawful parser reads back what it printed |
| Json.UnmarshalObject | json.go:77-80 | decoding into a map succeeds exactly on an object or null; an object gives exactly its entries, and null gives no entries |
| Extensions.LookupExtension | json.go:33-39 | GetExtension on a store value: (value, true) exactly when the key is present, (nil, false) otherwise |
| Extensions.WithExtension | json.go:25-30 | after SetExtension the key maps to the new value (so a second set wins), every other key keeps its lookup, the key set grows by the key, the byte buffers are untouched |
| Extensions.WithExtensionsKeys | json.go:25-30 | a sequence of sets leaves exactly the old keys plus the keys set |
| Extensions.DistinctSetsCount | chat_test.go:979-989 | setting N distinct keys on a fresh store leaves exactly N entries |
| Extensions.RawExtensions.constructor | json.go:15-22 | the zero store: nil map, empty buffers |
| Extensions.RawExtensions.FromStore | json.go:15-22 | a store object holding a given store value, in a fresh buffer |
| Extensions.RawExtensions.SetExtension | json.go:25-30 | allocates the map when nil, then the new state is WithExtension of the old one |
| Extensions.RawExtensions.GetExtension | json.go:33-39 | answers what LookupExtension says of the object's state: (value, true) exactly when the map is allocated and holds the key, (nil, false) otherwise; reads only |
| Extensions.WithExtensions | json.go:25-30 | a sequence of SetExtension calls never touches the byte buffers, and at least one call leaves the map allocated |
| Extensions.RawExtensions.GetExtensions | json.go:42-48 | leaves the map allocated and returns its entries; nothing else changes |
| Extensions.RawExtensions.SetRawData | json.go:51-54 | RawData becomes a fresh buffer, not the argument, with the argument's length and contents; nothing else changes |
| Extensions.RawExtensions.GetRawData | json.go:57-59 | returns the stored buffer itself |
| Extensions.RawExtensions.GetExtensionRawData | json.go:62-64 | returns the stored extension bytes |
| Codec.EmittedKey | chat_stream.go:8-16 | a struct field's tag name is a key of the printed object exactly when the field is required or non-empty, and then maps to the field's value |
| Codec.EmittedKeysWithin | chat_stream.go:27-39 | the printed object has no keys besides the tag names, so the store's `json:"-"` fields never appear |
| Codec.KnownFieldsOf | json.go:106-125 | the known fields are the printed object's keys, and the empty set when marshalling fails |
| Codec.KnownWithin | json.go:106-125 | the known fields are always among the printed keys, and are all of them when the record can be marshalled |
| Codec.GetKnownFields | json.go:106-125 | the loop collects exactly KnownFieldsOf |
| Codec.ExtensionFields | json.go:86-91 | the extensions are exactly the payload entries whose keys are not known, with values unchanged |
| Codec.SplitExtensions | json.go:86-91 | the loop builds exactly ExtensionFields |
| Codec.Decode | json.go:67-103 | RawData is the input even on a parse error or a map error; on either error the rest of the store is untouched; on success the payload parsed, was accepted by the decoder, and parses as an object or null |
| Codec.UnmarshalWithExtensions | json.go:67-103 | the in-place decode leaves the fields and the store exactly as Decode says, with RawData in a fresh buffer |
| Codec.UnmarshalRecord | chat_stream.go:18-25 | a record's UnmarshalJSON is UnmarshalWithExtensions over the record's own store |
| Codec.Encode | json.go:128-152 | a base json.Marshal refuses is a target-marshal error; with no extensions the base bytes are returned unchanged; with an extension json.Marshal refuses the result is an error, and on a lawful wire it is the merged-marshal error |
| Codec.ForeignMerge | json.go:146-151 | an extension json.Marshal refuses makes the merged object unmarshallable, whatever the base |
| Codec.EmitFields | chat_stream.go:8-16 | the printed object has at most one key per struct field |
| Codec.StoreExtensions | json.go:93-100 | no extensions leave the store as it was; otherwise they become the map, RawData stays, and ExtensionRawData is their printing when json.Marshal accepts them and keeps its old bytes when it refuses them |
| Codec.MergeExtensions | json.go:146-149 | the merged keys are base ∪ extensions; on a shared key the extension value wins, and elsewhere the base value stays |
| Codec.MarshalWithExtensions | json.go:128-152 | the method returns exactly Encode |
| Codec.Encoded | json.go:128-152 | the object a record's MarshalJSON prints: its keys are the printed fields' keys ∪ the extension keys; an extension key maps to the extension value, and any other printed key keeps the field's value |
| Codec.MarshalRecord | chat_stream.go:27-39 | a record's MarshalJSON is MarshalWithExtensions of its fields' object and its own extensions |
| Codec.UnmarshalEach | json.go:155-162 | runs each target's decode in order and stops at the first error, which it returns; no error means every target's decode succeeded |
| Codec.EncodeMergePrecedence | json.go:140-151 | with extensions, the output parses as base + extensions: key set base ∪ extensions, extension values win, base values elsewhere |
| Codec.DecodeSplitsPayload | json.go:83-100 | after a successful decode, the extensions are one of three things: unchanged when every key is known; exactly the unknown entries otherwise; the whole payload when the fields cannot be marshalled |
| Codec.DecodeStoresExtensions | json.go:93-100 | after a successful decode on a lawful wire, no unknown keys keep the previous store except RawData, which is the input; otherwise the store holds exactly the unknown entries, the input as RawData, and their printing as ExtensionRawData |
| Codec.RoundTrip | chat_test.go:1350-1410 | encoding a record whose extension keys miss its printed keys, then decoding with a decoder that recovers the fields, gives back three things: the fields, exactly the extension map, and the bytes as RawData with the extensions re-serialised |
| Codec.ExtensionsRecovered | json.go:83-100 | when the decoder accepts the encoded payload and its result prints the same keys as the encoded fields (whatever their values), the decode stores exactly the extension map, the bytes as RawData and the extensions re-serialised |
| Codec.RoundTripWithoutExtensions | json.go:94-100 | with no extensions the fields come back, and the previous extensions and their bytes are kept |
| ChatStream.DeltaTags | chat_stream.go:8-16 | the delta's tagged fields have distinct names, all among its tag names |
| ChatStream.DecodeDelta | chat_stream.go:18-24 | json.Unmarshal into the alias: null changes nothing, a non-object is an error that changes nothing, an object with none of the tag names changes nothing |
| ChatStream.LogprobsTags | chat_stream.go:41-45 | the same for the choice logprobs |
| ChatStream.DecodeLogprobs | chat_stream.go:47-53 | the same for the choice logprobs |
| ChatStream.TokenLogprobTags | chat_stream.go:70-76 | the same for a token logprob |
| ChatStream.DecodeTokenLogprob | chat_stream.go:78-82 | the same for a token logprob |
| ChatStream.TopLogprobTags | chat_stream.go:97-102 | the same for a top logprob |
| ChatStream.DecodeTopLogprob | chat_stream.go:104-108 | the same for a top logprob |
| ChatStream.ChoiceTags | chat_stream.go:123-130 | the same for a choice |
| ChatStream.DecodeChoice | chat_stream.go:132-136 | the same for a choice |
| ChatStream.PromptFilterResultTags | chat_stream.go:151-155 | the same for a prompt filter result |
| ChatStream.DecodePromptFilterResult | chat_stream.go:157-161 | the same for a prompt filter result |
| ChatStream.ResponseTags | chat_stream.go:176-190 | the same for a stream response |
| ChatStream.DecodeResponse | chat_stream.go:192-196 | the same for a stream response |
| FieldDecoding.EncodeRecords | chat_stream.go:42-43 | a slice of records prints one item per record |
| FieldDecoding.EncodeRecordsItem | chat_stream.go:42-43 | on a lawful wire, item i of a printed slice is exactly what record i's own MarshalJSON bytes parse back to |
| FieldDecoding.DecString | chat_stream.go:9-11 | a string field takes a JSON string; a missing key or null keeps it; any other value is an error that keeps it |
| FieldDecoding.DecIntValue | chat_stream.go:124 | an int takes only a literal without fraction or exponent; null keeps it; anything else is an error that keeps it |
| FieldDecoding.DecInt | chat_stream.go:124 | a missing key keeps the int; a present one decodes as DecIntValue |
| FieldDecoding.DecNumber | chat_stream.go:73 | a float64 field takes a JSON number; a missing key or null keeps it; any other value is an error that keeps it |
| FieldDecoding.DecIntSlice | chat_stream.go:72 | a missing key keeps the slice, null clears it, a non-array is an error that keeps it; an array gives one element per item, where a null item keeps the element already there (zero past the old length) and an integer literal gives its value, and the decode is ok exactly when every item is null or an integer literal |
| FieldDecoding.DecValue | chat_stream.go:127-128 | a value of a type not modelled here takes any non-null value and is kept on a missing key or null; never an error |
| FieldDecoding.DecPointer | chat_stream.go:12 | a pointer is kept on a missing key, is nil exactly on null, and otherwise points at the value; never an error |
| FieldDecoding.DecSlice | chat_stream.go:13 | a slice takes an array's items, null clears it, a missing key keeps it, any other value is an error that keeps it |
| FieldDecoding.DecRecord | chat_stream.go:125 | a nested record is kept on a missing key; otherwise its UnmarshalJSON runs on the member, which becomes its RawData, and the field is ok exactly when that UnmarshalJSON succeeds |
| FieldDecoding.DecRecordPointer | chat_stream.go:126 | a pointer to a record is kept on a missing key and is nil on null; otherwise it is set, the record's RawData is the member, and the field is ok exactly when the record's UnmarshalJSON succeeds on the previous pointee, or on the zero record when the pointer was nil |
| FieldDecoding.DecRecordSlice | chat_stream.go:181 | a slice of records is kept on a missing key, cleared on null, an error on a non-array, and otherwise has one record per item, each holding its item as RawData; the slice is ok exactly when every element's UnmarshalJSON from the zero record succeeds |
| ChatStream.UnmarshalDelta | chat_stream.go:18-25 | the delta's UnmarshalJSON is the codec over the delta's own store |
| ChatStream.MarshalDelta | chat_stream.go:27-39 | the delta's MarshalJSON is the codec over the delta's own extensions |
| ChatStream.UnmarshalLogprobs | chat_stream.go:47-54 | the same for the choice logprobs |
| ChatStream.MarshalLogprobs | chat_stream.go:56-68 | the same for the choice logprobs |
| ChatStream.UnmarshalTokenLogprob | chat_stream.go:78-83 | the same for a token logprob |
| ChatStream.MarshalTokenLogprob | chat_stream.go:85-95 | the same for a token logprob |
| ChatStream.UnmarshalTopLogprob | chat_stream.go:104-109 | the same for a top logprob |
| ChatStream.MarshalTopLogprob | chat_stream.go:111-121 | the same for a top logprob |
| ChatStream.UnmarshalChoice | chat_stream.go:132-137 | the same for a choice |
| ChatStream.MarshalChoice | chat_stream.go:139-149 | the same for a choice |
| ChatStream.UnmarshalPromptFilterResult | chat_stream.go:157-162 | the same for a prompt filter result |
| ChatStream.MarshalPromptFilterResult | chat_stream.go:164-174 | the same for a prompt filter result |
| ChatStream.UnmarshalResponse | chat_stream.go:192-197 | the same for a stream response |
| ChatStream.MarshalResponse | chat_stream.go:199-209 | the same for a stream response |
| StreamProperties.DeltaEmission | chat_stream.go:8-16 | each of content, reasoning_content, role, function_call, tool_calls and refusal is printed exactly when set, with its value; no other key, and no store field, is printed |
| StreamProperties.TopLogprobEmission | chat_stream.go:97-102 | token, bytes and logprob are always printed, with their values, and nothing else |
| StreamProperties.TokenLogprobEmission | chat_stream.go:70-76 | token and top_logprobs are always printed; bytes and logprob are printed exactly when non-empty; no store field is printed |
| StreamProperties.LogprobsEmission | chat_stream.go:41-45 | content and refusal are printed exactly when non-empty, through each token logprob's own MarshalJSON |
| StreamProperties.ChoiceEmission | chat_stream.go:123-130 | index, delta (with the delta's extensions merged in), finish_reason and content_filter_results are always printed; logprobs is printed exactly when the pointer is set |
| StreamProperties.PromptFilterResultEmission | chat_stream.go:151-155 | index and content_filter_results are always printed, and nothing else |
| StreamProperties.ResponseEmission | chat_stream.go:176-190 | id, object, created, model, choices and system_fingerprint are always printed with their values; prompt_annotations, prompt_filter_results and usage are printed exactly when set, with their values (the filter results through each record's MarshalJSON) |
| StreamProperties.DeltaKnownFields | chat_stream.go:8-25 | a delta's known fields are exactly its non-empty fields |
| StreamProperties.DeltaDecodeRecovers | chat_stream.go:8-25 | the delta's decoder, started from the zero delta, reads back every field from what the delta prints, whatever extensions outside its field names lie beside them |
| StreamProperties.DeltaRoundTrip | chat_stream.go:18-39 | MarshalJSON then UnmarshalJSON of a delta gives back four things: the fields, exactly the extension map, RawData equal to the bytes, and the extensions re-serialised |
| StreamProperties.DeltaEmptyContentIsExtension | chat_stream.go:9 | decoding `{"content":""}` sets content to "" and stores "content" as an extension, which the next encode prints again |
| StreamProperties.DeltaExtensionShadowsEmptyField | chat_stream.go:9 | an extension "content" beside an empty content passes the printed-keys collision test, yet decodes into the field and is lost |
| StreamProperties.ContentPayloadDecodes | chat_stream.go:9 | the delta's decoder reads `{"content": s}` into the content field alone, from any previous delta |
| StreamProperties.EmptyContentUnknown | chat_stream.go:9 | on a lawful wire, a delta with empty content does not know the key "content" |
| StreamProperties.TopLogprobFieldsNeverExtensions | chat_stream.go:97-121 | a successful decode never stores token, bytes or logprob as extensions |
| StreamProperties.TopLogprobDecodeRecovers | chat_stream.go:97-109 | the top logprob's decoder reads back all three fields from what it prints, from any previous value |
| StreamProperties.TopLogprobReads | chat_stream.go:97-109 | an object whose token, logprob and bytes members hold a top logprob's printed values decodes, from any previous value, to exactly those fields |
| StreamProperties.TopLogprobRoundTrip | chat_stream.go:104-121 | MarshalJSON then UnmarshalJSON gives back a top logprob's fields and exactly its extensions |
| StreamProperties.PromptFilterResultReads | chat_stream.go:151-162 | from what a prompt filter result prints, beside extensions outside its names, the decoder reads back the index, and the content filter results unless they print as null, in which case it keeps the previous ones |
| StreamProperties.PromptFilterResultPrintable | chat_stream.go:164-174 | a prompt filter result with printable content filter results prints as an encodable object |
| StreamProperties.PromptFilterResultExtensionsRecovered | chat_stream.go:151-174 | MarshalJSON then UnmarshalJSON of a prompt filter result succeeds and gives back its index, its content filter results (the previous ones when they print as null), exactly its extension map, the bytes as RawData and the extensions re-serialised |
| StreamProperties.ChoiceKeySet | chat_stream.go:123-130 | a choice prints exactly its five names, less logprobs when the pointer is nil |
| StreamProperties.ChoiceNamesCovered | chat_stream.go:123-130 | a set of choice names that holds index, delta, finish_reason and content_filter_results is all of the names, or all but logprobs, according to whether it holds logprobs |
| StreamProperties.ChoiceKeys | chat_stream.go:123-130 | two choices that agree on whether logprobs is set print the same keys |
| StreamProperties.ChoiceReadsLogprobs | chat_stream.go:126 | decoding what a choice prints, beside extensions outside its names, from the zero choice sets logprobs exactly when the choice had it set |
| StreamProperties.DecodeChoiceLogprobs | chat_stream.go:126 | decoded into the zero choice, an object sets logprobs exactly when it holds a non-null "logprobs" |
| StreamProperties.ChoiceExtensionsRecovered | chat_stream.go:123-149 | MarshalJSON then UnmarshalJSON of a choice with extensions outside its names gives back exactly its extension map, the bytes as RawData and the extensions re-serialised, with the fields as the decoder read them |
| StreamProperties.ChoiceStringDeltaFails | json.go:72-74 | on a lawful wire, a choice payload whose "delta" member is a string fails the delta's own UnmarshalJSON, so the choice's decode reports the target error and changes only RawData in its store |
| StreamProperties.ChoiceDeltaOwnStore | chat_stream.go:123-137 | a choice's delta is decoded from the delta member's own bytes into the delta's own store; the choice keeps the whole payload |
| StreamProperties.ResponseChoicesOwnStores | chat_stream.go:176-197 | each element of choices is decoded from the zero choice and the element's own bytes, and keeps those bytes as its RawData |
| StreamProperties.ForeignDeltaExtensionHidesChoiceFields | json.go:106-112 | a delta extension that json.Marshal refuses makes the whole choice unmarshallable, so the choice knows no field |
| StreamProperties.StaleForeignDeltaMakesAllKeysExtensions | json.go:83-100 | a payload without "delta", decoded into such a choice, stores all of its keys as choice extensions |
| ExactWire.ValueRoundTrip | json.go:110-118 | what the exact printer prints for an encodable value, followed by any bytes, parses back as that value with those bytes left over |
| ExactWire.ParsedEncodable | json.go:115-118 | every value the exact parser reads can be printed |
| ExactWire.ExactIsLawful | json.go:110-118 | the exact wire is lawful, so the lemmas that assume a lawful wire hold of at least one wire |
| StreamProperties.ExactDeltaEncodes | chat_stream.go:27-38 | on the exact wire, a delta with only content set and encodable extensions encodes to the printing of its fields merged with the extensions |
| StreamProperties.ExactDeltaRoundTrip | chat_stream.go:18-38 | on the exact wire, a delta with only content set and one extension outside its names encodes and decodes back to its fields, its extension map, the bytes as RawData and the extension's printing |
| StreamProperties.ExactEmptyContentIsExtension | chat_stream.go:9 | on the exact wire, `{"content":""}` decoded into the zero delta succeeds and leaves "content" as the one extension |

## Left out

- The byte-level JSON printer and parser of encoding/json are not modelled. They are an abstract `Wire`, assumed `Lawful` where a lemma needs it. Key order, whitespace and number formatting are not modelled either. The one concrete lawful wire, `ExactWire.Exact`, is a binary format and not encoding/json's text.
- Go's case-insensitive matching of JSON keys to struct fields is not modelled: a key matches only its exact tag name.
- float64 values are kept as the literal they were read from (mantissa and decimal exponent), so rounding to the nearest double and shortest re-printing are absent: `1.50` and `1.5` are different numbers here. NaN and infinities are represented only as a foreign, unmarshallable value (`JForeign`).
- int and int64 fields are modelled as unbounded integers, so range overflow errors are not modelled.
- EncodeMergePrecedence, TopLogprobRoundTrip: when extensions are present, Go re-reads the base bytes into a `map[string]interface{}` (json.go:141-142) and prints that map (json.go:151), so every base number passes through float64. An integer beyond ±2^53 is then rounded: `bytes: [9007199254740993]` prints as `9007199254740992`, and `9223372036854775807` prints as `9223372036854775808`, which UnmarshalJSON rejects as an int64 overflow. The model's wire returns base values exactly, so the "base values elsewhere" of EncodeMergePrecedence and the exact field recovery of TopLogprobRoundTrip, RoundTrip, ExtensionsRecovered, DeltaRoundTrip and PromptFilterResultExtensionsRecovered hold only for integers within ±2^53. The same applies to a choice's index, a response's created, and tool-call indices.
- Decode: the struct decode and the map decode share one parse of the payload, so `MapError` is never produced for these record types. In Go the map decode (json.go:78-80) converts every number to float64 and fails on a literal outside float64's range, such as `1e400`, even in a member that the struct decode skipped.
- DecNumber: accepts any number literal, including those outside float64's range, where encoding/json reports a type error for a float64 field.
- UnmarshalEach: each target is modelled only as its decode's error result; what a target holds afterwards, including a target partly filled before it failed, is not modelled.
- DecIntValue: accepts exactly the literals whose exponent is 0. The literal `1e0` is `Number(1, 0)`, the same as `1`, so it is accepted where strconv.ParseInt rejects it.
- DecIntSlice: an item past the old slice's length decodes into a zero element; Go reuses elements up to the old capacity, which is not modelled.
- ChoiceExtensionsRecovered: takes as premises that the choice's decoder accepts the encoded payload and that the fields it reads print as an encodable object; that nested records read back print again is not proved.
- Extension recovery is instantiated per type for Delta, TopLogprob, PromptFilterResult and Choice. For TokenLogprob, Logprobs and the stream response only the generic `Codec.ExtensionsRecovered` applies, without a proof of its premises for those types.
- Extension values are modelled as their JSON printing (`JValue`), so Go values of different types that print alike are the same value here. A `[]string` or an `int` stored by SetExtension comes back from a decode as `[]interface{}` or `float64`. The round-trip lemmas recover extensions only up to that printing.
- A nil slice and an empty slice are not distinguished. An empty slice prints as `[]`, whereas a nil slice without omitempty would print as `null`.
- Decoding into a slice of records always starts each element from the zero record. Elements of an existing slice are not reused.
- An error inside one element or nested record does not stop the decoding of sibling fields. The error is reported after all fields are read, and only whether some error occurred is kept, not which one. That a nested record's failure fails the enclosing decode is stated by the ok clauses of `DecRecord`, `DecRecordPointer` and `DecRecordSlice`, and `ChoiceStringDeltaFails` traces it to the enclosing record's target error.
- A nested record is decoded from the canonical printing of its member (`w.marshal(member)`), not from the exact byte span of the input. So its RawData is that printing.
- Every record's UnmarshalJSON receives its receiver, and returns it, as a record value rather than updating it through a pointer. Only the embedded store is a `RawExtensions` object updated in place.
- FinishReason, ContentFilterResults, FunctionCall, ToolCall, PromptAnnotation and Usage are carried as the JSON values they print. The files defining them are not part of this model, so their own encoders and type checks are absent. FinishReason's custom null encoding is one example. Also, for a struct or pointer field (ContentFilterResults, FunctionCall, Usage, the ToolCall elements), encoding/json decodes an object member by member into the existing value, whereas `DecValue` and `DecPointer` replace the value with the member. The "from any previous value" of `PromptFilterResultExtensionsRecovered` rests on that replacement.
- MarshalWithExtensions is never handed a base that prints as `null`, because the alias pointer is never nil. On such a base, Encode reports a base-unmarshal error where Go would panic on the nil map.
- GetExtensions returns the map's entries as a value. That the caller can mutate the store's map through the returned pointer (aliasing) is not modelled.
- Concurrent access to a store is not modelled.
- CreateChatCompletionStream (chat_stream.go:221-255) and the stream reader are not modelled. They are HTTP request construction and I/O, whose code is not part of this model.
