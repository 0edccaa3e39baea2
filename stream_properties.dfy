/**
 * What the stream records promise: which keys each MarshalJSON prints, that
 * the schema fields are never taken for extensions, that nested records
 * keep their own stores, and when an encode followed by a decode gives the
 * record back.
 */
module StreamProperties {
  import opened Json
  import opened Extensions
  import opened Codec
  import opened FieldDecoding
  import opened ChatStream
  import opened ExactWire

  // Which keys each record prints.

  /** Every field of the delta is omitempty: it is printed exactly when it is set. */
  lemma DeltaEmission(f: DeltaFields)
    ensures var m := EmitDelta(f);
            && ("content" in m <==> f.content != "")
            && ("reasoning_content" in m <==> f.reasoningContent != "")
            && ("role" in m <==> f.role != "")
            && ("function_call" in m <==> f.functionCall.Some?)
            && ("tool_calls" in m <==> |f.toolCalls| > 0)
            && ("refusal" in m <==> f.refusal != "")
            && (f.content != "" ==> m["content"] == JStr(f.content))
            && (f.reasoningContent != "" ==> m["reasoning_content"] == JStr(f.reasoningContent))
            && (f.role != "" ==> m["role"] == JStr(f.role))
            && (f.functionCall.Some? ==> m["function_call"] == f.functionCall.value)
            && (|f.toolCalls| > 0 ==> m["tool_calls"] == JArr(f.toolCalls))
            && (f.refusal != "" ==> m["refusal"] == JStr(f.refusal))
            && m.Keys <= DeltaNames && m.Keys !! StoreFieldNames
  {
    var fs := DeltaTags(f);
    EmittedKeysWithin(fs, DeltaNames);
    NamesOutsideStore();
    OutsideStore(EmitFields(fs).Keys, DeltaNames);
    EmittedKey(fs, 0);
    EmittedKey(fs, 1);
    EmittedKey(fs, 2);
    EmittedKey(fs, 3);
    EmittedKey(fs, 4);
    EmittedKey(fs, 5);
  }

  /** A top logprob has no omitempty field: token, bytes and logprob are always printed. */
  lemma TopLogprobEmission(f: TopLogprobFields)
    ensures var m := EmitTopLogprob(f);
            && m.Keys == TopLogprobNames
            && m["token"] == JStr(f.token)
            && m["bytes"] == IntArray(f.bytes)
            && m["logprob"] == JNum(f.logprob)
            && m.Keys !! StoreFieldNames
  {
    var fs := TopLogprobTags(f);
    EmittedKeysWithin(fs, TopLogprobNames);
    NamesOutsideStore();
    OutsideStore(EmitFields(fs).Keys, TopLogprobNames);
    EmittedKey(fs, 0);
    EmittedKey(fs, 1);
    EmittedKey(fs, 2);
  }

  /** A token logprob always prints token and top_logprobs; bytes and logprob only when set. */
  lemma TokenLogprobEmission(f: TokenLogprobFields)
    ensures var m := EmitTokenLogprob(f);
            && "token" in m && m["token"] == JStr(f.token)
            && "top_logprobs" in m && m["top_logprobs"] == JArr(EncodeRecords(EmitTopLogprob, f.topLogprobs))
            && ("bytes" in m <==> |f.bytes| > 0)
            && ("logprob" in m <==> !IsZero(f.logprob))
            && (|f.bytes| > 0 ==> m["bytes"] == IntArray(f.bytes))
            && (!IsZero(f.logprob) ==> m["logprob"] == JNum(f.logprob))
            && m.Keys <= TokenLogprobNames && m.Keys !! StoreFieldNames
  {
    var fs := TokenLogprobTags(f);
    EmittedKeysWithin(fs, TokenLogprobNames);
    NamesOutsideStore();
    OutsideStore(EmitFields(fs).Keys, TokenLogprobNames);
    EmittedKey(fs, 0);
    EmittedKey(fs, 1);
    EmittedKey(fs, 2);
    EmittedKey(fs, 3);
  }

  /** The choice logprobs print each list only when it is non-empty. */
  lemma LogprobsEmission(f: LogprobsFields)
    ensures var m := EmitLogprobs(f);
            && ("content" in m <==> |f.content| > 0)
            && ("refusal" in m <==> |f.refusal| > 0)
            && (|f.content| > 0 ==> m["content"] == JArr(EncodeRecords(EmitTokenLogprob, f.content)))
            && (|f.refusal| > 0 ==> m["refusal"] == JArr(EncodeRecords(EmitTokenLogprob, f.refusal)))
            && m.Keys <= LogprobsNames && m.Keys !! StoreFieldNames
  {
    var fs := LogprobsTags(f);
    EmittedKeysWithin(fs, LogprobsNames);
    NamesOutsideStore();
    OutsideStore(EmitFields(fs).Keys, LogprobsNames);
    EmittedKey(fs, 0);
    EmittedKey(fs, 1);
  }

  /**
   * A choice always prints index, delta (through the delta's own
   * MarshalJSON), finish_reason and content_filter_results, whose omitempty
   * has no effect on a struct; logprobs is printed exactly when the pointer
   * is set.
   */
  lemma ChoiceEmission(f: ChoiceFields)
    ensures var m := EmitChoice(f);
            && "index" in m && m["index"] == JNum(IntNumber(f.index))
            && "delta" in m && m["delta"] == JObj(Encoded(EmitDelta, f.delta))
            && "finish_reason" in m && m["finish_reason"] == f.finishReason
            && "content_filter_results" in m && m["content_filter_results"] == f.contentFilterResults
            && ("logprobs" in m <==> f.logprobs.Some?)
            && (f.logprobs.Some? ==> m["logprobs"] == JObj(Encoded(EmitLogprobs, f.logprobs.value)))
            && m.Keys <= ChoiceNames && m.Keys !! StoreFieldNames
  {
    var fs := ChoiceTags(f);
    EmittedKeysWithin(fs, ChoiceNames);
    NamesOutsideStore();
    OutsideStore(EmitFields(fs).Keys, ChoiceNames);
    EmittedKey(fs, 0);
    EmittedKey(fs, 1);
    EmittedKey(fs, 2);
    EmittedKey(fs, 3);
    EmittedKey(fs, 4);
  }

  /** A prompt filter result always prints both of its fields. */
  lemma PromptFilterResultEmission(f: PromptFilterResultFields)
    ensures var m := EmitPromptFilterResult(f);
            && m.Keys == PromptFilterResultNames
            && m["index"] == JNum(IntNumber(f.index))
            && m["content_filter_results"] == f.contentFilterResults
            && m.Keys !! StoreFieldNames
  {
    var fs := PromptFilterResultTags(f);
    EmittedKeysWithin(fs, PromptFilterResultNames);
    NamesOutsideStore();
    OutsideStore(EmitFields(fs).Keys, PromptFilterResultNames);
    EmittedKey(fs, 0);
    EmittedKey(fs, 1);
  }

  /**
   * A response always prints id, object, created, model, choices and
   * system_fingerprint; prompt_annotations, prompt_filter_results and usage
   * only when set.
   */
  lemma ResponseEmission(f: ResponseFields)
    ensures var m := EmitResponse(f);
            && "id" in m && m["id"] == JStr(f.id)
            && "object" in m && m["object"] == JStr(f.objectKind)
            && "created" in m && m["created"] == JNum(IntNumber(f.created))
            && "model" in m && m["model"] == JStr(f.model)
            && "choices" in m && m["choices"] == JArr(EncodeRecords(EmitChoice, f.choices))
            && "system_fingerprint" in m && m["system_fingerprint"] == JStr(f.systemFingerprint)
            && ("prompt_annotations" in m <==> |f.promptAnnotations| > 0)
            && ("prompt_filter_results" in m <==> |f.promptFilterResults| > 0)
            && ("usage" in m <==> f.usage.Some?)
            && (|f.promptAnnotations| > 0 ==> m["prompt_annotations"] == JArr(f.promptAnnotations))
            && (|f.promptFilterResults| > 0 ==>
                  m["prompt_filter_results"] == JArr(EncodeRecords(EmitPromptFilterResult, f.promptFilterResults)))
            && (f.usage.Some? ==> m["usage"] == f.usage.value)
            && m.Keys <= ResponseNames && m.Keys !! StoreFieldNames
  {
    var fs := ResponseTags(f);
    EmittedKeysWithin(fs, ResponseNames);
    NamesOutsideStore();
    OutsideStore(EmitFields(fs).Keys, ResponseNames);
    EmittedKey(fs, 0);
    EmittedKey(fs, 1);
    EmittedKey(fs, 2);
    EmittedKey(fs, 3);
    EmittedKey(fs, 4);
    EmittedKey(fs, 5);
    EmittedKey(fs, 6);
    EmittedKey(fs, 7);
    EmittedKey(fs, 8);
  }

  /** None of the record's own tag names is the name of a store field. */
  lemma OutsideStore(keys: set<string>, names: set<string>)
    requires keys <= names
    requires names !! StoreFieldNames
    ensures keys !! StoreFieldNames
  {
  }

  /** Every tag name starts in lower case, every store field in upper case. */
  lemma NamesOutsideStore()
    ensures DeltaNames !! StoreFieldNames && TopLogprobNames !! StoreFieldNames
    ensures TokenLogprobNames !! StoreFieldNames && LogprobsNames !! StoreFieldNames
    ensures ChoiceNames !! StoreFieldNames && PromptFilterResultNames !! StoreFieldNames
    ensures ResponseNames !! StoreFieldNames
  {
    forall k | k in StoreFieldNames
      ensures 'A' <= k[0] <= 'Z'
    {
    }
  }

  /**
   * The known fields of a decoded delta are exactly its non-empty fields
   * (when the delta can be marshalled at all).
   */
  lemma DeltaKnownFields(w: Wire, f: DeltaFields)
    requires Lawful(w) && EncodableMap(EmitDelta(f))
    ensures var known := KnownFieldsOf(w, JObj(EmitDelta(f)));
            && known <= DeltaNames
            && ("content" in known <==> f.content != "")
            && ("reasoning_content" in known <==> f.reasoningContent != "")
            && ("role" in known <==> f.role != "")
            && ("function_call" in known <==> f.functionCall.Some?)
            && ("tool_calls" in known <==> |f.toolCalls| > 0)
            && ("refusal" in known <==> f.refusal != "")
  {
    DeltaEmission(f);
    KnownWithin(w, EmitDelta(f));
  }

  /** A merged key the extensions do not carry reads as in the base. */
  lemma MergeAt(base: map<string, JValue>, ext: map<string, JValue>, k: string)
    requires k !in ext
    ensures k in base + ext <==> k in base
    ensures k in base ==> (base + ext)[k] == base[k]
  {
  }

  // Decoding what the records print.

  /**
   * The delta's alias decoder, started from the zero delta, reads back every
   * field from the object the delta prints, whatever extension keys outside
   * the delta's own names sit beside them.  (A function_call that prints as
   * null would read back as nil.)
   */
  lemma DeltaDecodeRecovers(f: DeltaFields, ext: map<string, JValue>)
    requires f.functionCall != Some(JNull)
    requires ext.Keys !! DeltaNames
    ensures DeltaDec()(ZeroDelta, JObj(EmitDelta(f) + ext)) == Decoded(f, true)
  {
    DeltaEmission(f);
    var base := EmitDelta(f);
    var m := base + ext;
    assert DecString(m, "content", "") == Decoded(f.content, true) by { MergeAt(base, ext, "content"); }
    assert DecString(m, "reasoning_content", "") == Decoded(f.reasoningContent, true) by {
      MergeAt(base, ext, "reasoning_content");
    }
    assert DecString(m, "role", "") == Decoded(f.role, true) by { MergeAt(base, ext, "role"); }
    assert DecPointer(m, "function_call", None) == Decoded(f.functionCall, true) by {
      MergeAt(base, ext, "function_call");
    }
    assert DecSlice(m, "tool_calls", []) == Decoded(f.toolCalls, true) by { MergeAt(base, ext, "tool_calls"); }
    assert DecString(m, "refusal", "") == Decoded(f.refusal, true) by { MergeAt(base, ext, "refusal"); }
    assert DeltaDec()(ZeroDelta, JObj(m)) == DecodeDelta(ZeroDelta, JObj(m));
    assert DecodeDelta(ZeroDelta, JObj(m)) == Decoded(f, true);
  }

  /**
   * Round trip of a delta: MarshalJSON of a delta whose extension keys are
   * none of the delta's field names, then UnmarshalJSON into a zero delta,
   * gives back the fields, exactly the extension map, the bytes as RawData
   * and the extension subset re-serialised as ExtensionRawData.
   */
  lemma DeltaRoundTrip(w: Wire, r: Delta, prev: Store, data: Bytes)
    requires Lawful(w)
    requires EncodableMap(EmitDelta(r.fields)) && EncodableMap(ExtensionMap(r.ext))
    requires |ExtensionMap(r.ext)| > 0 && ExtensionMap(r.ext).Keys !! DeltaNames
    requires r.fields.functionCall != Some(JNull)
    requires Encode(w, JObj(EmitDelta(r.fields)), ExtensionMap(r.ext)) == Ok(data)
    ensures Decode(w, DeltaDec(), EmitDelta, Record(ZeroDelta, prev), data)
            == (Record(r.fields, Store(Some(ExtensionMap(r.ext)), data, w.marshal(JObj(ExtensionMap(r.ext))))), None)
  {
    DeltaEmission(r.fields);
    DeltaDecodeRecovers(r.fields, ExtensionMap(r.ext));
    RoundTrip(w, DeltaDec(), EmitDelta, r, Record(ZeroDelta, prev), data);
  }

  /**
   * A payload `{"content": ""}` decodes to an empty content, which the delta
   * does not print, so the key is stored as an extension, and printing the
   * delta again writes it back.
   */
  lemma DeltaEmptyContentIsExtension(w: Wire, prev: Delta, data: Bytes)
    requires Lawful(w)
    requires w.unmarshal(data) == Some(JObj(map["content" := JStr("")]))
    ensures var (d, err) := Decode(w, DeltaDec(), EmitDelta, prev, data);
            && err.None?
            && d.fields == prev.fields.(content := "")
            && d.ext.extensions == Some(map["content" := JStr("")])
            && "content" in Encoded(EmitDelta, d) && Encoded(EmitDelta, d)["content"] == JStr("")
  {
    var payload := map["content" := JStr("")];
    var f := prev.fields.(content := "");
    ContentPayloadDecodes(prev.fields, "");
    EmptyContentUnknown(w, f);
    NothingKnown(payload, KnownFieldsOf(w, JObj(EmitDelta(f))));
    DecodeObject(w, DeltaDec(), EmitDelta, prev, data, payload, f);
  }

  /** A payload holding only "content" sets the content and nothing else. */
  lemma ContentPayloadDecodes(prev: DeltaFields, s: string)
    ensures DeltaDec()(prev, JObj(map["content" := JStr(s)])) == Decoded(prev.(content := s), true)
  {
  }

  /** An empty content is not printed, so "content" is not a known field. */
  lemma EmptyContentUnknown(w: Wire, f: DeltaFields)
    requires Lawful(w) && f.content == ""
    ensures "content" !in KnownFieldsOf(w, JObj(EmitDelta(f)))
  {
    DeltaEmission(f);
    KnownWithin(w, EmitDelta(f));
  }

  /** When no payload key is known, the whole payload is the extension set. */
  lemma NothingKnown(all: map<string, JValue>, known: set<string>)
    requires all.Keys !! known
    ensures ExtensionFields(all, known) == all
  {
  }

  /**
   * Keeping extension keys apart from the keys a delta prints is not enough
   * for a round trip: an extension named "content" beside an empty content
   * is printed, then read back into the content field, and the extension is
   * lost.  The round trip needs extension keys outside all of the delta's
   * field names, as DeltaRoundTrip requires.
   */
  lemma DeltaExtensionShadowsEmptyField(w: Wire, data: Bytes)
    requires Lawful(w)
    requires data == w.marshal(JObj(map["content" := JStr("hi")]))
    ensures EmitDelta(ZeroDelta).Keys !! {"content"}
    ensures Encode(w, JObj(EmitDelta(ZeroDelta)), map["content" := JStr("hi")]) == Ok(data)
    ensures var (d, err) := Decode(w, DeltaDec(), EmitDelta, Record(ZeroDelta, EmptyStore), data);
            && err.None?
            && d.fields == ZeroDelta.(content := "hi")
            && d.ext.extensions == None
  {
    var ext := map["content" := JStr("hi")];
    ShadowEncodes(w, ext, data);
    var f := ZeroDelta.(content := "hi");
    assert DeltaDec()(ZeroDelta, JObj(ext)) == Decoded(f, true);
    DecodeObject(w, DeltaDec(), EmitDelta, Record(ZeroDelta, EmptyStore), data, ext, f);
    ContentOnlyEncodable(w, "hi");
    assert ExtensionFields(ext, KnownFieldsOf(w, JObj(EmitDelta(f)))) == map[];
  }

  /** The zero delta prints nothing, so printing it with extensions prints the extensions. */
  lemma ShadowEncodes(w: Wire, ext: map<string, JValue>, data: Bytes)
    requires Lawful(w) && EncodableMap(ext) && |ext| > 0
    requires data == w.marshal(JObj(ext))
    ensures EmitDelta(ZeroDelta) == map[]
    ensures Encode(w, JObj(EmitDelta(ZeroDelta)), ext) == Ok(data)
    ensures w.unmarshal(data) == Some(JObj(ext))
  {
    DeltaEmission(ZeroDelta);
    assert EmitDelta(ZeroDelta) == map[];
    assert EmitDelta(ZeroDelta) + ext == ext;
    EncodeMergePrecedence(w, EmitDelta(ZeroDelta), ext);
  }

  /** A delta with only its content set prints just that string, so its known fields are {"content"}. */
  lemma ContentOnlyEncodable(w: Wire, content: string)
    requires Lawful(w) && content != ""
    ensures KnownFieldsOf(w, JObj(EmitDelta(ZeroDelta.(content := content)))) == {"content"}
  {
    var m := EmitDelta(ZeroDelta.(content := content));
    DeltaEmission(ZeroDelta.(content := content));
    assert m.Keys == {"content"};
    assert EncodableMap(m);
    KnownWithin(w, m);
  }

  // Top logprobs.

  /** Everything a top logprob prints can be marshalled. */
  lemma TopLogprobEncodable(f: TopLogprobFields)
    ensures EncodableMap(EmitTopLogprob(f))
  {
    TopLogprobEmission(f);
    assert Encodable(IntArray(f.bytes));
  }

  /**
   * token, bytes and logprob are always printed, so they are always known:
   * a decode either leaves the extensions as they were or stores only keys
   * outside those three.
   */
  lemma TopLogprobFieldsNeverExtensions(w: Wire, r: TopLogprob, data: Bytes)
    requires Lawful(w)
    requires Decode(w, TopLogprobDec(), EmitTopLogprob, r, data).1.None?
    ensures var d := Decode(w, TopLogprobDec(), EmitTopLogprob, r, data).0;
            || d.ext.extensions == r.ext.extensions
            || (d.ext.extensions.Some? && d.ext.extensions.value.Keys !! TopLogprobNames)
  {
    var d := Decode(w, TopLogprobDec(), EmitTopLogprob, r, data).0;
    TopLogprobEmission(d.fields);
    TopLogprobEncodable(d.fields);
    DecodeSplitsPayload(w, TopLogprobDec(), EmitTopLogprob, r, data);
  }

  /** The printed bytes list reads back as the same integers. */
  lemma IntArrayRecovers(xs: seq<int>, m: map<string, JValue>, prev: seq<int>)
    requires "bytes" in m && m["bytes"] == IntArray(xs)
    ensures DecIntSlice(m, "bytes", prev) == Decoded(xs, true)
  {
    var items := IntArray(xs).items;
    assert forall i :: 0 <= i < |items| ==> items[i] == JNum(IntNumber(xs[i]));
    var elems := seq(|items|, i requires 0 <= i < |items| => DecIntValue(items[i], Reused(prev, i)));
    assert forall i :: 0 <= i < |elems| ==> elems[i] == Decoded(xs[i], true);
    assert seq(|elems|, i requires 0 <= i < |elems| => elems[i].value) == xs;
  }

  /** A top logprob's decoder reads back its three fields from any previous value. */
  lemma TopLogprobDecodeRecovers(f: TopLogprobFields, ext: map<string, JValue>, prev: TopLogprobFields)
    requires ext.Keys !! TopLogprobNames
    ensures TopLogprobDec()(prev, JObj(EmitTopLogprob(f) + ext)) == Decoded(f, true)
  {
    TopLogprobEmission(f);
    var base := EmitTopLogprob(f);
    MergeAt(base, ext, "token");
    MergeAt(base, ext, "bytes");
    MergeAt(base, ext, "logprob");
    IntArrayRecovers(f.bytes, base + ext, prev.bytes);
    TopLogprobReads(f, base + ext, prev);
  }

  /** An object holding a top logprob's three printed members decodes to exactly those fields. */
  lemma TopLogprobReads(f: TopLogprobFields, m: map<string, JValue>, prev: TopLogprobFields)
    requires "token" in m && m["token"] == JStr(f.token)
    requires "logprob" in m && m["logprob"] == JNum(f.logprob)
    requires DecIntSlice(m, "bytes", prev.bytes) == Decoded(f.bytes, true)
    ensures TopLogprobDec()(prev, JObj(m)) == Decoded(f, true)
  {
    assert TopLogprobDec()(prev, JObj(m)) == DecodeTopLogprob(prev, JObj(m));
  }

  /** Round trip of a top logprob with extensions, from any previous value. */
  lemma TopLogprobRoundTrip(w: Wire, r: TopLogprob, prev: TopLogprob, data: Bytes)
    requires Lawful(w)
    requires EncodableMap(ExtensionMap(r.ext))
    requires |ExtensionMap(r.ext)| > 0 && ExtensionMap(r.ext).Keys !! TopLogprobNames
    requires Encode(w, JObj(EmitTopLogprob(r.fields)), ExtensionMap(r.ext)) == Ok(data)
    ensures Decode(w, TopLogprobDec(), EmitTopLogprob, prev, data)
            == (Record(r.fields, Store(Some(ExtensionMap(r.ext)), data, w.marshal(JObj(ExtensionMap(r.ext))))), None)
  {
    TopLogprobEmission(r.fields);
    TopLogprobEncodable(r.fields);
    TopLogprobDecodeRecovers(r.fields, ExtensionMap(r.ext), prev.fields);
    RoundTrip(w, TopLogprobDec(), EmitTopLogprob, r, prev, data);
  }

  /**
   * Round trip of a prompt filter result with extensions, from any previous
   * value: the index and exactly the extension map come back, and so does
   * content_filter_results unless it prints as null, which keeps the
   * previous value.
   */
  lemma PromptFilterResultExtensionsRecovered(w: Wire, r: PromptFilterResult, prev: PromptFilterResult, data: Bytes)
    requires Lawful(w)
    requires Encodable(r.fields.contentFilterResults) && Encodable(prev.fields.contentFilterResults)
    requires EncodableMap(ExtensionMap(r.ext))
    requires |ExtensionMap(r.ext)| > 0 && ExtensionMap(r.ext).Keys !! PromptFilterResultNames
    requires Encode(w, JObj(EmitPromptFilterResult(r.fields)), ExtensionMap(r.ext)) == Ok(data)
    ensures var (d, err) := Decode(w, PromptFilterResultDec(), EmitPromptFilterResult, prev, data);
            && err.None?
            && d.fields.index == r.fields.index
            && (r.fields.contentFilterResults != JNull ==> d.fields == r.fields)
            && (r.fields.contentFilterResults == JNull ==>
                  d.fields.contentFilterResults == prev.fields.contentFilterResults)
            && d.ext == Store(Some(ExtensionMap(r.ext)), data, w.marshal(JObj(ExtensionMap(r.ext))))
  {
    var base, ext := EmitPromptFilterResult(r.fields), ExtensionMap(r.ext);
    var cfr := r.fields.contentFilterResults;
    var f := PromptFilterResultFields(r.fields.index, if cfr != JNull then cfr else prev.fields.contentFilterResults);
    PromptFilterResultReads(r.fields, ext, prev.fields);
    PromptFilterResultPrintable(r.fields);
    PromptFilterResultPrintable(f);
    PromptFilterResultEmission(r.fields);
    PromptFilterResultEmission(f);
    ExtensionsRecovered(w, PromptFilterResultDec(), EmitPromptFilterResult, r, prev, data, f);
  }

  /** The prompt filter result's decoder reads back the index, and content_filter_results unless null. */
  lemma PromptFilterResultReads(f: PromptFilterResultFields, ext: map<string, JValue>, prev: PromptFilterResultFields)
    requires ext.Keys !! PromptFilterResultNames
    ensures var cfr := if f.contentFilterResults != JNull then f.contentFilterResults else prev.contentFilterResults;
            PromptFilterResultDec()(prev, JObj(EmitPromptFilterResult(f) + ext))
            == Decoded(PromptFilterResultFields(f.index, cfr), true)
  {
    var base := EmitPromptFilterResult(f);
    PromptFilterResultEmission(f);
    MergeAt(base, ext, "index");
    MergeAt(base, ext, "content_filter_results");
  }

  /** A prompt filter result whose content_filter_results prints can be printed. */
  lemma PromptFilterResultPrintable(f: PromptFilterResultFields)
    requires Encodable(f.contentFilterResults)
    ensures EncodableMap(EmitPromptFilterResult(f))
  {
    PromptFilterResultEmission(f);
    var m := EmitPromptFilterResult(f);
    forall k | k in m
      ensures Encodable(m[k])
    {
      assert k == "index" || k == "content_filter_results";
    }
  }

  /**
   * Round trip of a choice with extensions, decoded into the zero choice:
   * although the nested delta and logprobs come back with their own RawData
   * rather than as they were, the choice prints the same keys, so its
   * extension map and extension bytes come back exactly.
   */
  lemma ChoiceExtensionsRecovered(w: Wire, r: Choice, prev: Store, data: Bytes, f: ChoiceFields)
    requires Lawful(w)
    requires EncodableMap(EmitChoice(r.fields)) && EncodableMap(ExtensionMap(r.ext))
    requires |ExtensionMap(r.ext)| > 0 && ExtensionMap(r.ext).Keys !! ChoiceNames
    requires Encode(w, JObj(EmitChoice(r.fields)), ExtensionMap(r.ext)) == Ok(data)
    requires ChoiceDec(w)(ZeroChoice, JObj(Encoded(EmitChoice, r))) == Decoded(f, true)
    requires EncodableMap(EmitChoice(f))
    ensures Decode(w, ChoiceDec(w), EmitChoice, Record(ZeroChoice, prev), data)
            == (Record(f, Store(Some(ExtensionMap(r.ext)), data, w.marshal(JObj(ExtensionMap(r.ext))))), None)
  {
    ChoiceReadsLogprobs(w, r.fields, ExtensionMap(r.ext));
    ChoiceKeys(f, r.fields);
    ChoiceEmission(r.fields);
    ExtensionsRecovered(w, ChoiceDec(w), EmitChoice, r, Record(ZeroChoice, prev), data, f);
  }

  /** Decoded into the zero choice, what a choice prints has logprobs exactly when the choice has. */
  lemma ChoiceReadsLogprobs(w: Wire, f: ChoiceFields, ext: map<string, JValue>)
    requires ext.Keys !! ChoiceNames
    ensures ChoiceDec(w)(ZeroChoice, JObj(EmitChoice(f) + ext)).value.logprobs.Some? <==> f.logprobs.Some?
  {
    var base := EmitChoice(f);
    var m := base + ext;
    ChoiceEmission(f);
    MergeAt(base, ext, "logprobs");
    DecodeChoiceLogprobs(w, m);
    assert ChoiceDec(w)(ZeroChoice, JObj(m)) == DecodeChoice(w, ZeroChoice, JObj(m));
  }

  /** Decoded into the zero choice, an object sets logprobs exactly when it has a non-null "logprobs". */
  lemma DecodeChoiceLogprobs(w: Wire, m: map<string, JValue>)
    ensures DecodeChoice(w, ZeroChoice, JObj(m)).value.logprobs.Some? <==> "logprobs" in m && m["logprobs"] != JNull
  {
    var logprobs := DecRecordPointer(w, LogprobsDec(w), EmitLogprobs, ZeroLogprobs, m, "logprobs", None);
    assert DecodeChoice(w, ZeroChoice, JObj(m)).value.logprobs == logprobs.value;
  }

  /** Two choices print the same keys when both or neither have logprobs. */
  lemma ChoiceKeys(a: ChoiceFields, b: ChoiceFields)
    requires a.logprobs.Some? == b.logprobs.Some?
    ensures EmitChoice(a).Keys == EmitChoice(b).Keys
  {
    ChoiceKeySet(a);
    ChoiceKeySet(b);
  }

  /** The keys a choice prints: all its names, logprobs only when set. */
  lemma ChoiceKeySet(f: ChoiceFields)
    ensures EmitChoice(f).Keys == if f.logprobs.Some? then ChoiceNames else ChoiceNames - {"logprobs"}
  {
    ChoiceEmission(f);
    ChoiceNamesCovered(EmitChoice(f).Keys, f.logprobs.Some?);
  }

  /** A set of choice names holding the four always-printed ones is fixed by whether it holds logprobs. */
  lemma ChoiceNamesCovered(keys: set<string>, logprobs: bool)
    requires keys <= ChoiceNames && ("logprobs" in keys <==> logprobs)
    requires "index" in keys && "delta" in keys && "finish_reason" in keys && "content_filter_results" in keys
    ensures keys == if logprobs then ChoiceNames else ChoiceNames - {"logprobs"}
  {
    forall k | k in ChoiceNames && (logprobs || k != "logprobs")
      ensures k in keys
    {
      assert k == "index" || k == "delta" || k == "logprobs" || k == "finish_reason" || k == "content_filter_results";
    }
  }

  // Nested records.

  /**
   * A nested record's own UnmarshalJSON error fails the enclosing record: a
   * choice whose "delta" member is a string reports "failed to unmarshal
   * target" and keeps only the new RawData.
   */
  lemma ChoiceStringDeltaFails(w: Wire, r: Choice, data: Bytes, m: map<string, JValue>, s: string)
    requires Lawful(w)
    requires w.unmarshal(data) == Some(JObj(m))
    requires "delta" in m && m["delta"] == JStr(s)
    ensures Decode(w, ChoiceDec(w), EmitChoice, r, data).1 == Some(TargetError)
    ensures Decode(w, ChoiceDec(w), EmitChoice, r, data).0.ext == r.ext.(rawData := data)
  {
    assert Encodable(JStr(s));
    assert w.unmarshal(w.marshal(JStr(s))) == Some(JStr(s));
    var delta := DecRecord(w, DeltaDec(), EmitDelta, m, "delta", r.fields.delta);
    assert !delta.ok;
    assert ChoiceDec(w)(r.fields, JObj(m)) == DecodeChoice(w, r.fields, JObj(m));
    assert !ChoiceDec(w)(r.fields, JObj(m)).ok;
  }

  /**
   * A choice hands the "delta" member to the delta's own UnmarshalJSON: the
   * delta is decoded from that member's bytes into its own store, which
   * keeps those bytes, not the choice's.
   */
  lemma ChoiceDeltaOwnStore(w: Wire, r: Choice, data: Bytes, m: map<string, JValue>)
    requires w.unmarshal(data) == Some(JObj(m)) && "delta" in m
    requires Decode(w, ChoiceDec(w), EmitChoice, r, data).1.None?
    ensures var d := Decode(w, ChoiceDec(w), EmitChoice, r, data).0;
            && d.fields.delta == Decode(w, DeltaDec(), EmitDelta, r.fields.delta, w.marshal(m["delta"])).0
            && d.fields.delta.ext.rawData == w.marshal(m["delta"])
            && d.ext.rawData == data
  {
    var res := Decode(w, ChoiceDec(w), EmitChoice, r, data);
    var top := DecodeChoice(w, r.fields, JObj(m));
    assert res.0.fields == top.value;
  }

  /**
   * Each element of "choices" is decoded by the choice's own UnmarshalJSON,
   * from the zero choice and the element's own bytes.
   */
  lemma ResponseChoicesOwnStores(w: Wire, r: Response, data: Bytes, m: map<string, JValue>, items: seq<JValue>)
    requires w.unmarshal(data) == Some(JObj(m)) && "choices" in m && m["choices"] == JArr(items)
    requires Decode(w, ResponseDec(w), EmitResponse, r, data).1.None?
    ensures var d := Decode(w, ResponseDec(w), EmitResponse, r, data).0;
            && |d.fields.choices| == |items|
            && (forall i :: 0 <= i < |items| ==>
                  d.fields.choices[i] == Decode(w, ChoiceDec(w), EmitChoice, Record(ZeroChoice, EmptyStore),
                                                w.marshal(items[i])).0)
            && (forall i :: 0 <= i < |items| ==> d.fields.choices[i].ext.rawData == w.marshal(items[i]))
  {
    var res := Decode(w, ResponseDec(w), EmitResponse, r, data);
    var top := DecodeResponse(w, r.fields, JObj(m));
    assert res.0.fields == top.value;
    SliceElements(w, ChoiceDec(w), EmitChoice, ZeroChoice, m, "choices", r.fields.choices, items);
  }

  /** A decoded slice of records has one element per array item, each decoded on its own. */
  lemma SliceElements<F>(w: Wire, dec: (F, JValue) -> Decoded<F>, emit: F -> map<string, JValue>, zero: F,
                         m: map<string, JValue>, key: string, prev: seq<Record<F>>, items: seq<JValue>)
    requires key in m && m[key] == JArr(items)
    ensures var rs := DecRecordSlice(w, dec, emit, zero, m, key, prev).value;
            && |rs| == |items|
            && forall i :: 0 <= i < |items| ==>
                 rs[i] == Decode(w, dec, emit, Record(zero, EmptyStore), w.marshal(items[i])).0
  {
  }

  /**
   * getKnownFields marshals the whole choice, nested delta included: one
   * extension of the delta that json.Marshal refuses makes the marshal fail,
   * and then the choice knows no field at all.
   */
  lemma ForeignDeltaExtensionHidesChoiceFields(w: Wire, f: ChoiceFields, key: string)
    requires key in ExtensionMap(f.delta.ext) && !Encodable(ExtensionMap(f.delta.ext)[key])
    ensures KnownFieldsOf(w, JObj(EmitChoice(f))) == {}
  {
    ChoiceEmission(f);
    var dm := Encoded(EmitDelta, f.delta);
    assert dm[key] == ExtensionMap(f.delta.ext)[key];
    assert !Encodable(JObj(dm));
    EncodableObject(EmitChoice(f));
  }

  /**
   * So a payload without "delta", decoded into a choice whose delta still
   * holds such an extension, stores every one of its keys (index,
   * finish_reason and the rest) as an extension of the choice.
   */
  lemma StaleForeignDeltaMakesAllKeysExtensions(w: Wire, r: Choice, data: Bytes, m: map<string, JValue>, key: string)
    requires w.unmarshal(data) == Some(JObj(m)) && "delta" !in m && |m| > 0
    requires key in ExtensionMap(r.fields.delta.ext) && !Encodable(ExtensionMap(r.fields.delta.ext)[key])
    requires Decode(w, ChoiceDec(w), EmitChoice, r, data).1.None?
    ensures Decode(w, ChoiceDec(w), EmitChoice, r, data).0.ext.extensions == Some(m)
  {
    var d := Decode(w, ChoiceDec(w), EmitChoice, r, data).0;
    assert d.fields.delta == r.fields.delta;
    ForeignDeltaExtensionHidesChoiceFields(w, d.fields, key);
    DecodeObject(w, ChoiceDec(w), EmitChoice, r, data, m, d.fields);
    NothingKnown(m, {});
  }

  // The lemmas above on a wire that meets their assumptions.

  /**
   * On the exact wire, a delta with only its content set and one extension
   * outside the delta's names prints and reads back whole: its fields, its
   * extension map, the bytes as RawData, the extension re-serialised.
   */
  lemma ExactDeltaRoundTrip(content: string, key: string, value: JValue)
    requires key !in DeltaNames && Encodable(value)
    ensures var f := ZeroDelta.(content := content);
            var ext := map[key := value];
            var data := Exact.marshal(JObj(EmitDelta(f) + ext));
            Decode(Exact, DeltaDec(), EmitDelta, Record(ZeroDelta, EmptyStore), data)
            == (Record(f, Store(Some(ext), data, Exact.marshal(JObj(ext)))), None)
  {
    var f := ZeroDelta.(content := content);
    var ext := map[key := value];
    var r := Record(f, Store(Some(ext), [], []));
    ExactIsLawful();
    ExactDeltaEncodes(f, ext);
    DeltaRoundTrip(Exact, r, EmptyStore, Exact.marshal(JObj(EmitDelta(f) + ext)));
  }

  /** A delta with only content set, and encodable extensions, prints on the exact wire. */
  lemma ExactDeltaEncodes(f: DeltaFields, ext: map<string, JValue>)
    requires f == ZeroDelta.(content := f.content) && EncodableMap(ext) && |ext| > 0
    ensures EncodableMap(EmitDelta(f))
    ensures Encode(Exact, JObj(EmitDelta(f)), ext) == Ok(Exact.marshal(JObj(EmitDelta(f) + ext)))
  {
    ExactIsLawful();
    ContentOnlyPrintable(f);
    EncodeMergePrecedence(Exact, EmitDelta(f), ext);
  }

  /** A delta with nothing but its content set prints only strings. */
  lemma ContentOnlyPrintable(f: DeltaFields)
    requires f == ZeroDelta.(content := f.content)
    ensures EncodableMap(EmitDelta(f))
  {
    DeltaEmission(f);
    var m := EmitDelta(f);
    forall k | k in m
      ensures Encodable(m[k])
    {
      assert k == "content";
    }
  }

  /** On the exact wire, `{"content":""}` decoded into the zero delta leaves "content" as an extension. */
  lemma ExactEmptyContentIsExtension()
    ensures var data := Exact.marshal(JObj(map["content" := JStr("")]));
            var (d, err) := Decode(Exact, DeltaDec(), EmitDelta, Record(ZeroDelta, EmptyStore), data);
            err.None? && d.ext.extensions == Some(map["content" := JStr("")])
  {
    ExactIsLawful();
    var v := JObj(map["content" := JStr("")]);
    assert Encodable(v);
    DeltaEmptyContentIsExtension(Exact, Record(ZeroDelta, EmptyStore), Exact.marshal(v));
  }
}
