/**
 * The streamed chat-completion records of chat_stream.go.  Each record is
 * its tagged fields plus an embedded extension store; its UnmarshalJSON is
 * UnmarshalWithExtensions over its own store and its MarshalJSON is
 * MarshalWithExtensions over its own extension map.  For each type:
 * the fields, the struct tags (`...Tags`), the object json.Marshal prints
 * for the alias type (`Emit...`), how json.Unmarshal fills the alias type
 * (`Decode...`), and the two methods.
 */
module ChatStream {
  import opened Json
  import opened Extensions
  import opened Codec
  import opened FieldDecoding

  /** The names of the embedded store's own fields, all tagged `json:"-"`. */
  const StoreFieldNames: set<string> := {"Extensions", "RawData", "ExtensionRawData"}

  // ChatCompletionStreamChoiceDelta

  datatype DeltaFields = DeltaFields(content: string, reasoningContent: string, role: string,
                                     functionCall: Option<JValue>, toolCalls: seq<JValue>, refusal: string)

  type Delta = Record<DeltaFields>

  const ZeroDelta := DeltaFields("", "", "", None, [], "")

  const DeltaNames: set<string> := {"content", "reasoning_content", "role", "function_call", "tool_calls", "refusal"}

  function DeltaTags(f: DeltaFields): (fs: seq<Field>)
    ensures DistinctNames(fs) && forall t :: t in fs ==> t.name in DeltaNames
  {
    [ Field("content", true, JStr(f.content), f.content == ""),
      Field("reasoning_content", true, JStr(f.reasoningContent), f.reasoningContent == ""),
      Field("role", true, JStr(f.role), f.role == ""),
      Field("function_call", true, PointerValue(f.functionCall), f.functionCall.None?),
      Field("tool_calls", true, JArr(f.toolCalls), |f.toolCalls| == 0),
      Field("refusal", true, JStr(f.refusal), f.refusal == "") ]
  }

  /** The object json.Marshal prints for the alias type: only tag names, so no store field. */
  function EmitDelta(f: DeltaFields): (m: map<string, JValue>)
  {
    EmitFields(DeltaTags(f))
  }

  /**
   * json.Unmarshal into the alias type: `null` is a no-op, a non-object is an
   * error, and an object none of whose keys is a tag name changes nothing.
   */
  function DecodeDelta(prev: DeltaFields, v: JValue): (r: Decoded<DeltaFields>)
    ensures v.JNull? ==> r == Decoded(prev, true)
    ensures !v.JNull? && !v.JObj? ==> r == Decoded(prev, false)
    ensures v.JObj? && v.fields.Keys !! DeltaNames ==> r == Decoded(prev, true)
  {
    match v
    case JNull => Decoded(prev, true)
    case JObj(m) =>
      var content := DecString(m, "content", prev.content);
      var reasoning := DecString(m, "reasoning_content", prev.reasoningContent);
      var role := DecString(m, "role", prev.role);
      var call := DecPointer(m, "function_call", prev.functionCall);
      var tools := DecSlice(m, "tool_calls", prev.toolCalls);
      var refusal := DecString(m, "refusal", prev.refusal);
      Decoded(DeltaFields(content.value, reasoning.value, role.value, call.value, tools.value, refusal.value),
              content.ok && reasoning.ok && role.ok && call.ok && tools.ok && refusal.ok)
    case _ => Decoded(prev, false)
  }

  function DeltaDec(): (DeltaFields, JValue) -> Decoded<DeltaFields> {
    (p, v) => DecodeDelta(p, v)
  }

  // ChatCompletionTokenLogprobTopLogprob

  datatype TopLogprobFields = TopLogprobFields(token: string, bytes: seq<int>, logprob: Number)

  type TopLogprob = Record<TopLogprobFields>

  const ZeroTopLogprob := TopLogprobFields("", [], Number(0, 0))

  const TopLogprobNames: set<string> := {"token", "bytes", "logprob"}

  function TopLogprobTags(f: TopLogprobFields): (fs: seq<Field>)
    ensures DistinctNames(fs) && forall t :: t in fs ==> t.name in TopLogprobNames
  {
    [ Field("token", false, JStr(f.token), f.token == ""),
      Field("bytes", false, IntArray(f.bytes), |f.bytes| == 0),
      Field("logprob", false, JNum(f.logprob), IsZero(f.logprob)) ]
  }

  /** The object json.Marshal prints for the alias type: only tag names, so no store field. */
  function EmitTopLogprob(f: TopLogprobFields): (m: map<string, JValue>)
  {
    EmitFields(TopLogprobTags(f))
  }

  /**
   * json.Unmarshal into the alias type: `null` is a no-op, a non-object is an
   * error, and an object none of whose keys is a tag name changes nothing.
   */
  function DecodeTopLogprob(prev: TopLogprobFields, v: JValue): (r: Decoded<TopLogprobFields>)
    ensures v.JNull? ==> r == Decoded(prev, true)
    ensures !v.JNull? && !v.JObj? ==> r == Decoded(prev, false)
    ensures v.JObj? && v.fields.Keys !! TopLogprobNames ==> r == Decoded(prev, true)
  {
    match v
    case JNull => Decoded(prev, true)
    case JObj(m) =>
      var token := DecString(m, "token", prev.token);
      var bytes := DecIntSlice(m, "bytes", prev.bytes);
      var logprob := DecNumber(m, "logprob", prev.logprob);
      Decoded(TopLogprobFields(token.value, bytes.value, logprob.value), token.ok && bytes.ok && logprob.ok)
    case _ => Decoded(prev, false)
  }

  function TopLogprobDec(): (TopLogprobFields, JValue) -> Decoded<TopLogprobFields> {
    (p, v) => DecodeTopLogprob(p, v)
  }

  // ChatCompletionTokenLogprob

  datatype TokenLogprobFields = TokenLogprobFields(token: string, bytes: seq<int>, logprob: Number,
                                                   topLogprobs: seq<TopLogprob>)

  type TokenLogprob = Record<TokenLogprobFields>

  const ZeroTokenLogprob := TokenLogprobFields("", [], Number(0, 0), [])

  const TokenLogprobNames: set<string> := {"token", "bytes", "logprob", "top_logprobs"}

  function TokenLogprobTags(f: TokenLogprobFields): (fs: seq<Field>)
    ensures DistinctNames(fs) && forall t :: t in fs ==> t.name in TokenLogprobNames
  {
    [ Field("token", false, JStr(f.token), f.token == ""),
      Field("bytes", true, IntArray(f.bytes), |f.bytes| == 0),
      Field("logprob", true, JNum(f.logprob), IsZero(f.logprob)),
      Field("top_logprobs", false, JArr(EncodeRecords(EmitTopLogprob, f.topLogprobs)), |f.topLogprobs| == 0) ]
  }

  /** The object json.Marshal prints for the alias type: only tag names, so no store field. */
  function EmitTokenLogprob(f: TokenLogprobFields): (m: map<string, JValue>)
  {
    EmitFields(TokenLogprobTags(f))
  }

  /**
   * json.Unmarshal into the alias type: `null` is a no-op, a non-object is an
   * error, and an object none of whose keys is a tag name changes nothing.
   */
  function DecodeTokenLogprob(w: Wire, prev: TokenLogprobFields, v: JValue): (r: Decoded<TokenLogprobFields>)
    ensures v.JNull? ==> r == Decoded(prev, true)
    ensures !v.JNull? && !v.JObj? ==> r == Decoded(prev, false)
    ensures v.JObj? && v.fields.Keys !! TokenLogprobNames ==> r == Decoded(prev, true)
  {
    match v
    case JNull => Decoded(prev, true)
    case JObj(m) =>
      var token := DecString(m, "token", prev.token);
      var bytes := DecIntSlice(m, "bytes", prev.bytes);
      var logprob := DecNumber(m, "logprob", prev.logprob);
      var top := DecRecordSlice(w, TopLogprobDec(), EmitTopLogprob, ZeroTopLogprob, m, "top_logprobs", prev.topLogprobs);
      Decoded(TokenLogprobFields(token.value, bytes.value, logprob.value, top.value),
              token.ok && bytes.ok && logprob.ok && top.ok)
    case _ => Decoded(prev, false)
  }

  function TokenLogprobDec(w: Wire): (TokenLogprobFields, JValue) -> Decoded<TokenLogprobFields> {
    (p, v) => DecodeTokenLogprob(w, p, v)
  }

  // ChatCompletionStreamChoiceLogprobs

  datatype LogprobsFields = LogprobsFields(content: seq<TokenLogprob>, refusal: seq<TokenLogprob>)

  type Logprobs = Record<LogprobsFields>

  const ZeroLogprobs := LogprobsFields([], [])

  const LogprobsNames: set<string> := {"content", "refusal"}

  function LogprobsTags(f: LogprobsFields): (fs: seq<Field>)
    ensures DistinctNames(fs) && forall t :: t in fs ==> t.name in LogprobsNames
  {
    [ Field("content", true, JArr(EncodeRecords(EmitTokenLogprob, f.content)), |f.content| == 0),
      Field("refusal", true, JArr(EncodeRecords(EmitTokenLogprob, f.refusal)), |f.refusal| == 0) ]
  }

  /** The object json.Marshal prints for the alias type: only tag names, so no store field. */
  function EmitLogprobs(f: LogprobsFields): (m: map<string, JValue>)
  {
    EmitFields(LogprobsTags(f))
  }

  /**
   * json.Unmarshal into the alias type: `null` is a no-op, a non-object is an
   * error, and an object none of whose keys is a tag name changes nothing.
   */
  function DecodeLogprobs(w: Wire, prev: LogprobsFields, v: JValue): (r: Decoded<LogprobsFields>)
    ensures v.JNull? ==> r == Decoded(prev, true)
    ensures !v.JNull? && !v.JObj? ==> r == Decoded(prev, false)
    ensures v.JObj? && v.fields.Keys !! LogprobsNames ==> r == Decoded(prev, true)
  {
    match v
    case JNull => Decoded(prev, true)
    case JObj(m) =>
      var content := DecRecordSlice(w, TokenLogprobDec(w), EmitTokenLogprob, ZeroTokenLogprob, m, "content", prev.content);
      var refusal := DecRecordSlice(w, TokenLogprobDec(w), EmitTokenLogprob, ZeroTokenLogprob, m, "refusal", prev.refusal);
      Decoded(LogprobsFields(content.value, refusal.value), content.ok && refusal.ok)
    case _ => Decoded(prev, false)
  }

  function LogprobsDec(w: Wire): (LogprobsFields, JValue) -> Decoded<LogprobsFields> {
    (p, v) => DecodeLogprobs(w, p, v)
  }

  // ChatCompletionStreamChoice

  /** FinishReason and ContentFilterResults are carried as the JSON values they print. */
  datatype ChoiceFields = ChoiceFields(index: int, delta: Delta, logprobs: Option<Logprobs>,
                                       finishReason: JValue, contentFilterResults: JValue)

  type Choice = Record<ChoiceFields>

  const ZeroChoice := ChoiceFields(0, Record(ZeroDelta, EmptyStore), None, JNull, JObj(map[]))

  const ChoiceNames: set<string> := {"index", "delta", "logprobs", "finish_reason", "content_filter_results"}

  /** A struct is never empty for omitempty, so content_filter_results is always printed. */
  function ChoiceTags(f: ChoiceFields): (fs: seq<Field>)
    ensures DistinctNames(fs) && forall t :: t in fs ==> t.name in ChoiceNames
  {
    var delta := JObj(Encoded(EmitDelta, f.delta));
    var logprobs := if f.logprobs.Some? then JObj(Encoded(EmitLogprobs, f.logprobs.value)) else JNull;
    [ Field("index", false, JNum(IntNumber(f.index)), f.index == 0),
      Field("delta", false, delta, false),
      Field("logprobs", true, logprobs, f.logprobs.None?),
      Field("finish_reason", false, f.finishReason, false),
      Field("content_filter_results", true, f.contentFilterResults, false) ]
  }

  /** The object json.Marshal prints for the alias type: only tag names, so no store field. */
  function EmitChoice(f: ChoiceFields): (m: map<string, JValue>)
  {
    EmitFields(ChoiceTags(f))
  }

  /**
   * json.Unmarshal into the alias type: `null` is a no-op, a non-object is an
   * error, and an object none of whose keys is a tag name changes nothing.
   */
  function DecodeChoice(w: Wire, prev: ChoiceFields, v: JValue): (r: Decoded<ChoiceFields>)
    ensures v.JNull? ==> r == Decoded(prev, true)
    ensures !v.JNull? && !v.JObj? ==> r == Decoded(prev, false)
    ensures v.JObj? && v.fields.Keys !! ChoiceNames ==> r == Decoded(prev, true)
  {
    match v
    case JNull => Decoded(prev, true)
    case JObj(m) =>
      var index := DecInt(m, "index", prev.index);
      var delta := DecRecord(w, DeltaDec(), EmitDelta, m, "delta", prev.delta);
      var logprobs := DecRecordPointer(w, LogprobsDec(w), EmitLogprobs, ZeroLogprobs, m, "logprobs", prev.logprobs);
      var finish := DecValue(m, "finish_reason", prev.finishReason);
      var filter := DecValue(m, "content_filter_results", prev.contentFilterResults);
      Decoded(ChoiceFields(index.value, delta.value, logprobs.value, finish.value, filter.value),
              index.ok && delta.ok && logprobs.ok && finish.ok && filter.ok)
    case _ => Decoded(prev, false)
  }

  function ChoiceDec(w: Wire): (ChoiceFields, JValue) -> Decoded<ChoiceFields> {
    (p, v) => DecodeChoice(w, p, v)
  }

  // PromptFilterResult

  datatype PromptFilterResultFields = PromptFilterResultFields(index: int, contentFilterResults: JValue)

  type PromptFilterResult = Record<PromptFilterResultFields>

  const ZeroPromptFilterResult := PromptFilterResultFields(0, JObj(map[]))

  const PromptFilterResultNames: set<string> := {"index", "content_filter_results"}

  function PromptFilterResultTags(f: PromptFilterResultFields): (fs: seq<Field>)
    ensures DistinctNames(fs) && forall t :: t in fs ==> t.name in PromptFilterResultNames
  {
    [ Field("index", false, JNum(IntNumber(f.index)), f.index == 0),
      Field("content_filter_results", true, f.contentFilterResults, false) ]
  }

  /** The object json.Marshal prints for the alias type: only tag names, so no store field. */
  function EmitPromptFilterResult(f: PromptFilterResultFields): (m: map<string, JValue>)
  {
    EmitFields(PromptFilterResultTags(f))
  }

  /**
   * json.Unmarshal into the alias type: `null` is a no-op, a non-object is an
   * error, and an object none of whose keys is a tag name changes nothing.
   */
  function DecodePromptFilterResult(prev: PromptFilterResultFields, v: JValue): (r: Decoded<PromptFilterResultFields>)
    ensures v.JNull? ==> r == Decoded(prev, true)
    ensures !v.JNull? && !v.JObj? ==> r == Decoded(prev, false)
    ensures v.JObj? && v.fields.Keys !! PromptFilterResultNames ==> r == Decoded(prev, true)
  {
    match v
    case JNull => Decoded(prev, true)
    case JObj(m) =>
      var index := DecInt(m, "index", prev.index);
      var filter := DecValue(m, "content_filter_results", prev.contentFilterResults);
      Decoded(PromptFilterResultFields(index.value, filter.value), index.ok && filter.ok)
    case _ => Decoded(prev, false)
  }

  function PromptFilterResultDec(): (PromptFilterResultFields, JValue) -> Decoded<PromptFilterResultFields> {
    (p, v) => DecodePromptFilterResult(p, v)
  }

  // ChatCompletionStreamResponse

  /** PromptAnnotation and Usage are carried as the JSON values they print. */
  datatype ResponseFields = ResponseFields(id: string, objectKind: string, created: int, model: string,
                                           choices: seq<Choice>, systemFingerprint: string,
                                           promptAnnotations: seq<JValue>,
                                           promptFilterResults: seq<PromptFilterResult>,
                                           usage: Option<JValue>)

  type Response = Record<ResponseFields>

  const ZeroResponse := ResponseFields("", "", 0, "", [], "", [], [], None)

  const ResponseNames: set<string> :=
    {"id", "object", "created", "model", "choices", "system_fingerprint",
     "prompt_annotations", "prompt_filter_results", "usage"}

  function ResponseTags(f: ResponseFields): (fs: seq<Field>)
    ensures DistinctNames(fs) && forall t :: t in fs ==> t.name in ResponseNames
  {
    [ Field("id", false, JStr(f.id), f.id == ""),
      Field("object", false, JStr(f.objectKind), f.objectKind == ""),
      Field("created", false, JNum(IntNumber(f.created)), f.created == 0),
      Field("model", false, JStr(f.model), f.model == ""),
      Field("choices", false, JArr(EncodeRecords(EmitChoice, f.choices)), |f.choices| == 0),
      Field("system_fingerprint", false, JStr(f.systemFingerprint), f.systemFingerprint == ""),
      Field("prompt_annotations", true, JArr(f.promptAnnotations), |f.promptAnnotations| == 0),
      Field("prompt_filter_results", true, JArr(EncodeRecords(EmitPromptFilterResult, f.promptFilterResults)),
            |f.promptFilterResults| == 0),
      Field("usage", true, PointerValue(f.usage), f.usage.None?) ]
  }

  /** The object json.Marshal prints for the alias type: only tag names, so no store field. */
  function EmitResponse(f: ResponseFields): (m: map<string, JValue>)
  {
    EmitFields(ResponseTags(f))
  }

  /**
   * json.Unmarshal into the alias type: `null` is a no-op, a non-object is an
   * error, and an object none of whose keys is a tag name changes nothing.
   */
  function DecodeResponse(w: Wire, prev: ResponseFields, v: JValue): (r: Decoded<ResponseFields>)
    ensures v.JNull? ==> r == Decoded(prev, true)
    ensures !v.JNull? && !v.JObj? ==> r == Decoded(prev, false)
    ensures v.JObj? && v.fields.Keys !! ResponseNames ==> r == Decoded(prev, true)
  {
    match v
    case JNull => Decoded(prev, true)
    case JObj(m) =>
      var id := DecString(m, "id", prev.id);
      var kind := DecString(m, "object", prev.objectKind);
      var created := DecInt(m, "created", prev.created);
      var model := DecString(m, "model", prev.model);
      var choices := DecRecordSlice(w, ChoiceDec(w), EmitChoice, ZeroChoice, m, "choices", prev.choices);
      var fingerprint := DecString(m, "system_fingerprint", prev.systemFingerprint);
      var annotations := DecSlice(m, "prompt_annotations", prev.promptAnnotations);
      var filters := DecRecordSlice(w, PromptFilterResultDec(), EmitPromptFilterResult, ZeroPromptFilterResult,
                                    m, "prompt_filter_results", prev.promptFilterResults);
      var usage := DecPointer(m, "usage", prev.usage);
      Decoded(ResponseFields(id.value, kind.value, created.value, model.value, choices.value, fingerprint.value,
                             annotations.value, filters.value, usage.value),
              id.ok && kind.ok && created.ok && model.ok && choices.ok && fingerprint.ok
              && annotations.ok && filters.ok && usage.ok)
    case _ => Decoded(prev, false)
  }

  function ResponseDec(w: Wire): (ResponseFields, JValue) -> Decoded<ResponseFields> {
    (p, v) => DecodeResponse(w, p, v)
  }

  // UnmarshalJSON and MarshalJSON of each record: the codec over the record's own store.

  /** ChatCompletionStreamChoiceDelta.UnmarshalJSON: decodes into r, whose store receives the bytes and the unknown keys. */
  method UnmarshalDelta(w: Wire, r: Delta, data: array<byte>) returns (decoded: Delta, err: Option<DecodeError>)
    ensures (decoded, err) == Decode(w, DeltaDec(), EmitDelta, r, data[..])
  {
    decoded, err := UnmarshalRecord(w, DeltaDec(), EmitDelta, r, data);
  }

  /** ChatCompletionStreamChoiceDelta.MarshalJSON: the alias's object with the record's extensions written over it. */
  method MarshalDelta(w: Wire, r: Delta) returns (res: Result<Bytes, EncodeError>)
    ensures res == Encode(w, JObj(EmitDelta(r.fields)), ExtensionMap(r.ext))
  {
    res := MarshalRecord(w, EmitDelta, r);
  }

  /** ChatCompletionStreamChoiceLogprobs.UnmarshalJSON: decodes into r, whose store receives the bytes and the unknown keys. */
  method UnmarshalLogprobs(w: Wire, r: Logprobs, data: array<byte>) returns (decoded: Logprobs, err: Option<DecodeError>)
    ensures (decoded, err) == Decode(w, LogprobsDec(w), EmitLogprobs, r, data[..])
  {
    decoded, err := UnmarshalRecord(w, LogprobsDec(w), EmitLogprobs, r, data);
  }

  /** ChatCompletionStreamChoiceLogprobs.MarshalJSON: the alias's object with the record's extensions written over it. */
  method MarshalLogprobs(w: Wire, r: Logprobs) returns (res: Result<Bytes, EncodeError>)
    ensures res == Encode(w, JObj(EmitLogprobs(r.fields)), ExtensionMap(r.ext))
  {
    res := MarshalRecord(w, EmitLogprobs, r);
  }

  /** ChatCompletionTokenLogprob.UnmarshalJSON: decodes into r, whose store receives the bytes and the unknown keys. */
  method UnmarshalTokenLogprob(w: Wire, r: TokenLogprob, data: array<byte>) returns (decoded: TokenLogprob, err: Option<DecodeError>)
    ensures (decoded, err) == Decode(w, TokenLogprobDec(w), EmitTokenLogprob, r, data[..])
  {
    decoded, err := UnmarshalRecord(w, TokenLogprobDec(w), EmitTokenLogprob, r, data);
  }

  /** ChatCompletionTokenLogprob.MarshalJSON: the alias's object with the record's extensions written over it. */
  method MarshalTokenLogprob(w: Wire, r: TokenLogprob) returns (res: Result<Bytes, EncodeError>)
    ensures res == Encode(w, JObj(EmitTokenLogprob(r.fields)), ExtensionMap(r.ext))
  {
    res := MarshalRecord(w, EmitTokenLogprob, r);
  }

  /** ChatCompletionTokenLogprobTopLogprob.UnmarshalJSON: decodes into r, whose store receives the bytes and the unknown keys. */
  method UnmarshalTopLogprob(w: Wire, r: TopLogprob, data: array<byte>) returns (decoded: TopLogprob, err: Option<DecodeError>)
    ensures (decoded, err) == Decode(w, TopLogprobDec(), EmitTopLogprob, r, data[..])
  {
    decoded, err := UnmarshalRecord(w, TopLogprobDec(), EmitTopLogprob, r, data);
  }

  /** ChatCompletionTokenLogprobTopLogprob.MarshalJSON: the alias's object with the record's extensions written over it. */
  method MarshalTopLogprob(w: Wire, r: TopLogprob) returns (res: Result<Bytes, EncodeError>)
    ensures res == Encode(w, JObj(EmitTopLogprob(r.fields)), ExtensionMap(r.ext))
  {
    res := MarshalRecord(w, EmitTopLogprob, r);
  }

  /** ChatCompletionStreamChoice.UnmarshalJSON: decodes into r, whose store receives the bytes and the unknown keys. */
  method UnmarshalChoice(w: Wire, r: Choice, data: array<byte>) returns (decoded: Choice, err: Option<DecodeError>)
    ensures (decoded, err) == Decode(w, ChoiceDec(w), EmitChoice, r, data[..])
  {
    decoded, err := UnmarshalRecord(w, ChoiceDec(w), EmitChoice, r, data);
  }

  /** ChatCompletionStreamChoice.MarshalJSON: the alias's object with the record's extensions written over it. */
  method MarshalChoice(w: Wire, r: Choice) returns (res: Result<Bytes, EncodeError>)
    ensures res == Encode(w, JObj(EmitChoice(r.fields)), ExtensionMap(r.ext))
  {
    res := MarshalRecord(w, EmitChoice, r);
  }

  /** PromptFilterResult.UnmarshalJSON: decodes into r, whose store receives the bytes and the unknown keys. */
  method UnmarshalPromptFilterResult(w: Wire, r: PromptFilterResult, data: array<byte>) returns (decoded: PromptFilterResult, err: Option<DecodeError>)
    ensures (decoded, err) == Decode(w, PromptFilterResultDec(), EmitPromptFilterResult, r, data[..])
  {
    decoded, err := UnmarshalRecord(w, PromptFilterResultDec(), EmitPromptFilterResult, r, data);
  }

  /** PromptFilterResult.MarshalJSON: the alias's object with the record's extensions written over it. */
  method MarshalPromptFilterResult(w: Wire, r: PromptFilterResult) returns (res: Result<Bytes, EncodeError>)
    ensures res == Encode(w, JObj(EmitPromptFilterResult(r.fields)), ExtensionMap(r.ext))
  {
    res := MarshalRecord(w, EmitPromptFilterResult, r);
  }

  /** ChatCompletionStreamResponse.UnmarshalJSON: decodes into r, whose store receives the bytes and the unknown keys. */
  method UnmarshalResponse(w: Wire, r: Response, data: array<byte>) returns (decoded: Response, err: Option<DecodeError>)
    ensures (decoded, err) == Decode(w, ResponseDec(w), EmitResponse, r, data[..])
  {
    decoded, err := UnmarshalRecord(w, ResponseDec(w), EmitResponse, r, data);
  }

  /** ChatCompletionStreamResponse.MarshalJSON: the alias's object with the record's extensions written over it. */
  method MarshalResponse(w: Wire, r: Response) returns (res: Result<Bytes, EncodeError>)
    ensures res == Encode(w, JObj(EmitResponse(r.fields)), ExtensionMap(r.ext))
  {
    res := MarshalRecord(w, EmitResponse, r);
  }
}
