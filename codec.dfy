/**
 * The extension-preserving codec of json.go: UnmarshalWithExtensions,
 * getKnownFields, MarshalWithExtensions and the variadic UnmarshalJSON.
 *
 * A record is its schema fields plus its embedded store.  The codec is
 * generic in the record type: `dec` stands for json.Unmarshal into the
 * record's alias type (its known fields) and `emit` for the object
 * json.Marshal prints for the alias, which the record types build from
 * their struct tags with `EmitFields`.
 */
module Codec {
  import opened Json
  import opened Extensions

  datatype Record<F> = Record(fields: F, ext: Store)

  /** A decoded value and whether decoding reported no error. */
  datatype Decoded<T> = Decoded(value: T, ok: bool)

  /** "failed to unmarshal target" and "failed to unmarshal to map". */
  datatype DecodeError = TargetError | MapError

  /** "failed to marshal target", "failed to unmarshal base data", and the final json.Marshal failing. */
  datatype EncodeError = TargetMarshalError | BaseUnmarshalError | MergedMarshalError

  /**
   * One struct field as encoding/json sees it: its tag name, whether the tag
   * says omitempty, its encoded value and whether the value is "empty" in
   * the sense of omitempty (false, 0, "", nil pointer, empty slice; a
   * struct is never empty).
   */
  datatype Field = Field(name: string, omitEmpty: bool, value: JValue, isEmpty: bool)

  predicate Emitted(f: Field) {
    !f.omitEmpty || !f.isEmpty
  }

  predicate DistinctNames(fs: seq<Field>) {
    forall i, j :: 0 <= i < j < |fs| ==> fs[i].name != fs[j].name
  }

  /** The object json.Marshal prints for a struct with these fields. */
  function EmitFields(fs: seq<Field>): (m: map<string, JValue>)
    ensures |m| <= |fs|
    decreases |fs|
  {
    if fs == [] then map[]
    else
      var rest := EmitFields(fs[1..]);
      if Emitted(fs[0]) then rest[fs[0].name := fs[0].value] else rest
  }

  /** A field's name is a key of the printed object exactly when the field is emitted, with its value. */
  lemma {:induction false} EmittedKey(fs: seq<Field>, i: int)
    requires DistinctNames(fs) && 0 <= i < |fs|
    ensures fs[i].name in EmitFields(fs) <==> Emitted(fs[i])
    ensures Emitted(fs[i]) ==> EmitFields(fs)[fs[i].name] == fs[i].value
    decreases |fs|
  {
    var rest := fs[1..];
    assert DistinctNames(rest) by {
      forall a, b | 0 <= a < b < |rest|
        ensures rest[a].name != rest[b].name
      {
        assert rest[a] == fs[a + 1] && rest[b] == fs[b + 1];
      }
    }
    if i == 0 {
      forall j | 0 <= j < |rest|
        ensures rest[j].name != fs[0].name
      {
        assert rest[j] == fs[j + 1];
      }
      NameAbsent(rest, fs[0].name);
    } else {
      EmittedKey(rest, i - 1);
      assert rest[i - 1] == fs[i];
    }
  }

  /** A name no field carries is not a key of the printed object. */
  lemma {:induction false} NameAbsent(fs: seq<Field>, name: string)
    requires forall j :: 0 <= j < |fs| ==> fs[j].name != name
    ensures name !in EmitFields(fs)
    decreases |fs|
  {
    if fs != [] {
      assert forall j :: 0 <= j < |fs[1..]| ==> fs[1..][j] == fs[j + 1];
      NameAbsent(fs[1..], name);
    }
  }

  /** The printed object has no key other than the fields' names. */
  lemma {:induction false} EmittedKeysWithin(fs: seq<Field>, names: set<string>)
    requires forall f :: f in fs ==> f.name in names
    ensures EmitFields(fs).Keys <= names
    decreases |fs|
  {
    if fs != [] {
      assert forall f :: f in fs[1..] ==> f in fs;
      EmittedKeysWithin(fs[1..], names);
      assert fs[0] in fs;
    }
  }

  /**
   * getKnownFields: the names in json.Marshal(target) read back as an
   * object; the empty set when marshalling or reading back fails.
   */
  function KnownFieldsOf(w: Wire, target: JValue): (known: set<string>)
    ensures !Encodable(target) ==> known == {}
    ensures Lawful(w) && Encodable(target) && target.JObj? ==> known == target.fields.Keys
  {
    match Marshal(w, target)
    case None => {}
    case Some(b) =>
      match UnmarshalObject(w, b)
      case None => {}
      case Some(m) => m.Keys
  }

  /** The known fields of a printed object are among its keys. */
  lemma KnownWithin(w: Wire, m: map<string, JValue>)
    requires Lawful(w)
    ensures KnownFieldsOf(w, JObj(m)) <= m.Keys
    ensures EncodableMap(m) ==> KnownFieldsOf(w, JObj(m)) == m.Keys
  {
    EncodableObject(m);
  }

  method GetKnownFields(w: Wire, target: JValue) returns (known: set<string>)
    ensures known == KnownFieldsOf(w, target)
  {
    known := {};
    var targetBytes := Marshal(w, target);
    if targetBytes.None? {
      return;
    }
    var targetMap := UnmarshalObject(w, targetBytes.value);
    if targetMap.None? {
      return;
    }
    var keys := targetMap.value.Keys;
    while keys != {}
      invariant keys <= targetMap.value.Keys
      invariant known == targetMap.value.Keys - keys
      decreases keys
    {
      var key :| key in keys;
      known := known + {key};
      keys := keys - {key};
    }
  }

  /** The extension fields: every entry of the payload whose key is not known. */
  function ExtensionFields(all: map<string, JValue>, known: set<string>): (ext: map<string, JValue>)
    ensures ext.Keys == all.Keys - known
    ensures forall k :: k in ext ==> ext[k] == all[k]
  {
    map k | k in all && k !in known :: all[k]
  }

  method SplitExtensions(all: map<string, JValue>, known: set<string>) returns (ext: map<string, JValue>)
    ensures ext == ExtensionFields(all, known)
  {
    ext := map[];
    var keys := all.Keys;
    while keys != {}
      invariant keys <= all.Keys
      invariant ext == map k | k in all && k !in keys && k !in known :: all[k]
      decreases keys
    {
      var key :| key in keys;
      if key !in known {
        ext := ext[key := all[key]];
      }
      keys := keys - {key};
    }
  }

  /**
   * The store after a successful split: the map and its bytes are replaced
   * only when there is at least one extension field, and the bytes only
   * when the extension subset can be marshalled.
   */
  function StoreExtensions(w: Wire, st: Store, ext: map<string, JValue>): (s: Store)
    ensures |ext| == 0 ==> s == st
    ensures |ext| > 0 ==> s.extensions == Some(ext) && s.rawData == st.rawData
    ensures |ext| > 0 && EncodableMap(ext) ==> s.extensionRawData == w.marshal(JObj(ext))
    ensures |ext| > 0 && !EncodableMap(ext) ==> s.extensionRawData == st.extensionRawData
  {
    EncodableObject(ext);
    if |ext| == 0 then st
    else st.(extensions := Some(ext),
             extensionRawData := match Marshal(w, JObj(ext))
                                 case Some(b) => b
                                 case None => st.extensionRawData)
  }

  /**
   * UnmarshalWithExtensions on values: the record r decoded from data.
   * json.Unmarshal first checks the whole input, so a parse failure leaves
   * the fields alone; a type mismatch leaves whatever `dec` wrote.
   */
  function Decode<F>(w: Wire, dec: (F, JValue) -> Decoded<F>, emit: F -> map<string, JValue>,
                     r: Record<F>, data: Bytes): (res: (Record<F>, Option<DecodeError>))
    ensures res.0.ext.rawData == data
    ensures res.1.Some? ==> res.0.ext == r.ext.(rawData := data)
    ensures res.1.None? ==> w.unmarshal(data).Some?
                            && dec(r.fields, w.unmarshal(data).value) == Decoded(res.0.fields, true)
                            && UnmarshalObject(w, data).Some?
  {
    var st := r.ext.(rawData := data);
    match w.unmarshal(data)
    case None => (Record(r.fields, st), Some(TargetError))
    case Some(v) =>
      var d := dec(r.fields, v);
      if !d.ok then (Record(d.value, st), Some(TargetError))
      else
        match UnmarshalObject(w, data)
        case None => (Record(d.value, st), Some(MapError))
        case Some(all) =>
          var ext := ExtensionFields(all, KnownFieldsOf(w, JObj(emit(d.value))));
          (Record(d.value, StoreExtensions(w, st, ext)), None)
  }

  method UnmarshalWithExtensions<F>(w: Wire, dec: (F, JValue) -> Decoded<F>, emit: F -> map<string, JValue>,
                                    data: array<byte>, target: F, extensions: RawExtensions)
    returns (result: F, err: Option<DecodeError>)
    modifies extensions
    ensures fresh(extensions.rawData)
    ensures (Record(result, extensions.State()), err)
            == Decode(w, dec, emit, Record(target, old(extensions.State())), data[..])
  {
    extensions.SetRawData(data);
    ghost var st := extensions.State();
    result := target;
    var parsed := w.unmarshal(data[..]);
    if parsed.None? {
      return result, Some(TargetError);
    }
    var d := dec(target, parsed.value);
    result := d.value;
    if !d.ok {
      return result, Some(TargetError);
    }
    var allFields := UnmarshalObject(w, data[..]);
    if allFields.None? {
      return result, Some(MapError);
    }
    var knownFields := GetKnownFields(w, JObj(emit(result)));
    var extensionFields := SplitExtensions(allFields.value, knownFields);
    if |extensionFields| > 0 {
      extensions.extensions := extensionFields;
      extensions.isNil := false;
      var extensionData := Marshal(w, JObj(extensionFields));
      if extensionData.Some? {
        extensions.extensionRawData := extensionData.value;
      }
      assert extensions.State().extensions == Some(extensionFields);
      assert extensions.State().rawData == st.rawData;
      assert extensions.State().extensionRawData == StoreExtensions(w, st, extensionFields).extensionRawData;
    }
    assert extensions.State() == StoreExtensions(w, st, extensionFields);
    err := None;
  }

  /** A record's UnmarshalJSON: the codec applied to the record's own embedded store. */
  method UnmarshalRecord<F>(w: Wire, dec: (F, JValue) -> Decoded<F>, emit: F -> map<string, JValue>,
                            r: Record<F>, data: array<byte>)
    returns (decoded: Record<F>, err: Option<DecodeError>)
    ensures (decoded, err) == Decode(w, dec, emit, r, data[..])
  {
    var store := new RawExtensions.FromStore(r.ext);
    var fields;
    fields, err := UnmarshalWithExtensions(w, dec, emit, data, r.fields, store);
    decoded := Record(fields, store.State());
  }

  /** MarshalWithExtensions on values. */
  function Encode(w: Wire, target: JValue, ext: map<string, JValue>): (r: Result<Bytes, EncodeError>)
    ensures !Encodable(target) ==> r == Err(TargetMarshalError)
    ensures Encodable(target) && |ext| == 0 ==> r == Ok(w.marshal(target))
    ensures Encodable(target) && |ext| > 0 && !EncodableMap(ext) ==> r.Err?
    ensures Lawful(w) && Encodable(target) && target.JObj? && |ext| > 0 && !EncodableMap(ext)
            ==> r == Err(MergedMarshalError)
  {
    match Marshal(w, target)
    case None => Err(TargetMarshalError)
    case Some(baseData) =>
      if |ext| == 0 then Ok(baseData)
      else
        match w.unmarshal(baseData)
        case Some(JObj(baseMap)) =>
          ForeignMerge(baseMap, ext);
          (match Marshal(w, JObj(baseMap + ext))
           case None => Err(MergedMarshalError)
           case Some(b) => Ok(b))
        case _ => Err(BaseUnmarshalError)
  }

  /** An extension json.Marshal refuses makes the merged object unmarshallable too. */
  lemma ForeignMerge(base: map<string, JValue>, ext: map<string, JValue>)
    ensures !EncodableMap(ext) ==> !Encodable(JObj(base + ext))
  {
    if !EncodableMap(ext) {
      var k :| k in ext && !Encodable(ext[k]);
      assert (base + ext)[k] == ext[k];
    }
  }

  /** The loop of MarshalWithExtensions: every extension key is written over the base object. */
  method MergeExtensions(base: map<string, JValue>, extensions: map<string, JValue>)
    returns (baseMap: map<string, JValue>)
    ensures baseMap.Keys == base.Keys + extensions.Keys
    ensures forall k :: k in extensions ==> baseMap[k] == extensions[k]
    ensures forall k :: k in base && k !in extensions ==> baseMap[k] == base[k]
  {
    baseMap := base;
    var keys := extensions.Keys;
    while keys != {}
      invariant keys <= extensions.Keys
      invariant baseMap.Keys == base.Keys + (extensions.Keys - keys)
      invariant forall k :: k in baseMap ==>
                  baseMap[k] == if k in extensions && k !in keys then extensions[k] else base[k]
      decreases keys
    {
      var key :| key in keys;
      baseMap := baseMap[key := extensions[key]];
      keys := keys - {key};
    }
  }

  method MarshalWithExtensions(w: Wire, target: JValue, extensions: map<string, JValue>)
    returns (r: Result<Bytes, EncodeError>)
    ensures r == Encode(w, target, extensions)
  {
    var baseData := Marshal(w, target);
    if baseData.None? {
      return Err(TargetMarshalError);
    }
    if |extensions| == 0 {
      return Ok(baseData.value);
    }
    var parsed := w.unmarshal(baseData.value);
    if !(parsed.Some? && parsed.value.JObj?) {
      return Err(BaseUnmarshalError);
    }
    var baseMap := MergeExtensions(parsed.value.fields, extensions);
    assert baseMap == parsed.value.fields + extensions;
    var merged := Marshal(w, JObj(baseMap));
    if merged.None? {
      return Err(MergedMarshalError);
    }
    return Ok(merged.value);
  }

  /** The object a record's MarshalJSON prints: its fields, overwritten by its extensions. */
  function Encoded<F>(emit: F -> map<string, JValue>, r: Record<F>): (m: map<string, JValue>)
    ensures m.Keys == emit(r.fields).Keys + ExtensionMap(r.ext).Keys
    ensures forall k :: k in ExtensionMap(r.ext) ==> m[k] == ExtensionMap(r.ext)[k]
    ensures forall k :: k in emit(r.fields) && k !in ExtensionMap(r.ext) ==> m[k] == emit(r.fields)[k]
  {
    emit(r.fields) + ExtensionMap(r.ext)
  }

  /** A record's MarshalJSON: the codec applied to the fields and the record's own extensions. */
  method MarshalRecord<F>(w: Wire, emit: F -> map<string, JValue>, r: Record<F>)
    returns (res: Result<Bytes, EncodeError>)
    ensures res == Encode(w, JObj(emit(r.fields)), ExtensionMap(r.ext))
  {
    res := MarshalWithExtensions(w, JObj(emit(r.fields)), ExtensionMap(r.ext));
  }

  /**
   * The variadic UnmarshalJSON helper: decodes data into each target in
   * turn and stops at the first error; `ran` counts the targets attempted.
   */
  method UnmarshalEach<E>(data: Bytes, targets: seq<Bytes -> Option<E>>) returns (err: Option<E>, ran: nat)
    ensures ran <= |targets|
    ensures err.None? ==> ran == |targets| && forall i :: 0 <= i < |targets| ==> targets[i](data).None?
    ensures err.Some? ==> 0 < ran && err == targets[ran - 1](data)
                          && forall i :: 0 <= i < ran - 1 ==> targets[i](data).None?
  {
    ran := 0;
    while ran < |targets|
      invariant ran <= |targets|
      invariant forall i :: 0 <= i < ran ==> targets[i](data).None?
    {
      var e := targets[ran](data);
      ran := ran + 1;
      if e.Some? {
        return e, ran;
      }
    }
    return None, ran;
  }

  /**
   * Merge: with a lawful encoding/json, encoding with a non-empty extension
   * map prints the union of the base and extension keys, and on a shared
   * key the extension's value wins.
   */
  lemma EncodeMergePrecedence(w: Wire, base: map<string, JValue>, ext: map<string, JValue>)
    requires Lawful(w)
    requires EncodableMap(base) && EncodableMap(ext) && |ext| > 0
    ensures Encode(w, JObj(base), ext) == Ok(w.marshal(JObj(base + ext)))
    ensures w.unmarshal(w.marshal(JObj(base + ext))) == Some(JObj(base + ext))
    ensures (base + ext).Keys == base.Keys + ext.Keys
    ensures forall k :: k in ext ==> (base + ext)[k] == ext[k]
    ensures forall k :: k in base && k !in ext ==> (base + ext)[k] == base[k]
  {
    assert Encodable(JObj(base));
    EncodableMerge(base, ext);
  }

  /**
   * The split: a successful decode either keeps the previous extensions
   * (when every payload key is known) or stores exactly the payload entries
   * whose keys the decoded fields do not emit.  When the decoded fields
   * cannot be marshalled, every payload key is an extension.
   */
  lemma DecodeSplitsPayload<F>(w: Wire, dec: (F, JValue) -> Decoded<F>, emit: F -> map<string, JValue>,
                               r: Record<F>, data: Bytes)
    requires Lawful(w)
    requires Decode(w, dec, emit, r, data).1.None?
    ensures UnmarshalObject(w, data).Some?
    ensures var d := Decode(w, dec, emit, r, data).0;
            var all := UnmarshalObject(w, data).value;
            && (EncodableMap(emit(d.fields)) && all.Keys <= emit(d.fields).Keys ==>
                  d.ext.extensions == r.ext.extensions)
            && (EncodableMap(emit(d.fields)) && !(all.Keys <= emit(d.fields).Keys) ==>
                  d.ext.extensions == Some(ExtensionFields(all, emit(d.fields).Keys)))
            && (!EncodableMap(emit(d.fields)) && |all| > 0 ==> d.ext.extensions == Some(all))
  {
    var d := Decode(w, dec, emit, r, data).0;
    var all := UnmarshalObject(w, data).value;
    var known := KnownFieldsOf(w, JObj(emit(d.fields)));
    KnownWithin(w, emit(d.fields));
    EncodableObject(emit(d.fields));
    if EncodableMap(emit(d.fields)) {
      if !(all.Keys <= emit(d.fields).Keys) {
        var k :| k in all.Keys && k !in emit(d.fields).Keys;
        assert k in ExtensionFields(all, known);
      }
    } else {
      assert known == {};
      assert ExtensionFields(all, known) == all;
    }
  }

  /**
   * The store after a successful decode: with no unknown key the previous
   * extension map and extension bytes stay; otherwise the map is exactly the
   * unknown entries and ExtensionRawData their re-serialisation.  RawData is
   * the input either way.
   */
  lemma DecodeStoresExtensions<F>(w: Wire, dec: (F, JValue) -> Decoded<F>, emit: F -> map<string, JValue>,
                                  r: Record<F>, data: Bytes)
    requires Lawful(w)
    requires Decode(w, dec, emit, r, data).1.None?
    ensures UnmarshalObject(w, data).Some?
    ensures var d := Decode(w, dec, emit, r, data).0;
            var ext := ExtensionFields(UnmarshalObject(w, data).value, KnownFieldsOf(w, JObj(emit(d.fields))));
            && (|ext| == 0 ==> d.ext == r.ext.(rawData := data))
            && (|ext| > 0 ==> d.ext == Store(Some(ext), data, w.marshal(JObj(ext))))
  {
    var all := UnmarshalObject(w, data).value;
    var d := Decode(w, dec, emit, r, data).0;
    var ext := ExtensionFields(all, KnownFieldsOf(w, JObj(emit(d.fields))));
    if w.unmarshal(data).value.JObj? {
      EncodableObject(all);
      assert EncodableMap(ext);
    }
  }

  /**
   * Round trip: encoding a record whose extension keys do not clash with the
   * fields it emits, then decoding the bytes with a decoder that recovers
   * those fields, gives back the fields, exactly its extension map, the
   * bytes themselves and the re-serialised extension subset.
   */
  lemma RoundTrip<F>(w: Wire, dec: (F, JValue) -> Decoded<F>, emit: F -> map<string, JValue>,
                     r: Record<F>, prev: Record<F>, data: Bytes)
    requires Lawful(w)
    requires EncodableMap(emit(r.fields)) && EncodableMap(ExtensionMap(r.ext))
    requires Encode(w, JObj(emit(r.fields)), ExtensionMap(r.ext)) == Ok(data)
    requires ExtensionMap(r.ext).Keys !! emit(r.fields).Keys
    requires |ExtensionMap(r.ext)| > 0
    requires dec(prev.fields, JObj(Encoded(emit, r))) == Decoded(r.fields, true)
    ensures Decode(w, dec, emit, prev, data)
            == (Record(r.fields, Store(Some(ExtensionMap(r.ext)), data, w.marshal(JObj(ExtensionMap(r.ext))))), None)
  {
    var base, ext := emit(r.fields), ExtensionMap(r.ext);
    EncodedPayload(w, base, ext, data);
    DecodeSplit(w, dec, emit, prev, data, base, ext, r.fields);
  }

  /**
   * The extension map alone survives a round trip whenever the decoded
   * fields print the same keys as the encoded ones, even if their values
   * differ (a nested record's RawData, a null read as the previous value).
   */
  lemma ExtensionsRecovered<F>(w: Wire, dec: (F, JValue) -> Decoded<F>, emit: F -> map<string, JValue>,
                               r: Record<F>, prev: Record<F>, data: Bytes, f: F)
    requires Lawful(w)
    requires EncodableMap(emit(r.fields)) && EncodableMap(ExtensionMap(r.ext))
    requires Encode(w, JObj(emit(r.fields)), ExtensionMap(r.ext)) == Ok(data)
    requires ExtensionMap(r.ext).Keys !! emit(r.fields).Keys
    requires |ExtensionMap(r.ext)| > 0
    requires dec(prev.fields, JObj(Encoded(emit, r))) == Decoded(f, true)
    requires EncodableMap(emit(f)) && emit(f).Keys == emit(r.fields).Keys
    ensures Decode(w, dec, emit, prev, data)
            == (Record(f, Store(Some(ExtensionMap(r.ext)), data, w.marshal(JObj(ExtensionMap(r.ext))))), None)
  {
    var base, ext := emit(r.fields), ExtensionMap(r.ext);
    EncodedPayload(w, base, ext, data);
    DecodeObject(w, dec, emit, prev, data, base + ext, f);
    KnownWithin(w, emit(f));
    SplitOfMerge(base, ext);
    assert Encodable(JObj(ext));
  }

  /**
   * Round trip without extensions: the printed fields decode back, and the
   * store keeps whatever extension map and extension bytes it held before,
   * because a payload with no unknown key leaves them untouched.
   */
  lemma RoundTripWithoutExtensions<F>(w: Wire, dec: (F, JValue) -> Decoded<F>, emit: F -> map<string, JValue>,
                                      r: Record<F>, prev: Record<F>, data: Bytes)
    requires Lawful(w)
    requires EncodableMap(emit(r.fields)) && |ExtensionMap(r.ext)| == 0
    requires Encode(w, JObj(emit(r.fields)), ExtensionMap(r.ext)) == Ok(data)
    requires dec(prev.fields, JObj(emit(r.fields))) == Decoded(r.fields, true)
    ensures Decode(w, dec, emit, prev, data) == (Record(r.fields, prev.ext.(rawData := data)), None)
  {
    var base := emit(r.fields);
    EncodableObject(base);
    assert w.unmarshal(data) == Some(JObj(base));
    DecodeObject(w, dec, emit, prev, data, base, r.fields);
    KnownWithin(w, base);
    assert ExtensionFields(base, base.Keys).Keys == {};
  }

  /** Decoding an object made of emitted fields plus non-clashing extensions splits it back. */
  lemma DecodeSplit<F>(w: Wire, dec: (F, JValue) -> Decoded<F>, emit: F -> map<string, JValue>,
                       prev: Record<F>, data: Bytes, base: map<string, JValue>, ext: map<string, JValue>, f: F)
    requires Lawful(w)
    requires EncodableMap(base) && EncodableMap(ext) && |ext| > 0 && ext.Keys !! base.Keys
    requires w.unmarshal(data) == Some(JObj(base + ext))
    requires dec(prev.fields, JObj(base + ext)) == Decoded(f, true) && emit(f) == base
    ensures Decode(w, dec, emit, prev, data)
            == (Record(f, Store(Some(ext), data, w.marshal(JObj(ext)))), None)
  {
    DecodeObject(w, dec, emit, prev, data, base + ext, f);
    assert Encodable(JObj(base));
    SplitOfMerge(base, ext);
    assert Encodable(JObj(ext));
  }

  /** Splitting a merged object on the base keys gives back non-clashing extensions. */
  lemma SplitOfMerge(base: map<string, JValue>, ext: map<string, JValue>)
    requires ext.Keys !! base.Keys
    ensures ExtensionFields(base + ext, base.Keys) == ext
  {
    var split := ExtensionFields(base + ext, base.Keys);
    assert split.Keys == ext.Keys;
    forall k | k in ext
      ensures split[k] == ext[k]
    {
      assert (base + ext)[k] == ext[k];
    }
  }

  /** The bytes MarshalWithExtensions prints parse back as the merged object. */
  lemma EncodedPayload(w: Wire, base: map<string, JValue>, ext: map<string, JValue>, data: Bytes)
    requires Lawful(w)
    requires EncodableMap(base) && EncodableMap(ext) && |ext| > 0
    requires Encode(w, JObj(base), ext) == Ok(data)
    ensures w.unmarshal(data) == Some(JObj(base + ext))
  {
    EncodeMergePrecedence(w, base, ext);
  }

  /** Decode of a payload that parses as an object, which the decoder accepts. */
  lemma DecodeObject<F>(w: Wire, dec: (F, JValue) -> Decoded<F>, emit: F -> map<string, JValue>,
                        r: Record<F>, data: Bytes, payload: map<string, JValue>, f: F)
    requires w.unmarshal(data) == Some(JObj(payload))
    requires dec(r.fields, JObj(payload)) == Decoded(f, true)
    ensures Decode(w, dec, emit, r, data)
            == (Record(f, StoreExtensions(w, r.ext.(rawData := data),
                                          ExtensionFields(payload, KnownFieldsOf(w, JObj(emit(f)))))), None)
  {
    assert UnmarshalObject(w, data) == Some(payload);
    var st := r.ext.(rawData := data);
    var ext := ExtensionFields(payload, KnownFieldsOf(w, JObj(emit(f))));
    assert Decode(w, dec, emit, r, data) == (Record(f, StoreExtensions(w, st, ext)), None);
  }
}
