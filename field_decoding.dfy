/**
 * How json.Unmarshal fills one struct field of each kind the stream records
 * use, from the parsed object `m`.  A missing key never touches the field.
 * `null` leaves a value kind (string, number, struct) as it was and resets
 * a pointer or a slice to nil.  A value of the wrong JSON type is an error
 * that leaves the field as it was.  A field whose type has its own
 * UnmarshalJSON (a nested stream record) is handed its own bytes, `null`
 * included, and decoded by the codec into its own store.
 */
module FieldDecoding {
  import opened Json
  import opened Extensions
  import opened Codec

  /** The encoded value of a Go pointer to a type not modelled here: nil prints null. */
  function PointerValue(p: Option<JValue>): JValue {
    if p.Some? then p.value else JNull
  }

  function IntArray(xs: seq<int>): JValue {
    JArr(seq(|xs|, i requires 0 <= i < |xs| => JNum(IntNumber(xs[i]))))
  }

  /** The encoded values of a slice of stream records, each through its own MarshalJSON. */
  function EncodeRecords<F>(emit: F -> map<string, JValue>, rs: seq<Record<F>>): (items: seq<JValue>)
    ensures |items| == |rs|
  {
    seq(|rs|, i requires 0 <= i < |rs| => JObj(Encoded(emit, rs[i])))
  }

  /**
   * On a lawful wire, item i of a printed slice is what record i's own
   * MarshalJSON bytes parse back to.
   */
  lemma EncodeRecordsItem<F>(w: Wire, emit: F -> map<string, JValue>, rs: seq<Record<F>>, i: nat)
    requires Lawful(w) && i < |rs|
    requires EncodableMap(emit(rs[i].fields)) && EncodableMap(ExtensionMap(rs[i].ext))
    ensures Encode(w, JObj(emit(rs[i].fields)), ExtensionMap(rs[i].ext)).Ok?
    ensures w.unmarshal(Encode(w, JObj(emit(rs[i].fields)), ExtensionMap(rs[i].ext)).value)
            == Some(EncodeRecords(emit, rs)[i])
  {
    var base, ext := emit(rs[i].fields), ExtensionMap(rs[i].ext);
    EncodableObject(base);
    if |ext| == 0 {
      assert base + ext == base;
    } else {
      EncodeMergePrecedence(w, base, ext);
    }
  }

  function DecString(m: map<string, JValue>, key: string, prev: string): (r: Decoded<string>)
    ensures r.ok <==> key !in m || m[key].JNull? || m[key].JStr?
    ensures key in m && m[key].JStr? ==> r.value == m[key].s
    ensures !(key in m && m[key].JStr?) ==> r.value == prev
  {
    if key !in m then Decoded(prev, true)
    else match m[key]
      case JNull => Decoded(prev, true)
      case JStr(s) => Decoded(s, true)
      case _ => Decoded(prev, false)
  }

  /**
   * One int: `null` keeps it, and only a literal without fraction or
   * exponent is an integer (strconv.ParseInt); any other value is a type
   * error that keeps it.
   */
  function DecIntValue(v: JValue, prev: int): (r: Decoded<int>)
    ensures r.ok <==> v.JNull? || (v.JNum? && v.n.exponent == 0)
    ensures v.JNum? && v.n.exponent == 0 ==> r.value == v.n.mantissa
    ensures !(v.JNum? && v.n.exponent == 0) ==> r.value == prev
  {
    match v
    case JNull => Decoded(prev, true)
    case JNum(n) => if n.exponent == 0 then Decoded(n.mantissa, true) else Decoded(prev, false)
    case _ => Decoded(prev, false)
  }

  function DecInt(m: map<string, JValue>, key: string, prev: int): (r: Decoded<int>)
    ensures key !in m ==> r == Decoded(prev, true)
    ensures key in m ==> r == DecIntValue(m[key], prev)
  {
    if key !in m then Decoded(prev, true) else DecIntValue(m[key], prev)
  }

  /** A float64 field, held as the literal it was read from. */
  function DecNumber(m: map<string, JValue>, key: string, prev: Number): (r: Decoded<Number>)
    ensures r.ok <==> key !in m || m[key].JNull? || m[key].JNum?
    ensures key in m && m[key].JNum? ==> r.value == m[key].n
    ensures !(key in m && m[key].JNum?) ==> r.value == prev
  {
    if key !in m then Decoded(prev, true)
    else match m[key]
      case JNull => Decoded(prev, true)
      case JNum(n) => Decoded(n, true)
      case _ => Decoded(prev, false)
  }

  /** The element a slice already holds at position i, and zero past its end. */
  function Reused(prev: seq<int>, i: nat): int {
    if i < |prev| then prev[i] else 0
  }

  /**
   * A []int field: `null` resets it to nil.  An array gives one element per
   * item, each decoded into the element already there, so a `null` item or
   * a wrong-typed one keeps that element; the other items are still read,
   * and any wrong-typed item makes the whole an error.
   */
  function DecIntSlice(m: map<string, JValue>, key: string, prev: seq<int>): (r: Decoded<seq<int>>)
    ensures key !in m ==> r == Decoded(prev, true)
    ensures key in m && m[key].JNull? ==> r == Decoded([], true)
    ensures key in m && !m[key].JNull? && !m[key].JArr? ==> r == Decoded(prev, false)
    ensures key in m && m[key].JArr? ==> |r.value| == |m[key].items|
    ensures key in m && m[key].JArr? ==>
              forall i :: 0 <= i < |r.value| && m[key].items[i].JNull? ==> r.value[i] == Reused(prev, i)
    ensures key in m && m[key].JArr? ==>
              forall i :: 0 <= i < |r.value| && m[key].items[i].JNum? && m[key].items[i].n.exponent == 0
                          ==> r.value[i] == m[key].items[i].n.mantissa
    ensures key in m && m[key].JArr? ==>
              (r.ok <==> forall i :: 0 <= i < |m[key].items| ==>
                           m[key].items[i].JNull? || (m[key].items[i].JNum? && m[key].items[i].n.exponent == 0))
  {
    if key !in m then Decoded(prev, true)
    else match m[key]
      case JNull => Decoded([], true)
      case JArr(items) =>
        var elems := seq(|items|, i requires 0 <= i < |items| => DecIntValue(items[i], Reused(prev, i)));
        var r := Decoded(seq(|elems|, i requires 0 <= i < |elems| => elems[i].value),
                         forall i :: 0 <= i < |elems| ==> elems[i].ok);
        assert forall i :: 0 <= i < |items| ==> r.value[i] == elems[i].value;
        assert forall i :: 0 <= i < |items| ==> elems[i] == DecIntValue(items[i], Reused(prev, i));
        assert r.ok == (forall i :: 0 <= i < |elems| ==> elems[i].ok);
        r
      case _ => Decoded(prev, false)
  }

  /** A value-kind field of a type not modelled here: it takes the JSON value as given. */
  function DecValue(m: map<string, JValue>, key: string, prev: JValue): (r: Decoded<JValue>)
    ensures r.ok
    ensures key in m && m[key] != JNull ==> r.value == m[key]
    ensures key !in m || m[key] == JNull ==> r.value == prev
  {
    if key !in m || m[key] == JNull then Decoded(prev, true) else Decoded(m[key], true)
  }

  /** A pointer field of a type not modelled here. */
  function DecPointer(m: map<string, JValue>, key: string, prev: Option<JValue>): (r: Decoded<Option<JValue>>)
    ensures r.ok
    ensures key !in m ==> r.value == prev
    ensures key in m ==> (r.value.None? <==> m[key] == JNull)
    ensures key in m && r.value.Some? ==> r.value.value == m[key]
  {
    if key !in m then Decoded(prev, true)
    else if m[key] == JNull then Decoded(None, true)
    else Decoded(Some(m[key]), true)
  }

  /** A slice field of a type not modelled here. */
  function DecSlice(m: map<string, JValue>, key: string, prev: seq<JValue>): (r: Decoded<seq<JValue>>)
    ensures r.ok <==> key !in m || m[key].JNull? || m[key].JArr?
    ensures key in m && m[key].JArr? ==> r.value == m[key].items
    ensures key in m && m[key].JNull? ==> r.value == []
    ensures key !in m || (!m[key].JNull? && !m[key].JArr?) ==> r.value == prev
  {
    if key !in m then Decoded(prev, true)
    else match m[key]
      case JNull => Decoded([], true)
      case JArr(items) => Decoded(items, true)
      case _ => Decoded(prev, false)
  }

  /** A nested stream record held by value: its UnmarshalJSON runs on its own bytes. */
  function DecRecord<F>(w: Wire, dec: (F, JValue) -> Decoded<F>, emit: F -> map<string, JValue>,
                        m: map<string, JValue>, key: string, prev: Record<F>): (r: Decoded<Record<F>>)
    ensures key !in m ==> r == Decoded(prev, true)
    ensures key in m ==> r.value.ext.rawData == w.marshal(m[key])
    ensures key in m ==> (r.ok <==> Decode(w, dec, emit, prev, w.marshal(m[key])).1.None?)
  {
    if key !in m then Decoded(prev, true)
    else
      var (r, err) := Decode(w, dec, emit, prev, w.marshal(m[key]));
      Decoded(r, err.None?)
  }

  /** A pointer to a nested stream record: null resets it, otherwise it is allocated if nil and decoded. */
  function DecRecordPointer<F>(w: Wire, dec: (F, JValue) -> Decoded<F>, emit: F -> map<string, JValue>, zero: F,
                               m: map<string, JValue>, key: string, prev: Option<Record<F>>)
    : (r: Decoded<Option<Record<F>>>)
    ensures key !in m ==> r == Decoded(prev, true)
    ensures key in m && m[key] == JNull ==> r == Decoded(None, true)
    ensures key in m && m[key] != JNull ==> r.value.Some? && r.value.value.ext.rawData == w.marshal(m[key])
    ensures key in m && m[key] != JNull ==>
              (r.ok <==> Decode(w, dec, emit, if prev.Some? then prev.value else Record(zero, EmptyStore),
                                w.marshal(m[key])).1.None?)
  {
    if key !in m then Decoded(prev, true)
    else if m[key] == JNull then Decoded(None, true)
    else
      var target := if prev.Some? then prev.value else Record(zero, EmptyStore);
      var (r, err) := Decode(w, dec, emit, target, w.marshal(m[key]));
      Decoded(Some(r), err.None?)
  }

  /** A slice of nested stream records: each element is decoded from the zero record. */
  function DecRecordSlice<F>(w: Wire, dec: (F, JValue) -> Decoded<F>, emit: F -> map<string, JValue>, zero: F,
                             m: map<string, JValue>, key: string, prev: seq<Record<F>>)
    : (r: Decoded<seq<Record<F>>>)
    ensures key !in m ==> r == Decoded(prev, true)
    ensures key in m && m[key].JNull? ==> r == Decoded([], true)
    ensures key in m && !m[key].JNull? && !m[key].JArr? ==> r == Decoded(prev, false)
    ensures key in m && m[key].JArr? ==> |r.value| == |m[key].items|
    ensures key in m && m[key].JArr? ==>
              forall i :: 0 <= i < |r.value| ==> r.value[i].ext.rawData == w.marshal(m[key].items[i])
    ensures key in m && m[key].JArr? ==>
              (r.ok <==> forall i :: 0 <= i < |m[key].items| ==>
                           Decode(w, dec, emit, Record(zero, EmptyStore), w.marshal(m[key].items[i])).1.None?)
  {
    if key !in m then Decoded(prev, true)
    else match m[key]
      case JNull => Decoded([], true)
      case JArr(items) =>
        var results := seq(|items|, i requires 0 <= i < |items| =>
                             Decode(w, dec, emit, Record(zero, EmptyStore), w.marshal(items[i])));
        Decoded(seq(|results|, i requires 0 <= i < |results| => results[i].0),
                forall i :: 0 <= i < |results| ==> results[i].1.None?)
      case _ => Decoded(prev, false)
  }
}
