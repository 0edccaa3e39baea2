/**
 * The JSON layer the codec stands on.  encoding/json itself (the byte-level
 * parser and printer) is not modelled: it is a pair of functions, a `Wire`,
 * about which the lemmas assume only that it is `Lawful`.  The module
 * ExactWire gives one wire that is.
 */
module Json {

  newtype byte = b: int | 0 <= b < 256

  type Bytes = seq<byte>

  datatype Option<+T> = None | Some(value: T)

  datatype Result<+T, +E> = Ok(value: T) | Err(error: E)

  /**
   * A JSON number literal, read as its digits `mantissa` scaled by ten to
   * the `exponent`: `150` is Number(150, 0), `1.50` is Number(150, -2) and
   * `1e2` is Number(1, 2).  A literal without fraction or exponent has
   * exponent 0.
   */
  datatype Number = Number(mantissa: int, exponent: int)

  /** The literal json.Marshal prints for a Go int. */
  function IntNumber(i: int): Number {
    Number(i, 0)
  }

  /** The zero test of omitempty and of a float64 field. */
  predicate IsZero(n: Number) {
    n.mantissa == 0
  }

  /**
   * A JSON value, with numbers kept as their literals, plus JForeign: a Go
   * value that json.Marshal refuses (a NaN, a func, a channel), which
   * SetExtension happily stores.
   */
  datatype JValue =
    | JNull
    | JBool(b: bool)
    | JNum(n: Number)
    | JStr(s: string)
    | JArr(items: seq<JValue>)
    | JObj(fields: map<string, JValue>)
    | JForeign(id: int)

  /** json.Marshal succeeds exactly on values without a foreign part. */
  predicate Encodable(v: JValue) {
    match v
    case JForeign(_) => false
    case JArr(items) => forall i :: 0 <= i < |items| ==> Encodable(items[i])
    case JObj(m) => forall k :: k in m ==> Encodable(m[k])
    case _ => true
  }

  /** An object of encodable members is encodable. */
  predicate EncodableMap(m: map<string, JValue>) {
    forall k :: k in m ==> Encodable(m[k])
  }

  /** An object is encodable exactly when its members are. */
  lemma EncodableObject(m: map<string, JValue>)
    ensures Encodable(JObj(m)) <==> EncodableMap(m)
  {
  }

  /** The printer and the parser of encoding/json, left abstract. */
  datatype Wire = Wire(marshal: JValue -> Bytes, unmarshal: Bytes -> Option<JValue>)

  /**
   * What the lemmas assume of encoding/json: what it prints it parses back,
   * and what it parses is encodable.
   */
  ghost predicate Lawful(w: Wire) {
    && (forall v {:trigger w.marshal(v)} :: Encodable(v) ==> w.unmarshal(w.marshal(v)) == Some(v))
    && (forall b :: w.unmarshal(b).Some? ==> Encodable(w.unmarshal(b).value))
  }

  /** json.Marshal(v): an error for a value outside JSON. */
  function Marshal(w: Wire, v: JValue): (r: Option<Bytes>)
    ensures r.Some? <==> Encodable(v)
    ensures Lawful(w) && r.Some? ==> w.unmarshal(r.value) == Some(v)
  {
    if Encodable(v) then Some(w.marshal(v)) else None
  }

  /**
   * json.Unmarshal(data, &m) for m of type map[string]interface{}: an object
   * fills m, `null` leaves m nil (no entries), anything else is an error.
   */
  function UnmarshalObject(w: Wire, data: Bytes): (r: Option<map<string, JValue>>)
    ensures r.Some? <==> w.unmarshal(data) == Some(JNull) || (w.unmarshal(data).Some? && w.unmarshal(data).value.JObj?)
    ensures w.unmarshal(data).Some? && w.unmarshal(data).value.JObj? ==> r == Some(w.unmarshal(data).value.fields)
    ensures w.unmarshal(data) == Some(JNull) ==> r == Some(map[])
  {
    match w.unmarshal(data)
    case Some(JObj(m)) => Some(m)
    case Some(JNull) => Some(map[])
    case _ => None
  }

  /** Merging two encodable objects gives an encodable object. */
  lemma EncodableMerge(base: map<string, JValue>, ext: map<string, JValue>)
    requires EncodableMap(base) && EncodableMap(ext)
    ensures Encodable(JObj(base + ext))
  {
    forall k | k in base + ext
      ensures Encodable((base + ext)[k])
    {
      if k in ext {
        assert (base + ext)[k] == ext[k];
      } else {
        assert (base + ext)[k] == base[k];
      }
    }
  }
}
