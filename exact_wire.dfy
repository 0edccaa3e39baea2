/**
 * A wire that is Lawful: an exact printer of JSON values (a tag byte, then
 * counts and digits in base 128) and the parser that reads it back.  It is
 * not encoding/json's text format.  It shows that what the codec lemmas
 * assume of encoding/json can be met, and lets them be instantiated.
 */
module ExactWire {
  import opened Json

  // Naturals: base-128 digits, lowest first; a byte of 128 or more says another digit follows.

  function NatBytes(n: nat): Bytes
    decreases n
  {
    if n < 128 then [n as byte] else [(128 + n % 128) as byte] + NatBytes(n / 128)
  }

  function ParseNat(b: Bytes): (r: Option<(nat, Bytes)>)
    ensures r.Some? ==> |r.value.1| < |b|
    decreases |b|
  {
    if |b| == 0 then None
    else if b[0] < 128 then Some((b[0] as nat, b[1..]))
    else match ParseNat(b[1..])
      case None => None
      case Some((n, rest)) => Some((b[0] as int - 128 + 128 * n, rest))
  }

  lemma {:induction false} NatRoundTrip(n: nat, rest: Bytes)
    ensures ParseNat(NatBytes(n) + rest) == Some((n, rest))
    decreases n
  {
    var b := NatBytes(n) + rest;
    if n < 128 {
      assert b[1..] == rest;
    } else {
      NatRoundTrip(n / 128, rest);
      assert b[1..] == NatBytes(n / 128) + rest;
    }
  }

  // Integers: a sign byte, then the magnitude.

  function IntBytes(i: int): Bytes {
    if i >= 0 then [0 as byte] + NatBytes(i) else [1 as byte] + NatBytes(-i)
  }

  function ParseInt(b: Bytes): (r: Option<(int, Bytes)>)
    ensures r.Some? ==> |r.value.1| < |b|
  {
    if |b| == 0 || b[0] > 1 then None
    else match ParseNat(b[1..])
      case None => None
      case Some((n, rest)) =>
        var i: int := if b[0] == 0 then n else -(n as int);
        Some((i, rest))
  }

  lemma IntRoundTrip(i: int, rest: Bytes)
    ensures ParseInt(IntBytes(i) + rest) == Some((i, rest))
  {
    var magnitude: nat := if i >= 0 then i else -i;
    var sign: byte := if i >= 0 then 0 else 1;
    SignedRoundTrip(sign, magnitude, rest);
    assert IntBytes(i) == [sign] + NatBytes(magnitude);
  }

  lemma SignedRoundTrip(sign: byte, magnitude: nat, rest: Bytes)
    requires sign <= 1
    ensures ParseInt([sign] + NatBytes(magnitude) + rest)
            == Some((if sign == 0 then magnitude else -(magnitude as int), rest))
  {
    var b := [sign] + NatBytes(magnitude) + rest;
    assert b[1..] == NatBytes(magnitude) + rest;
    NatRoundTrip(magnitude, rest);
  }

  // Strings: the length, then each character's code point.

  function CharsBytes(s: string): Bytes
    decreases |s|
  {
    if s == [] then [] else NatBytes(s[0] as int) + CharsBytes(s[1..])
  }

  function StrBytes(s: string): Bytes {
    NatBytes(|s|) + CharsBytes(s)
  }

  function ParseChars(n: nat, b: Bytes): (r: Option<(string, Bytes)>)
    ensures r.Some? ==> |r.value.1| <= |b|
    decreases n
  {
    if n == 0 then Some(([], b))
    else match ParseNat(b)
      case None => None
      case Some((c, rest)) =>
        if !(c < 0xD800 || 0xE000 <= c < 0x110000) then None
        else match ParseChars(n - 1, rest)
          case None => None
          case Some((s, rest2)) => Some(([c as char] + s, rest2))
  }

  function ParseStr(b: Bytes): (r: Option<(string, Bytes)>)
    ensures r.Some? ==> |r.value.1| < |b|
  {
    match ParseNat(b)
    case None => None
    case Some((n, rest)) => ParseChars(n, rest)
  }

  lemma {:induction false} CharsRoundTrip(s: string, rest: Bytes)
    ensures ParseChars(|s|, CharsBytes(s) + rest) == Some((s, rest))
    decreases |s|
  {
    if s != [] {
      var tail := CharsBytes(s[1..]) + rest;
      assert CharsBytes(s) + rest == NatBytes(s[0] as int) + tail;
      NatRoundTrip(s[0] as int, tail);
      CharsRoundTrip(s[1..], rest);
      assert ParseChars(|s| - 1, tail) == Some((s[1..], rest));
      var c := s[0] as int;
      assert ParseNat(CharsBytes(s) + rest) == Some((c, tail));
      assert c < 0xD800 || 0xE000 <= c < 0x110000;
      assert c as char == s[0];
      assert ParseChars(|s|, CharsBytes(s) + rest) == Some(([c as char] + s[1..], rest));
      assert [s[0]] + s[1..] == s;
    } else {
      assert CharsBytes(s) + rest == rest;
    }
  }

  lemma StrRoundTrip(s: string, rest: Bytes)
    ensures ParseStr(StrBytes(s) + rest) == Some((s, rest))
  {
    assert StrBytes(s) + rest == NatBytes(|s|) + (CharsBytes(s) + rest);
    NatRoundTrip(|s|, CharsBytes(s) + rest);
    CharsRoundTrip(s, rest);
  }

  // Values.

  /** The keys of an object in the order they are printed: each key once. */
  ghost function KeyOrder(keys: set<string>): (ks: seq<string>)
    ensures forall k :: k in ks <==> k in keys
    ensures forall i, j :: 0 <= i < j < |ks| ==> ks[i] != ks[j]
    decreases keys
  {
    if keys == {} then []
    else
      var k :| k in keys;
      var rest := KeyOrder(keys - {k});
      assert forall i :: 0 <= i < |rest| ==> ([k] + rest)[i + 1] == rest[i];
      [k] + rest
  }

  ghost function Print(v: JValue): Bytes
    decreases v, 2
  {
    match v
    case JNull => [0]
    case JBool(b) => if b then [2] else [1]
    case JNum(n) => [3] + IntBytes(n.mantissa) + IntBytes(n.exponent)
    case JStr(s) => [4] + StrBytes(s)
    case JArr(items) => [5] + NatBytes(|items|) + PrintItems(items, v)
    case JObj(m) =>
      var ks := KeyOrder(m.Keys);
      [6] + NatBytes(|ks|) + PrintEntries(ks, v)
    case JForeign(id) => [7] + IntBytes(id)
  }

  ghost function PrintItems(items: seq<JValue>, parent: JValue): Bytes
    requires parent.JArr? && forall i :: 0 <= i < |items| ==> items[i] in parent.items
    decreases parent, 1, |items|
  {
    if items == [] then []
    else
      assert items[0] in parent.items;
      Print(items[0]) + PrintItems(items[1..], parent)
  }

  ghost function PrintEntries(ks: seq<string>, parent: JValue): Bytes
    requires parent.JObj? && forall i :: 0 <= i < |ks| ==> ks[i] in parent.fields
    decreases parent, 1, |ks|
  {
    if ks == [] then []
    else StrBytes(ks[0]) + Print(parent.fields[ks[0]]) + PrintEntries(ks[1..], parent)
  }

  function ParseValue(b: Bytes): (r: Option<(JValue, Bytes)>)
    ensures r.Some? ==> |r.value.1| < |b|
    decreases |b|, 0
  {
    if |b| == 0 then None
    else
      var t := b[1..];
      if b[0] == 0 then Some((JNull, t))
      else if b[0] == 1 then Some((JBool(false), t))
      else if b[0] == 2 then Some((JBool(true), t))
      else if b[0] == 3 then
        match ParseInt(t)
        case None => None
        case Some((mantissa, t2)) =>
          match ParseInt(t2)
          case None => None
          case Some((exponent, t3)) => Some((JNum(Number(mantissa, exponent)), t3))
      else if b[0] == 4 then
        match ParseStr(t)
        case None => None
        case Some((s, t2)) => Some((JStr(s), t2))
      else if b[0] == 5 then
        match ParseNat(t)
        case None => None
        case Some((n, t2)) =>
          match ParseItems(n, t2)
          case None => None
          case Some((items, t3)) => Some((JArr(items), t3))
      else if b[0] == 6 then
        match ParseNat(t)
        case None => None
        case Some((n, t2)) =>
          match ParseEntries(n, t2)
          case None => None
          case Some((m, t3)) => Some((JObj(m), t3))
      else None
  }

  function ParseItems(n: nat, b: Bytes): (r: Option<(seq<JValue>, Bytes)>)
    ensures r.Some? ==> |r.value.1| <= |b|
    decreases |b|, 1, n
  {
    if n == 0 then Some(([], b))
    else match ParseValue(b)
      case None => None
      case Some((v, rest)) =>
        match ParseItems(n - 1, rest)
        case None => None
        case Some((items, rest2)) => Some(([v] + items, rest2))
  }

  function ParseEntries(n: nat, b: Bytes): (r: Option<(map<string, JValue>, Bytes)>)
    ensures r.Some? ==> |r.value.1| <= |b|
    decreases |b|, 1, n
  {
    if n == 0 then Some((map[], b))
    else match ParseStr(b)
      case None => None
      case Some((k, rest)) =>
        match ParseValue(rest)
        case None => None
        case Some((v, rest2)) =>
          match ParseEntries(n - 1, rest2)
          case None => None
          case Some((m, rest3)) => Some((m[k := v], rest3))
  }

  /** The whole input must be one value. */
  function Unmarshal(b: Bytes): Option<JValue> {
    match ParseValue(b)
    case Some((v, rest)) => if rest == [] then Some(v) else None
    case None => None
  }

  ghost const Exact: Wire := Wire(v => Print(v), b => Unmarshal(b))

  // What it prints it reads back.

  lemma {:induction false} ValueRoundTrip(v: JValue, rest: Bytes)
    requires Encodable(v)
    ensures ParseValue(Print(v) + rest) == Some((v, rest))
    decreases v, 3
  {
    match v
    case JNull => assert (Print(v) + rest)[1..] == rest;
    case JBool(_) => assert (Print(v) + rest)[1..] == rest;
    case JNum(n) => NumRoundTrip(n, rest);
    case JStr(s) => StrValueRoundTrip(s, rest);
    case JArr(items) => ArrRoundTrip(v, rest);
    case JObj(m) => ObjRoundTrip(v, rest);
  }

  lemma NumRoundTrip(n: Number, rest: Bytes)
    ensures ParseValue(Print(JNum(n)) + rest) == Some((JNum(n), rest))
  {
    var b := Print(JNum(n)) + rest;
    assert b[1..] == IntBytes(n.mantissa) + (IntBytes(n.exponent) + rest);
    IntRoundTrip(n.mantissa, IntBytes(n.exponent) + rest);
    IntRoundTrip(n.exponent, rest);
  }

  lemma StrValueRoundTrip(s: string, rest: Bytes)
    ensures ParseValue(Print(JStr(s)) + rest) == Some((JStr(s), rest))
  {
    assert (Print(JStr(s)) + rest)[1..] == StrBytes(s) + rest;
    StrRoundTrip(s, rest);
  }

  lemma {:induction false} ArrRoundTrip(v: JValue, rest: Bytes)
    requires v.JArr? && Encodable(v)
    ensures ParseValue(Print(v) + rest) == Some((v, rest))
    decreases v, 2
  {
    var body := PrintItems(v.items, v) + rest;
    assert Print(v) + rest == [5] + (NatBytes(|v.items|) + body);
    ItemsRoundTrip(v.items, v, rest);
    ArrayStep(Print(v) + rest, |v.items|, body, v.items, rest);
  }

  /** Reading an array: its tag, its count, then that many items. */
  lemma ArrayStep(b: Bytes, n: nat, body: Bytes, items: seq<JValue>, rest: Bytes)
    requires b == [5] + (NatBytes(n) + body)
    requires ParseItems(n, body) == Some((items, rest))
    ensures ParseValue(b) == Some((JArr(items), rest))
  {
    assert b[1..] == NatBytes(n) + body;
    NatRoundTrip(n, body);
  }

  lemma {:induction false} ObjRoundTrip(v: JValue, rest: Bytes)
    requires v.JObj? && Encodable(v)
    ensures ParseValue(Print(v) + rest) == Some((v, rest))
    decreases v, 2
  {
    var ks := KeyOrder(v.fields.Keys);
    var body := PrintEntries(ks, v) + rest;
    PrintObject(v, ks, rest);
    EntriesRoundTrip(ks, v, rest);
    AllKeys(v.fields, ks);
    ObjectStep(Print(v) + rest, |ks|, body, v.fields, rest);
  }

  /** Reading an object: its tag, its count, then that many entries. */
  lemma ObjectStep(b: Bytes, n: nat, body: Bytes, m: map<string, JValue>, rest: Bytes)
    requires b == [6] + (NatBytes(n) + body)
    requires ParseEntries(n, body) == Some((m, rest))
    ensures ParseValue(b) == Some((JObj(m), rest))
  {
    assert b[1..] == NatBytes(n) + body;
    NatRoundTrip(n, body);
  }

  lemma PrintObject(v: JValue, ks: seq<string>, rest: Bytes)
    requires v.JObj? && ks == KeyOrder(v.fields.Keys)
    ensures Print(v) + rest == [6] + (NatBytes(|ks|) + (PrintEntries(ks, v) + rest))
  {
  }

  /** The fields of m at the keys ks. */
  function Pick(ks: seq<string>, m: map<string, JValue>): map<string, JValue>
    requires forall i :: 0 <= i < |ks| ==> ks[i] in m
  {
    map k | k in ks :: m[k]
  }

  lemma AllKeys(m: map<string, JValue>, ks: seq<string>)
    requires forall k :: k in ks <==> k in m
    ensures Pick(ks, m) == m
  {
  }

  lemma {:induction false} ItemsRoundTrip(items: seq<JValue>, parent: JValue, rest: Bytes)
    requires parent.JArr? && forall i :: 0 <= i < |items| ==> items[i] in parent.items
    requires Encodable(parent)
    ensures ParseItems(|items|, PrintItems(items, parent) + rest) == Some((items, rest))
    decreases parent, 1, |items|
  {
    if items != [] {
      assert items[0] in parent.items;
      var tail := PrintItems(items[1..], parent) + rest;
      ValueRoundTrip(items[0], tail);
      assert forall i :: 0 <= i < |items[1..]| ==> items[1..][i] == items[i + 1];
      ItemsRoundTrip(items[1..], parent, rest);
      PrintItemsCons(items, parent, rest);
      ItemStep(items, Print(items[0]), tail, PrintItems(items, parent) + rest, rest);
    } else {
      assert PrintItems(items, parent) + rest == rest;
    }
  }

  lemma PrintItemsCons(items: seq<JValue>, parent: JValue, rest: Bytes)
    requires parent.JArr? && items != [] && forall i :: 0 <= i < |items| ==> items[i] in parent.items
    ensures PrintItems(items, parent) + rest == Print(items[0]) + (PrintItems(items[1..], parent) + rest)
  {
  }

  /** Reading one more item: its value, then the items after it. */
  lemma ItemStep(items: seq<JValue>, vb: Bytes, tail: Bytes, b: Bytes, rest: Bytes)
    requires items != [] && b == vb + tail
    requires ParseValue(vb + tail) == Some((items[0], tail))
    requires ParseItems(|items| - 1, tail) == Some((items[1..], rest))
    ensures ParseItems(|items|, b) == Some((items, rest))
  {
    assert [items[0]] + items[1..] == items;
  }

  lemma {:induction false} EntriesRoundTrip(ks: seq<string>, parent: JValue, rest: Bytes)
    requires parent.JObj? && forall i :: 0 <= i < |ks| ==> ks[i] in parent.fields
    requires Encodable(parent)
    ensures ParseEntries(|ks|, PrintEntries(ks, parent) + rest)
            == Some((Pick(ks, parent.fields), rest))
    decreases parent, 1, |ks|
  {
    if ks != [] {
      var tail := PrintEntries(ks[1..], parent) + rest;
      ValueRoundTrip(parent.fields[ks[0]], tail);
      assert forall i :: 0 <= i < |ks[1..]| ==> ks[1..][i] == ks[i + 1];
      EntriesRoundTrip(ks[1..], parent, rest);
      PrintEntriesCons(ks, parent, rest);
      EntryStep(ks, parent.fields, Print(parent.fields[ks[0]]), tail, PrintEntries(ks, parent) + rest, rest);
    } else {
      assert PrintEntries(ks, parent) + rest == rest;
    }
  }

  lemma PrintEntriesCons(ks: seq<string>, parent: JValue, rest: Bytes)
    requires parent.JObj? && ks != [] && forall i :: 0 <= i < |ks| ==> ks[i] in parent.fields
    ensures PrintEntries(ks, parent) + rest
            == StrBytes(ks[0]) + (Print(parent.fields[ks[0]]) + (PrintEntries(ks[1..], parent) + rest))
  {
  }

  /** Reading one more entry: its key, its value, then the entries after it. */
  lemma EntryStep(ks: seq<string>, fields: map<string, JValue>, vb: Bytes, tail: Bytes, b: Bytes, rest: Bytes)
    requires ks != [] && forall i :: 0 <= i < |ks| ==> ks[i] in fields
    requires b == StrBytes(ks[0]) + (vb + tail)
    requires ParseValue(vb + tail) == Some((fields[ks[0]], tail))
    requires ParseEntries(|ks| - 1, tail) == Some((Pick(ks[1..], fields), rest))
    ensures ParseEntries(|ks|, b) == Some((Pick(ks, fields), rest))
  {
    StrRoundTrip(ks[0], vb + tail);
    ConsKeys(ks, fields);
  }

  lemma ConsKeys(ks: seq<string>, fields: map<string, JValue>)
    requires ks != [] && forall i :: 0 <= i < |ks| ==> ks[i] in fields
    ensures Pick(ks[1..], fields)[ks[0] := fields[ks[0]]] == Pick(ks, fields)
  {
  }

  // What it reads can be printed.

  lemma {:induction false} ParsedEncodable(b: Bytes)
    ensures ParseValue(b).Some? ==> Encodable(ParseValue(b).value.0)
    decreases |b|, 0
  {
    if |b| > 0 && ParseValue(b).Some? {
      var t := b[1..];
      if b[0] == 5 {
        var (n, t2) := ParseNat(t).value;
        ItemsEncodable(n, t2);
      } else if b[0] == 6 {
        var (n, t2) := ParseNat(t).value;
        EntriesEncodable(n, t2);
      }
    }
  }

  lemma {:induction false} ItemsEncodable(n: nat, b: Bytes)
    ensures ParseItems(n, b).Some? ==> Encodable(JArr(ParseItems(n, b).value.0))
    decreases |b|, 1, n
  {
    if n > 0 && ParseItems(n, b).Some? {
      var (v, rest) := ParseValue(b).value;
      ParsedEncodable(b);
      ItemsEncodable(n - 1, rest);
      var items := ParseItems(n - 1, rest).value.0;
      assert ParseItems(n, b).value.0 == [v] + items;
    }
  }

  lemma {:induction false} EntriesEncodable(n: nat, b: Bytes)
    ensures ParseEntries(n, b).Some? ==> Encodable(JObj(ParseEntries(n, b).value.0))
    decreases |b|, 1, n
  {
    if n > 0 && ParseEntries(n, b).Some? {
      var (k, rest) := ParseStr(b).value;
      var (v, rest2) := ParseValue(rest).value;
      ParsedEncodable(rest);
      EntriesEncodable(n - 1, rest2);
    }
  }

  /** The exact wire meets everything the codec lemmas assume of encoding/json. */
  lemma ExactIsLawful()
    ensures Lawful(Exact)
  {
    forall v | Encodable(v)
      ensures Exact.unmarshal(Exact.marshal(v)) == Some(v)
    {
      ValueRoundTrip(v, []);
      assert Print(v) + [] == Print(v);
    }
    forall b | Exact.unmarshal(b).Some?
      ensures Encodable(Exact.unmarshal(b).value)
    {
      ParsedEncodable(b);
    }
  }
}
