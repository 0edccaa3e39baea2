/**
 * The extension store of json.go: a lazily allocated map of extension
 * fields, the raw bytes of the last decoded payload and the re-serialised
 * bytes of its extension subset.
 *
 * `Store` is the value of an embedded RawExtensions (what a record holds);
 * the class `RawExtensions` is the same store updated in place through its
 * pointer-receiver methods, and its `State()` is a `Store`.
 */
module Extensions {
  import opened Json

  /** `extensions` is None while the Go map is nil. */
  datatype Store = Store(extensions: Option<map<string, JValue>>, rawData: Bytes, extensionRawData: Bytes)

  /** The zero value of RawExtensions. */
  const EmptyStore := Store(None, [], [])

  /** The entries of the store's map; a nil map has none. */
  function ExtensionMap(s: Store): map<string, JValue> {
    if s.extensions.Some? then s.extensions.value else map[]
  }

  /** GetExtension on a store value: Go's (value, exists) pair, (nil, false) when absent. */
  function LookupExtension(s: Store, key: string): (r: (JValue, bool))
    ensures r.1 <==> key in ExtensionMap(s)
    ensures r.1 ==> r.0 == ExtensionMap(s)[key]
    ensures !r.1 ==> r.0 == JNull
  {
    match s.extensions
    case None => (JNull, false)
    case Some(m) => if key in m then (m[key], true) else (JNull, false)
  }

  /** SetExtension on a store value: allocates the map if nil, then sets the key. */
  function WithExtension(s: Store, key: string, value: JValue): (t: Store)
    ensures t.extensions.Some?
    ensures LookupExtension(t, key) == (value, true)
    ensures forall k :: k != key ==> LookupExtension(t, k) == LookupExtension(s, k)
    ensures ExtensionMap(t).Keys == ExtensionMap(s).Keys + {key}
    ensures t.rawData == s.rawData && t.extensionRawData == s.extensionRawData
  {
    s.(extensions := Some(ExtensionMap(s)[key := value]))
  }

  /** Sets keys[i] to values[i] in order, as a sequence of SetExtension calls. */
  function WithExtensions(s: Store, keys: seq<string>, values: seq<JValue>): (t: Store)
    requires |keys| == |values|
    ensures t.rawData == s.rawData && t.extensionRawData == s.extensionRawData
    ensures |keys| > 0 ==> t.extensions.Some?
    decreases |keys|
  {
    if keys == [] then s
    else WithExtensions(WithExtension(s, keys[0], values[0]), keys[1..], values[1..])
  }

  lemma {:induction false} WithExtensionsKeys(s: Store, keys: seq<string>, values: seq<JValue>)
    requires |keys| == |values|
    ensures ExtensionMap(WithExtensions(s, keys, values)).Keys
            == ExtensionMap(s).Keys + set i | 0 <= i < |keys| :: keys[i]
    decreases |keys|
  {
    if keys != [] {
      WithExtensionsKeys(WithExtension(s, keys[0], values[0]), keys[1..], values[1..]);
      assert (set i | 0 <= i < |keys| :: keys[i])
          == {keys[0]} + set i | 0 <= i < |keys[1..]| :: keys[1..][i];
    }
  }

  /**
   * Setting N distinct keys on a fresh store leaves exactly N entries, as
   * GetExtensions then reports.
   */
  lemma {:induction false} DistinctSetsCount(keys: seq<string>, values: seq<JValue>)
    requires |keys| == |values|
    requires forall i, j :: 0 <= i < j < |keys| ==> keys[i] != keys[j]
    ensures |ExtensionMap(WithExtensions(EmptyStore, keys, values))| == |keys|
  {
    WithExtensionsKeys(EmptyStore, keys, values);
    DistinctCard(keys);
  }

  lemma {:induction false} DistinctCard(keys: seq<string>)
    requires forall i, j :: 0 <= i < j < |keys| ==> keys[i] != keys[j]
    ensures |set i | 0 <= i < |keys| :: keys[i]| == |keys|
  {
    if keys != [] {
      var rest := keys[1..];
      DistinctCard(rest);
      var tail := set i | 0 <= i < |rest| :: rest[i];
      assert (set i | 0 <= i < |keys| :: keys[i]) == {keys[0]} + tail;
      forall i | 0 <= i < |rest|
        ensures rest[i] != keys[0]
      {
        assert rest[i] == keys[i + 1];
      }
    }
  }

  class RawExtensions {
    /** Extensions: meaningful only while `isNil` is false. */
    var extensions: map<string, JValue>
    /** Whether the Go map is still nil. */
    var isNil: bool
    var rawData: array<byte>
    var extensionRawData: Bytes

    function State(): Store
      reads this, rawData
    {
      Store(if isNil then None else Some(extensions), rawData[..], extensionRawData)
    }

    /** The zero value: nil map, nil slices. */
    constructor ()
      ensures fresh(rawData)
      ensures State() == EmptyStore
    {
      extensions := map[];
      isNil := true;
      rawData := new byte[0];
      extensionRawData := [];
    }

    /** A store holding the given value (the embedded store of a record). */
    constructor FromStore(s: Store)
      ensures fresh(rawData)
      ensures State() == s
    {
      extensions := ExtensionMap(s);
      isNil := s.extensions.None?;
      rawData := new byte[|s.rawData|](i requires 0 <= i < |s.rawData| => s.rawData[i]);
      extensionRawData := s.extensionRawData;
    }

    /** SetExtension: allocate the map on first use, then store the value. */
    method SetExtension(key: string, value: JValue)
      modifies this
      ensures rawData == old(rawData)
      ensures State() == WithExtension(old(State()), key, value)
    {
      if isNil {
        extensions := map[];
        isNil := false;
      }
      extensions := extensions[key := value];
    }

    /** GetExtension: a nil map answers (nil, false) and is not allocated. */
    function GetExtension(key: string): (r: (JValue, bool))
      reads this, rawData
      ensures r == LookupExtension(State(), key)
      ensures r.1 <==> !isNil && key in extensions
      ensures r.1 ==> r.0 == extensions[key]
      ensures !r.1 ==> r.0 == JNull
    {
      if isNil then (JNull, false)
      else if key in extensions then (extensions[key], true)
      else (JNull, false)
    }

    /** GetExtensions: allocates the map if nil and hands it out. */
    method GetExtensions() returns (ext: map<string, JValue>)
      modifies this
      ensures rawData == old(rawData)
      ensures !isNil
      ensures ext == ExtensionMap(old(State())) && State().extensions == Some(ext)
      ensures State().rawData == old(State()).rawData
      ensures State().extensionRawData == old(State()).extensionRawData
    {
      if isNil {
        extensions := map[];
        isNil := false;
      }
      ext := extensions;
    }

    /** SetRawData: copies `data` into a freshly allocated buffer of its length. */
    method SetRawData(data: array<byte>)
      modifies this
      ensures fresh(rawData) && rawData != data
      ensures rawData.Length == data.Length && rawData[..] == data[..]
      ensures State() == old(State()).(rawData := data[..])
    {
      var buffer := new byte[data.Length];
      for i := 0 to data.Length
        invariant buffer[..i] == data[..i]
        modifies buffer
      {
        buffer[i] := data[i];
      }
      assert buffer[..] == buffer[..data.Length];
      assert data[..] == data[..data.Length];
      rawData := buffer;
    }

    /** GetRawData: the stored buffer itself (not a copy). */
    function GetRawData(): (b: array<byte>)
      reads this
      ensures b == rawData
    {
      rawData
    }

    /** GetExtensionRawData: the stored re-serialised extension bytes. */
    function GetExtensionRawData(): (b: Bytes)
      reads this
      ensures b == extensionRawData
    {
      extensionRawData
    }
  }
}
