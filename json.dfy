/** JSON documents as a value tree, the text codec as a parameter, and the
    two ways the system reads an object: PHP's associative arrays
    (`json_decode($json, true)`, where the last of repeated keys wins and `??`
    supplies a default) and serde's derived struct decoding (a missing or
    repeated field is an error, an unknown field is ignored). */
module Json {
  import opened Wrappers
  import opened Numbers
  import opened PhpNumbers

  /** Floating-point numbers are not part of the model. */
  datatype Json =
    | JNull
    | JBool(b: bool)
    | JInt(i: int)
    | JString(s: string)
    | JArray(items: seq<Json>)
    | JObject(members: seq<(string, Json)>)

  /** A JSON text codec: `json_encode`/`json_decode`,
      `serde_json::to_string`/`from_str`. `decode` is `None` on a syntax
      error. */
  datatype Codec = Codec(encode: Json -> string, decode: string -> Option<Json>)

  /** Decoding the encoder's output gives the document back. */
  ghost predicate Faithful(c: Codec) {
    forall v :: c.decode(c.encode(v)) == Some(v)
  }

  /** Number of members named `key`. */
  function Count(members: seq<(string, Json)>, key: string): nat
  {
    if |members| == 0 then 0
    else (if members[0].0 == key then 1 else 0) + Count(members[1..], key)
  }

  /** PHP `$data[$key]` on a decoded object: the value of the LAST member
      with that name (a later key overwrites an earlier one while the array
      is built), `None` when there is none. */
  function PhpGet(members: seq<(string, Json)>, key: string): (r: Option<Json>)
    ensures r.Some? <==> Count(members, key) > 0
    ensures r.Some? ==> (key, r.value) in members
  {
    if |members| == 0 then None
    else
      var last := members[|members| - 1];
      CountSnoc(members[..|members| - 1], last, key);
      assert members == members[..|members| - 1] + [last];
      if last.0 == key then Some(last.1)
      else PhpGet(members[..|members| - 1], key)
  }

  lemma {:induction false} CountSnoc(members: seq<(string, Json)>, m: (string, Json), key: string)
    ensures Count(members + [m], key) == Count(members, key) + (if m.0 == key then 1 else 0)
  {
    if |members| > 0 {
      assert (members + [m])[1..] == members[1..] + [m];
      CountSnoc(members[1..], m, key);
    }
  }

  /** PHP `$data[$key] ?? $default` where `$data` is the decoded value: a
      missing key, a null value and a `$data` that is not an array all give
      the default. */
  function PhpGetOr(data: Json, key: string, default: Json): (r: Json)
    ensures r != JNull || default == JNull
    ensures PhpRead(data, key) == JNull ==> r == default
    ensures PhpRead(data, key) != JNull ==> r == PhpRead(data, key)
  {
    if data.JObject? then
      match PhpGet(data.members, key)
      case Some(v) => if v == JNull then default else v
      case None => default
    else default
  }

  /** PHP `$data[$key]` without a default: a missing key (or a `$data`
      that is not an object) reads as null. */
  function PhpRead(data: Json, key: string): Json
  {
    if data.JObject? then
      match PhpGet(data.members, key)
      case Some(v) => v
      case None => JNull
    else JNull
  }

  /** Assigning to a PHP property typed `string` outside strict mode:
      integers and booleans convert, null and arrays are a `TypeError`. */
  function PhpToString(v: Json): (r: Option<string>)
    ensures v.JString? ==> r == Some(v.s)
    ensures v.JNull? || v.JArray? || v.JObject? ==> r.None?
  {
    match v
    case JString(s) => Some(s)
    case JInt(i) => Some(IntToDecimal(i))
    case JBool(b) => Some(if b then "1" else "")
    case _ => None
  }

  /** Assigning to a PHP property typed `int` outside strict mode:
      booleans convert, a string is read as the number it starts with (see
      `PhpNumbers`), and null, arrays, objects and strings that do not start
      with a number are a `TypeError`. */
  function PhpToInt(v: Json): (r: Option<int>)
    ensures v.JInt? ==> r == Some(v.i)
    ensures v.JBool? ==> r == Some(if v.b then 1 else 0)
    ensures v.JString? ==> r == NumericIntValue(v.s)
    ensures v.JNull? || v.JArray? || v.JObject? ==> r.None?
  {
    match v
    case JInt(i) => Some(i)
    case JBool(b) => Some(if b then 1 else 0)
    case JString(s) => NumericIntValue(s)
    case _ => None
  }

  /** The member of a serde-decoded struct field: exactly one member of
      that name must be present. */
  function SerdeField(data: Json, key: string): (r: Option<Json>)
    ensures r.Some? ==> data.JObject? && Count(data.members, key) == 1
    ensures data.JObject? && Count(data.members, key) == 1 ==> r.Some?
  {
    if data.JObject? && Count(data.members, key) == 1 then PhpGet(data.members, key) else None
  }

  /** The values of the members, in document order. */
  function Values(members: seq<(string, Json)>): (vs: seq<Json>)
    ensures |vs| == |members|
    ensures forall i :: 0 <= i < |members| ==> vs[i] == members[i].1
  {
    seq(|members|, i requires 0 <= i < |members| => members[i].1)
  }

  /** serde's derived `Deserialize` for a struct whose fields, in
      declaration order, are `fields`: an object is read by member name, and
      an array is read positionally, one item per field and no more or
      fewer. The array form is turned into the object it stands for; any
      other value is passed on as it is, so that no field is found in it. */
  function SerdeStruct(v: Json, fields: seq<string>): (r: Json)
    ensures r.JObject? <==> v.JObject? || (v.JArray? && |v.items| == |fields|)
    ensures v.JArray? && r.JObject? ==> Keys(r.members) == fields && Values(r.members) == v.items
    ensures !v.JArray? ==> r == v
  {
    if v.JArray? && |v.items| == |fields| then
      var members := seq(|fields|, i requires 0 <= i < |fields| => (fields[i], v.items[i]));
      assert Keys(members) == fields;
      assert Values(members) == v.items;
      JObject(members)
    else v
  }

  /** The array of an object's values, in the order of the struct's fields,
      reads as that object. */
  lemma SerdeStructPositional(members: seq<(string, Json)>, fields: seq<string>)
    requires Keys(members) == fields
    ensures SerdeStruct(JArray(Values(members)), fields) == JObject(members)
  {
    var r := SerdeStruct(JArray(Values(members)), fields);
    assert |r.members| == |members|;
    forall i | 0 <= i < |members|
      ensures r.members[i] == members[i]
    {
      assert Keys(r.members)[i] == Keys(members)[i];
      assert Values(r.members)[i] == Values(members)[i];
    }
  }

  /** A serde `String` field. */
  function SerdeString(data: Json, key: string): Option<string>
  {
    match SerdeField(data, key)
    case Some(JString(s)) => Some(s)
    case _ => None
  }

  /** A serde `u32` field: an integer in range. */
  function SerdeU32(data: Json, key: string): (r: Option<nat>)
    ensures r.Some? ==> IsU32(r.value)
  {
    match SerdeField(data, key)
    case Some(JInt(i)) => if IsU32(i) then Some(i as nat) else None
    case _ => None
  }

  /** A serde `u64` field: an integer in range. */
  function SerdeU64(data: Json, key: string): (r: Option<nat>)
    ensures r.Some? ==> IsU64(r.value)
  {
    match SerdeField(data, key)
    case Some(JInt(i)) => if IsU64(i) then Some(i as nat) else None
    case _ => None
  }

  /** Names of the members, in document order. */
  function Keys(members: seq<(string, Json)>): (ks: seq<string>)
    ensures |ks| == |members|
    ensures forall i :: 0 <= i < |members| ==> ks[i] == members[i].0
  {
    if |members| == 0 then [] else [members[0].0] + Keys(members[1..])
  }

  /** No name occurs twice. */
  predicate Distinct(ks: seq<string>) {
    forall a, b :: 0 <= a < b < |ks| ==> ks[a] != ks[b]
  }

  /** In an object whose member names are distinct, every member is found
      by its name, once. */
  lemma {:induction false} DistinctKeysLookup(members: seq<(string, Json)>, i: nat)
    requires i < |members|
    requires Distinct(Keys(members))
    ensures Count(members, members[i].0) == 1
    ensures PhpGet(members, members[i].0) == Some(members[i].1)
  {
    assert forall a, b :: 0 <= a < b < |members| ==> members[a].0 != members[b].0 by {
      forall a, b | 0 <= a < b < |members| ensures members[a].0 != members[b].0 {
        assert Keys(members)[a] != Keys(members)[b];
      }
    }
    DistinctKeysLookupMembers(members, i);
  }

  lemma {:induction false} DistinctKeysLookupMembers(members: seq<(string, Json)>, i: nat)
    requires i < |members|
    requires forall a, b :: 0 <= a < b < |members| ==> members[a].0 != members[b].0
    ensures Count(members, members[i].0) == 1
    ensures PhpGet(members, members[i].0) == Some(members[i].1)
  {
    CountDistinct(members, i);
    var key := members[i].0;
    if i < |members| - 1 {
      var init := members[..|members| - 1];
      assert members == init + [members[|members| - 1]];
      DistinctKeysLookupMembers(init, i);
    }
  }

  lemma {:induction false} CountDistinct(members: seq<(string, Json)>, i: nat)
    requires i < |members|
    requires forall a, b :: 0 <= a < b < |members| ==> members[a].0 != members[b].0
    ensures Count(members, members[i].0) == 1
  {
    var key := members[i].0;
    if i == 0 {
      CountAbsent(members[1..], key);
    } else {
      CountDistinct(members[1..], i - 1);
    }
  }

  lemma {:induction false} CountAbsent(members: seq<(string, Json)>, key: string)
    requires forall a :: 0 <= a < |members| ==> members[a].0 != key
    ensures Count(members, key) == 0
  {
    if |members| > 0 {
      CountAbsent(members[1..], key);
    }
  }

  /** In an object whose member names are distinct, serde finds every
      member by its name. */
  lemma SerdeFieldOfDistinct(v: Json, i: nat)
    requires v.JObject? && i < |v.members|
    requires Distinct(Keys(v.members))
    ensures SerdeField(v, v.members[i].0) == Some(v.members[i].1)
  {
    DistinctKeysLookup(v.members, i);
  }
}
