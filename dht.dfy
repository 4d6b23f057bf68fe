/** The record a provider advertises in the DHT for one boot manifest
    (`provider::dht::ManifestRecord`): where the manifest is served, under
    which key it is stored, and when it expires. Clock readings are
    parameters: instants are whole nanoseconds since the epoch, and the
    RFC 3339 parser is a function from text to such an instant. The record's
    bytes are the JSON text written by serde, through a codec parameter. */
module Dht {
  import opened Wrappers
  import opened Numbers
  import opened Strings
  import opened Json

  /** `DEFAULT_MANIFEST_TTL`: one hour. */
  const DEFAULT_MANIFEST_TTL: nat := 3600
  /** `MANIFEST_REFRESH_INTERVAL`: half the time to live. */
  const MANIFEST_REFRESH_INTERVAL: nat := DEFAULT_MANIFEST_TTL / 2
  const NANOS_PER_SECOND: nat := 1_000_000_000
  const TWO_63: nat := 0x8000_0000_0000_0000
  const DESERIALIZE_FAILED := "Failed to deserialize manifest record"

  datatype ManifestRecord = ManifestRecord(
    channel: string,
    arch: string,
    manifestUrl: string,
    httpAddr: string,
    manifestVersion: string,
    createdAt: string,
    ttlSecs: u64)
  {
    /** `key`: the record's DHT key. */
    function Key(): string {
      DhtKey(channel, arch)
    }
  }

  /** The URL of the manifest a provider at `httpAddr` serves. */
  function ManifestUrl(httpAddr: string, channel: string, arch: string): string {
    "http://" + httpAddr + "/" + channel + "/" + arch + "/manifest.json"
  }

  /** `ManifestRecord::new`, with the clock's RFC 3339 text as `now`. */
  function New(channel: string, arch: string, httpAddr: string, manifestVersion: string, now: string)
    : (r: ManifestRecord)
    ensures r.channel == channel && r.arch == arch && r.httpAddr == httpAddr
    ensures r.manifestVersion == manifestVersion && r.createdAt == now
    ensures r.manifestUrl == ManifestUrl(httpAddr, channel, arch)
    ensures r.ttlSecs == DEFAULT_MANIFEST_TTL
  {
    ManifestRecord(channel, arch, ManifestUrl(httpAddr, channel, arch), httpAddr, manifestVersion, now,
                   DEFAULT_MANIFEST_TTL)
  }

  /** `dht_key`, as text; the key's bytes are its UTF-8 encoding. */
  function DhtKey(channel: string, arch: string): (key: string)
    ensures StartsWith(key, "/phase/") && EndsWith(key, "/manifest")
  {
    "/phase/" + channel + "/" + arch + "/manifest"
  }

  lemma JoinOf(parts: seq<string>, sep: string)
    requires |parts| >= 2
    ensures Join(parts, sep) == parts[0] + sep + Join(parts[1..], sep)
  {
  }

  /** Split on `/`, a key gives back its channel and architecture when
      neither holds a `/`. */
  lemma {:induction false} DhtKeyFields(channel: string, arch: string)
    requires '/' !in channel && '/' !in arch
    ensures Split(DhtKey(channel, arch), '/') == ["", "phase", channel, arch, "manifest"]
  {
    var parts := ["", "phase", channel, arch, "manifest"];
    JoinOf(parts, "/");
    JoinOf(parts[1..], "/");
    JoinOf(parts[2..], "/");
    JoinOf(parts[3..], "/");
    assert parts[4..] == ["manifest"];
    assert Join(parts, "/") == DhtKey(channel, arch);
    assert forall k :: 0 <= k < |parts| ==> '/' !in parts[k];
    SplitJoin(parts, '/');
  }

  /** Distinct channel/architecture pairs are stored under distinct keys. */
  lemma DhtKeyInjective(c1: string, a1: string, c2: string, a2: string)
    requires '/' !in c1 && '/' !in a1 && '/' !in c2 && '/' !in a2
    requires DhtKey(c1, a1) == DhtKey(c2, a2)
    ensures c1 == c2 && a1 == a2
  {
    DhtKeyFields(c1, a1);
    DhtKeyFields(c2, a2);
  }

  /** Split on `/`, a manifest URL gives back the provider's address, the
      channel and the architecture when none of them holds a `/`. */
  lemma {:induction false} ManifestUrlFields(httpAddr: string, channel: string, arch: string)
    requires '/' !in httpAddr && '/' !in channel && '/' !in arch
    ensures Split(ManifestUrl(httpAddr, channel, arch), '/')
         == ["http:", "", httpAddr, channel, arch, "manifest.json"]
  {
    var parts := ["http:", "", httpAddr, channel, arch, "manifest.json"];
    UrlIsJoin(httpAddr, channel, arch);
    assert forall k :: 0 <= k < |parts| ==> '/' !in parts[k];
    SplitJoin(parts, '/');
  }

  lemma UrlIsJoin(httpAddr: string, channel: string, arch: string)
    ensures Join(["http:", "", httpAddr, channel, arch, "manifest.json"], "/") == ManifestUrl(httpAddr, channel, arch)
  {
    var parts := ["http:", "", httpAddr, channel, arch, "manifest.json"];
    JoinOf(parts, "/");
    JoinOf(parts[1..], "/");
    JoinOf(parts[2..], "/");
    JoinOf(parts[3..], "/");
    JoinOf(parts[4..], "/");
    assert parts[5..] == ["manifest.json"];
  }

  /** A new record points at the manifest of its own channel and
      architecture on its own provider, and is stored under the key a
      client computes from that channel and architecture. */
  lemma NewRecordLocatesManifest(channel: string, arch: string, httpAddr: string, version: string, now: string)
    requires '/' !in httpAddr && '/' !in channel && '/' !in arch
    ensures var r := New(channel, arch, httpAddr, version, now);
            && Split(r.manifestUrl, '/') == ["http:", "", r.httpAddr, r.channel, r.arch, "manifest.json"]
            && Split(r.Key(), '/') == ["", "phase", channel, arch, "manifest"]
  {
    ManifestUrlFields(httpAddr, channel, arch);
    DhtKeyFields(channel, arch);
  }

  /** The source's example of a new record. */
  lemma NewRecordExample(now: string)
    ensures var r := New("stable", "arm64", "192.168.1.100:8080", "0.1.0", now);
            && r.manifestUrl == "http://192.168.1.100:8080/stable/arm64/manifest.json"
            && r.Key() == "/phase/stable/arm64/manifest"
            && r.ttlSecs == 3600
  {
    ExampleUrl();
    assert "/phase/" + "stable" + "/" + "arm64" + "/manifest" == "/phase/stable/arm64/manifest";
  }

  lemma ExampleUrl()
    ensures ManifestUrl("192.168.1.100:8080", "stable", "arm64") == "http://192.168.1.100:8080/stable/arm64/manifest.json"
  {
    var a := "http://" + "192.168.1.100:8080";
    assert a == "http://192.168.1.100:8080";
    var b := a + "/" + "stable";
    assert b == "http://192.168.1.100:8080/stable";
    var c := b + "/" + "arm64";
    assert c == "http://192.168.1.100:8080/stable/arm64";
    assert c + "/manifest.json" == "http://192.168.1.100:8080/stable/arm64/manifest.json";
  }

  /** chrono's `num_seconds` of the time from `created` to `now`: whole
      seconds, rounded toward zero. */
  function AgeSeconds(now: int, created: int): (age: int)
    ensures created <= now ==> age == (now - created) / NANOS_PER_SECOND
    ensures now < created ==> age == -((created - now) / NANOS_PER_SECOND)
  {
    if created <= now then (now - created) / NANOS_PER_SECOND
    else -((created - now) / NANOS_PER_SECOND)
  }

  /** `is_expired` at the instant `now`: a creation time that does not
      parse counts as expired; otherwise the age in seconds, cast to `u64`,
      must exceed the time to live. */
  predicate IsExpired(r: ManifestRecord, parse: string -> Option<int>, now: int)
    ensures parse(r.createdAt).None? ==> IsExpired(r, parse, now)
    ensures parse(r.createdAt) == Some(now) ==> !IsExpired(r, parse, now)
  {
    match parse(r.createdAt)
    case None => true
    case Some(created) => WrapU64(AgeSeconds(now, created)) > r.ttlSecs
  }

  /** A creation time that does not parse is expired at every instant. */
  lemma UnparsableIsExpired(r: ManifestRecord, parse: string -> Option<int>, now: int)
    requires parse(r.createdAt).None?
    ensures IsExpired(r, parse, now)
  {
  }

  /** For a record created in the past, less than 2^63 seconds ago, expiry
      means that at least `ttl + 1` whole seconds have passed. */
  lemma {:induction false} ExpiredIffOlderThanTtl(r: ManifestRecord, parse: string -> Option<int>, now: int, created: int)
    requires parse(r.createdAt) == Some(created)
    requires created <= now < created + TWO_63 * NANOS_PER_SECOND
    ensures IsExpired(r, parse, now) <==> now - created >= (r.ttlSecs + 1) * NANOS_PER_SECOND
  {
    var age := (now - created) / NANOS_PER_SECOND;
    assert 0 <= age < TWO_63;
    assert WrapU64(age) == age;
    if now - created >= (r.ttlSecs + 1) * NANOS_PER_SECOND {
      DivAtLeast(now - created, r.ttlSecs + 1);
    } else {
      DivBelow(now - created, r.ttlSecs + 1);
    }
  }

  /** Whole seconds in `x` nanoseconds, bounded from below. */
  lemma DivAtLeast(x: int, k: int)
    requires x >= k * NANOS_PER_SECOND
    ensures x / NANOS_PER_SECOND >= k
  {
  }

  /** Whole seconds in `x` nanoseconds, bounded from above. */
  lemma DivBelow(x: int, k: int)
    requires 0 <= x < k * NANOS_PER_SECOND
    ensures x / NANOS_PER_SECOND < k
  {
  }

  /** A creation time at least one second in the future (less than 2^63
      seconds) casts to a huge age: the record counts as expired, unless
      its time to live is 2^63 seconds or more. */
  lemma {:induction false} FutureRecordIsExpired(r: ManifestRecord, parse: string -> Option<int>, now: int, created: int)
    requires parse(r.createdAt) == Some(created)
    requires now + NANOS_PER_SECOND <= created < now + TWO_63 * NANOS_PER_SECOND
    requires r.ttlSecs < TWO_63
    ensures IsExpired(r, parse, now)
  {
    var k := (created - now) / NANOS_PER_SECOND;
    DivAtLeast(created - now, 1);
    DivBelow(created - now, TWO_63);
    assert WrapU64(-k) == TWO_64 - k;
  }

  /** A record created less than a second in the future has an age of
      zero: it is not expired. */
  lemma {:induction false} SubSecondFutureNotExpired(r: ManifestRecord, parse: string -> Option<int>, now: int,
                                                     created: int)
    requires parse(r.createdAt) == Some(created)
    requires now < created < now + NANOS_PER_SECOND
    ensures !IsExpired(r, parse, now)
  {
    DivBelow(created - now, 1);
  }

  /** A new record is not expired when it is re-advertised after the
      refresh interval, and is expired one second after its time to live. */
  lemma {:induction false} RefreshedBeforeExpiry(channel: string, arch: string, httpAddr: string, version: string,
                                                 nowText: string, parse: string -> Option<int>, created: int)
    requires parse(nowText) == Some(created)
    ensures var r := New(channel, arch, httpAddr, version, nowText);
            && !IsExpired(r, parse, created)
            && !IsExpired(r, parse, created + MANIFEST_REFRESH_INTERVAL * NANOS_PER_SECOND)
            && IsExpired(r, parse, created + (DEFAULT_MANIFEST_TTL + 1) * NANOS_PER_SECOND)
  {
    var r := New(channel, arch, httpAddr, version, nowText);
    ExpiredIffOlderThanTtl(r, parse, created, created);
    ExpiredIffOlderThanTtl(r, parse, created + MANIFEST_REFRESH_INTERVAL * NANOS_PER_SECOND, created);
    ExpiredIffOlderThanTtl(r, parse, created + (DEFAULT_MANIFEST_TTL + 1) * NANOS_PER_SECOND, created);
  }

  const RECORD_FIELDS: seq<string> := ["channel", "arch", "manifest_url", "http_addr", "manifest_version",
                                        "created_at", "ttl_secs"]

  /** The derived `Serialize`: one member per field, in declaration order. */
  function Encode(r: ManifestRecord): (v: Json)
    ensures v.JObject? && Keys(v.members) == RECORD_FIELDS
  {
    JObject([("channel", JString(r.channel)), ("arch", JString(r.arch)),
             ("manifest_url", JString(r.manifestUrl)), ("http_addr", JString(r.httpAddr)),
             ("manifest_version", JString(r.manifestVersion)), ("created_at", JString(r.createdAt)),
             ("ttl_secs", JInt(r.ttlSecs))])
  }

  /** The derived `Deserialize`: an object in which every field occurs once
      with a value of its type, other members being ignored, or an array of
      the seven values in declaration order. */
  function Decode(v: Json): (r: Option<ManifestRecord>)
    ensures var o := SerdeStruct(v, RECORD_FIELDS);
            r.Some? <==>
              && SerdeString(o, "channel").Some? && SerdeString(o, "arch").Some?
              && SerdeString(o, "manifest_url").Some? && SerdeString(o, "http_addr").Some?
              && SerdeString(o, "manifest_version").Some? && SerdeString(o, "created_at").Some?
              && SerdeU64(o, "ttl_secs").Some?
    ensures var o := SerdeStruct(v, RECORD_FIELDS);
            r.Some? ==>
              && SerdeString(o, "channel") == Some(r.value.channel)
              && SerdeString(o, "arch") == Some(r.value.arch)
              && SerdeString(o, "http_addr") == Some(r.value.httpAddr)
  {
    var o := SerdeStruct(v, RECORD_FIELDS);
    var channel := SerdeString(o, "channel");
    var arch := SerdeString(o, "arch");
    var manifestUrl := SerdeString(o, "manifest_url");
    var httpAddr := SerdeString(o, "http_addr");
    var manifestVersion := SerdeString(o, "manifest_version");
    var createdAt := SerdeString(o, "created_at");
    var ttlSecs := SerdeU64(o, "ttl_secs");
    if channel.None? || arch.None? || manifestUrl.None? || httpAddr.None? || manifestVersion.None?
      || createdAt.None? || ttlSecs.None? then None
    else
      Some(ManifestRecord(channel.value, arch.value, manifestUrl.value, httpAddr.value, manifestVersion.value,
                          createdAt.value, ttlSecs.value))
  }

  lemma FieldsDistinct()
    ensures Distinct(RECORD_FIELDS)
  {
  }

  /** The channel and architecture are found under their names. */
  lemma EncodedTargetFields(r: ManifestRecord)
    ensures SerdeString(Encode(r), "channel") == Some(r.channel)
    ensures SerdeString(Encode(r), "arch") == Some(r.arch)
  {
    FieldsDistinct();
    SerdeFieldOfDistinct(Encode(r), 0);
    SerdeFieldOfDistinct(Encode(r), 1);
  }

  /** The manifest URL and provider address are found under their names. */
  lemma EncodedAddressFields(r: ManifestRecord)
    ensures SerdeString(Encode(r), "manifest_url") == Some(r.manifestUrl)
    ensures SerdeString(Encode(r), "http_addr") == Some(r.httpAddr)
  {
    FieldsDistinct();
    SerdeFieldOfDistinct(Encode(r), 2);
    SerdeFieldOfDistinct(Encode(r), 3);
  }

  /** The version, creation time and time to live are found under their
      names. */
  lemma EncodedLifetimeFields(r: ManifestRecord)
    ensures SerdeString(Encode(r), "manifest_version") == Some(r.manifestVersion)
    ensures SerdeString(Encode(r), "created_at") == Some(r.createdAt)
    ensures SerdeU64(Encode(r), "ttl_secs") == Some(r.ttlSecs as nat)
  {
    FieldsDistinct();
    SerdeFieldOfDistinct(Encode(r), 4);
    SerdeFieldOfDistinct(Encode(r), 5);
    SerdeFieldOfDistinct(Encode(r), 6);
  }

  /** Decoding what the serializer writes gives every field back. */
  lemma DecodeEncode(r: ManifestRecord)
    ensures Decode(Encode(r)) == Some(r)
  {
    EncodedTargetFields(r);
    EncodedAddressFields(r);
    EncodedLifetimeFields(r);
  }

  /** serde also reads the positional form: the encoded values as an
      array, in declaration order, decode to the same record. */
  lemma DecodePositional(r: ManifestRecord)
    ensures Decode(JArray(Values(Encode(r).members))) == Some(r)
  {
    SerdeStructPositional(Encode(r).members, RECORD_FIELDS);
    DecodeEncode(r);
  }

  /** `to_bytes`: serialization of this record cannot fail. */
  function ToBytes(c: Codec, r: ManifestRecord): (bytes: string)
    ensures Faithful(c) ==> c.decode(bytes) == Some(Encode(r))
  {
    c.encode(Encode(r))
  }

  /** `from_bytes`: text that is not JSON, or not a record, is an error. */
  function FromBytes(c: Codec, bytes: string): (r: Result<ManifestRecord, string>)
    ensures r.Ok? <==> c.decode(bytes).Some? && Decode(c.decode(bytes).value).Some?
    ensures r.Ok? ==> Decode(c.decode(bytes).value) == Some(r.value)
    ensures r.Err? ==> r.error == DESERIALIZE_FAILED
  {
    match c.decode(bytes)
    case None => Err(DESERIALIZE_FAILED)
    case Some(v) =>
      match Decode(v)
      case None => Err(DESERIALIZE_FAILED)
      case Some(record) => Ok(record)
  }

  /** `from_bytes(to_bytes(r))` is `r`, with a codec that decodes what it
      encodes: in particular the channel, architecture and address survive
      the DHT. */
  lemma FromBytesToBytes(c: Codec, r: ManifestRecord)
    requires Faithful(c)
    ensures FromBytes(c, ToBytes(c, r)) == Ok(r)
  {
    assert c.decode(c.encode(Encode(r))) == Some(Encode(r));
    DecodeEncode(r);
  }
}
