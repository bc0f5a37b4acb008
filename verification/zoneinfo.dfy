/** `ZoneInfoFile`: the zone database built from the installed tzdata package,
    optionally after reading a legacy zoneinfo tarball, and its `get` lookup.
    The TZif parser `tzfile` is an opaque constructor: a `Zone` records the
    name it was parsed under and the bytes it was parsed from, so a link that
    shares its target's record is visible as equality of values. */
module ZoneInfo {
  import opened Results
  import opened Exceptions
  import opened TarArchive

  /** The reserved member name of the legacy tarball's metadata document. */
  const MetadataFn: string := "METADATA"

  /** The format tag of the metadata synthesised from the tzdata package. */
  const MetadataVersion: string := "3.0"

  /** The message of the ImportError raised when tzdata cannot be imported. */
  const TzdataMissing: string :=
    "The tzdata module is required to use ZoneInfoFile; either add "
    + "a dependency on tzdata or migrate away from dateutil.zoneinfo."

  /** The keyword `tzfile` was called with: `filename=` for a tarball member,
      `key=` for a tzdata key. */
  datatype Origin = Filename(name: string) | Key(key: string)

  /** A parsed zone record. */
  datatype Zone = Zone(origin: Origin, data: Bytes)

  /** The values `json.loads` can produce. */
  datatype Json =
    | JNull
    | JBool(b: bool)
    | JNumber(text: string)
    | JString(s: string)
    | JArray(items: seq<Json>)
    | JObject(fields: map<string, Json>)

  /** UTF-8 decoding and JSON parsing, each a partial function: None is the
      error the real decoder raises. */
  datatype Codecs = Codecs(decodeUtf8: Bytes -> Option<string>, loadsJson: string -> Option<Json>)

  /** The importable tzdata package: the key list `_load_tzdata_keys` yields,
      `IANA_VERSION`, and the bytes `_load_tzdata(key)` opens. */
  datatype TzPackage = TzPackage(keys: seq<string>, version: string, open: string -> Bytes)

  /** What a constructor call depends on besides its argument: whether
      `import tzdata` succeeds, and the decoders. */
  datatype Env = Env(tzdata: Option<TzPackage>, codecs: Codecs)

  /** The `zonefile_stream` argument: a readable tar archive, or a stream
      `TarFile.open` rejects. */
  datatype ZoneFileStream = Archive(members: seq<Member>) | NotATar

  /** The state of a constructed `ZoneInfoFile`. */
  datatype ZoneInfoFile = ZoneInfoFile(zones: map<string, Zone>, metadata: Option<Json>)

  /** A member that becomes a zone of its own: a regular file not named METADATA. */
  predicate IsZoneFile(m: Member) {
    m.File? && m.name != MetadataFn
  }

  /** `tzfile(tf.extractfile(zf), filename=zf.name)`. */
  function ParseMember(m: Member): Zone
    requires m.File?
  {
    Zone(Filename(m.name), m.data)
  }

  /** The metadata dictionary written from the tzdata package's version. */
  function SynthMetadata(version: string): Json {
    JObject(map["metadata_version" := JString(MetadataVersion), "tzversion" := JString(version)])
  }

  // ---------------------------------------------------------------------
  // The legacy tarball

  ghost predicate IsZoneFileName(ms: seq<Member>, n: string) {
    exists i :: 0 <= i < |ms| && IsZoneFile(ms[i]) && ms[i].name == n
  }

  ghost predicate IsLinkName(ms: seq<Member>, n: string) {
    exists i :: 0 <= i < |ms| && ms[i].IsLink() && ms[i].name == n
  }

  /** Member `i` is a zone file and no later zone file has its name. */
  ghost predicate LastZoneFile(ms: seq<Member>, i: int) {
    && 0 <= i < |ms| && IsZoneFile(ms[i])
    && forall j :: i < j < |ms| && IsZoneFile(ms[j]) ==> ms[j].name != ms[i].name
  }

  /** Member `i` is a link and no later link has its name. */
  ghost predicate LastLink(ms: seq<Member>, i: int) {
    && 0 <= i < |ms| && ms[i].IsLink()
    && forall j :: i < j < |ms| && ms[j].IsLink() ==> ms[j].name != ms[i].name
  }

  /** Member `i` is the first link, in archive order, whose target is not a
      key of `files`. */
  ghost predicate FirstDangling(ms: seq<Member>, files: map<string, Zone>, i: int) {
    && 0 <= i < |ms| && ms[i].IsLink() && ms[i].target !in files
    && forall j :: 0 <= j < i && ms[j].IsLink() ==> ms[j].target in files
  }

  /** The first dict comprehension of `_load_legacy_zonefile_stream`: one
      entry per zone file, a later member replacing an earlier one of the
      same name. */
  function FileZones(ms: seq<Member>): (z: map<string, Zone>)
    ensures forall n :: n in z <==> IsZoneFileName(ms, n)
    ensures forall n :: n in z ==> z[n].origin == Filename(n)
    ensures forall n :: n in z ==> exists i :: 0 <= i < |ms| && IsZoneFile(ms[i]) && z[n] == ParseMember(ms[i])
    decreases |ms|
  {
    if ms == [] then map[]
    else
      var z := FileZones(ms[..|ms| - 1]);
      var m := ms[|ms| - 1];
      if IsZoneFile(m) then z[m.name := ParseMember(m)] else z
  }

  /** The second dict comprehension: each link maps to the record already
      stored under its target in `files`; the first link whose target is
      missing raises KeyError. */
  function LinkZones(ms: seq<Member>, files: map<string, Zone>): (r: Result<map<string, Zone>, Error>)
    ensures r.Ok? <==> forall i :: 0 <= i < |ms| && ms[i].IsLink() ==> ms[i].target in files
    ensures r.Ok? ==> forall n :: n in r.value <==> IsLinkName(ms, n)
    ensures r.Ok? ==> forall n :: n in r.value ==>
      exists i :: 0 <= i < |ms| && ms[i].IsLink() && ms[i].name == n && ms[i].target in files
        && r.value[n] == files[ms[i].target]
    ensures r.Err? ==> exists i :: FirstDangling(ms, files, i) && r.error == KeyError(ms[i].target)
    decreases |ms|
  {
    if ms == [] then Ok(map[])
    else
      var prefix := ms[..|ms| - 1];
      var m := ms[|ms| - 1];
      assert forall i :: 0 <= i < |prefix| ==> prefix[i] == ms[i];
      match LinkZones(prefix, files)
      case Err(e) => Err(e)
      case Ok(links) =>
        if !m.IsLink() then Ok(links)
        else if m.target in files then Ok(links[m.name := files[m.target]])
        else Err(KeyError(m.target))
  }

  /** The METADATA block: `getmember`, `extractfile`, `.read()`, UTF-8
      decoding and `json.loads`, of which only a KeyError is caught and read
      as "no metadata". */
  function LegacyMetadata(ms: seq<Member>, codecs: Codecs): (r: Result<Option<Json>, Error>)
    ensures (forall j :: 0 <= j < |ms| ==> ms[j].name != MetadataFn) ==> r == Ok(None)
    ensures r.Err? ==> !r.error.KeyError?
    ensures r.Ok? && r.value.Some? ==>
      exists j, s :: 0 <= j < |ms| && ms[j].File? && codecs.decodeUtf8(ms[j].data) == Some(s)
        && codecs.loadsJson(s) == r.value
  {
    match GetMember(ms, MetadataFn)
    case Err(_) => Ok(None)  // getmember raises nothing but KeyError
    case Ok(i) =>
      match ExtractFile(ms, i, |ms|) {
        case Err(KeyError(_)) => Ok(None)
        case Err(e) => Err(e)
        case Ok(NoFileObject) => Err(AttributeError)
        case Ok(Data(bytes)) =>
          match codecs.decodeUtf8(bytes) {
            case None => Err(UnicodeDecodeError)
            case Some(text) =>
              match codecs.loadsJson(text) {
                case None => Err(JsonDecodeError)
                case Some(doc) => Ok(Some(doc))
              }
          }
      }
  }

  /** `_load_legacy_zonefile_stream`: zone files first, then links resolved
      against them and laid over them, then the metadata. */
  function LoadLegacy(stream: ZoneFileStream, codecs: Codecs): (r: Result<ZoneInfoFile, Error>)
    ensures stream.NotATar? ==> r == Err(ReadError)
    ensures r.Ok? ==> forall n :: n in r.value.zones <==>
      IsZoneFileName(stream.members, n) || IsLinkName(stream.members, n)
    ensures r.Ok? ==> forall n :: n in r.value.zones ==>
      r.value.zones[n].origin.Filename? && IsZoneFileName(stream.members, r.value.zones[n].origin.name)
    ensures r.Ok? && MetadataFn in r.value.zones ==> IsLinkName(stream.members, MetadataFn)
  {
    match stream
    case NotATar => Err(ReadError)
    case Archive(ms) =>
      var files := FileZones(ms);
      var links :- LinkZones(ms, files);
      var metadata :- LegacyMetadata(ms, codecs);
      Ok(ZoneInfoFile(files + links, metadata))
  }

  // ---------------------------------------------------------------------
  // The tzdata package

  /** The loop of `_eager_load_tzdata`: `zone_dict[key] = tzfile(f, key=key)`
      for every key in order. */
  function PackageZones(keys: seq<string>, open: string -> Bytes): (z: map<string, Zone>)
    ensures forall k :: k in z <==> k in keys
    ensures forall k :: k in z ==> z[k] == Zone(Key(k), open(k))
    decreases |keys|
  {
    if keys == [] then map[]
    else
      var k := keys[|keys| - 1];
      PackageZones(keys[..|keys| - 1], open)[k := Zone(Key(k), open(k))]
  }

  /** `_eager_load_tzdata`: ImportError when tzdata is missing, otherwise
      one zone per key and the synthesised metadata. */
  function EagerLoad(tzdata: Option<TzPackage>): (r: Result<ZoneInfoFile, Error>)
    ensures tzdata.None? <==> r == Err(ImportError(TzdataMissing))
    ensures r.Ok? ==> r.value.metadata == Some(SynthMetadata(tzdata.value.version))
    ensures r.Ok? ==> forall k :: k in r.value.zones <==> k in tzdata.value.keys
  {
    match tzdata
    case None => Err(ImportError(TzdataMissing))
    case Some(pkg) => Ok(ZoneInfoFile(PackageZones(pkg.keys, pkg.open), Some(SynthMetadata(pkg.version))))
  }

  /** `ZoneInfoFile(zonefile_stream)`: the legacy stream, when given, is read
      first and its errors propagate; `_eager_load_tzdata` then always runs
      and replaces whatever the stream produced. */
  function Construct(stream: Option<ZoneFileStream>, env: Env): (r: Result<ZoneInfoFile, Error>)
    ensures r.Ok? <==> (stream.None? || LoadLegacy(stream.value, env.codecs).Ok?) && env.tzdata.Some?
    ensures stream.Some? && LoadLegacy(stream.value, env.codecs).Err? ==>
      r == Err(LoadLegacy(stream.value, env.codecs).error)
    ensures (stream.None? || LoadLegacy(stream.value, env.codecs).Ok?) && env.tzdata.None? ==>
      r == Err(ImportError(TzdataMissing))
    ensures r.Ok? ==> r.value.metadata == Some(SynthMetadata(env.tzdata.value.version))
    ensures r.Ok? ==> forall k :: k in r.value.zones <==> k in env.tzdata.value.keys
    ensures r.Ok? ==> forall k :: k in r.value.zones ==>
      r.value.zones[k] == Zone(Key(k), env.tzdata.value.open(k))
  {
    var _ :- match stream {
      case None => Ok(ZoneInfoFile(map[], None))
      case Some(s) => LoadLegacy(s, env.codecs)
    };
    EagerLoad(env.tzdata)
  }

  /** `ZoneInfoFile.get(name, default)`: the record stored under the name,
      the default when there is none; a missing name never raises. */
  function Get(db: ZoneInfoFile, name: string, default: Option<Zone>): (r: Option<Zone>)
    ensures name in db.zones ==> r == Some(db.zones[name])
    ensures name !in db.zones ==> r == default
  {
    if name in db.zones then Some(db.zones[name]) else default
  }
}
