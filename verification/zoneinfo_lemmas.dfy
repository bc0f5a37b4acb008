/** Properties of `ZoneInfoFile` construction and lookup: which names the
    legacy tarball yields and what they map to, the aliasing of links, the
    KeyError of an unresolvable link, the METADATA outcomes, and the state the
    constructor always ends in because `_eager_load_tzdata` runs last. */
module ZoneInfoLemmas {
  import opened Results
  import opened Exceptions
  import opened TarArchive
  import opened ZoneInfo

  /** Member `i` is the first link, in archive order, whose target is not the
      name of a zone file; every earlier link resolves. */
  ghost predicate FirstUnresolvable(ms: seq<Member>, i: int) {
    && 0 <= i < |ms| && ms[i].IsLink() && !IsZoneFileName(ms, ms[i].target)
    && forall j :: 0 <= j < i && ms[j].IsLink() ==> IsZoneFileName(ms, ms[j].target)
  }

  /** Every link of the archive targets a zone file. */
  ghost predicate AllLinksResolve(ms: seq<Member>) {
    forall i :: 0 <= i < |ms| && ms[i].IsLink() ==> IsZoneFileName(ms, ms[i].target)
  }

  // ---------------------------------------------------------------------
  // The two dict comprehensions

  /** The zone-file dict holds, under each name, the record parsed from the
      last zone file of that name. */
  lemma {:induction false} FileZonesLast(ms: seq<Member>, i: int)
    requires LastZoneFile(ms, i)
    ensures ms[i].name in FileZones(ms)
    ensures FileZones(ms)[ms[i].name] == ParseMember(ms[i])
    decreases |ms|
  {
    if i < |ms| - 1 {
      var prefix := ms[..|ms| - 1];
      assert forall j :: 0 <= j < |prefix| ==> prefix[j] == ms[j];
      assert LastZoneFile(prefix, i);
      FileZonesLast(prefix, i);
    }
  }

  /** A name that some zone file carries has a last zone file carrying it. */
  lemma {:induction false} LastZoneFileExists(ms: seq<Member>, n: string)
    requires IsZoneFileName(ms, n)
    ensures exists j :: LastZoneFile(ms, j) && ms[j].name == n
    decreases |ms|
  {
    var last := |ms| - 1;
    if IsZoneFile(ms[last]) && ms[last].name == n {
      assert LastZoneFile(ms, last);
    } else {
      var prefix := ms[..last];
      assert forall j :: 0 <= j < |prefix| ==> prefix[j] == ms[j];
      var k :| 0 <= k < |ms| && IsZoneFile(ms[k]) && ms[k].name == n;
      assert k < last;
      assert IsZoneFileName(prefix, n) by { assert prefix[k] == ms[k]; }
      LastZoneFileExists(prefix, n);
      var j :| LastZoneFile(prefix, j) && prefix[j].name == n;
      assert LastZoneFile(ms, j);
    }
  }

  /** The link dict holds, under each link name, the record stored under the
      target of the last link of that name. */
  lemma {:induction false} LinkZonesLast(ms: seq<Member>, files: map<string, Zone>, i: int)
    requires LinkZones(ms, files).Ok?
    requires LastLink(ms, i)
    ensures ms[i].name in LinkZones(ms, files).value
    ensures ms[i].target in files
    ensures LinkZones(ms, files).value[ms[i].name] == files[ms[i].target]
    decreases |ms|
  {
    if i < |ms| - 1 {
      var prefix := ms[..|ms| - 1];
      assert forall j :: 0 <= j < |prefix| ==> prefix[j] == ms[j];
      assert LastLink(prefix, i);
      LinkZonesLast(prefix, files, i);
    }
  }

  // ---------------------------------------------------------------------
  // The legacy tarball

  /** A successful legacy load is the zone-file dict updated with the link
      dict, and the metadata block's value. */
  lemma LoadLegacyParts(ms: seq<Member>, codecs: Codecs)
    requires LoadLegacy(Archive(ms), codecs).Ok?
    ensures LinkZones(ms, FileZones(ms)).Ok?
    ensures LegacyMetadata(ms, codecs).Ok?
    ensures LoadLegacy(Archive(ms), codecs).value
         == ZoneInfoFile(FileZones(ms) + LinkZones(ms, FileZones(ms)).value, LegacyMetadata(ms, codecs).value)
  {
  }

  /** The legacy load succeeds exactly when every link targets a zone file
      and the METADATA block raises nothing. */
  lemma LegacySucceeds(ms: seq<Member>, codecs: Codecs)
    ensures LoadLegacy(Archive(ms), codecs).Ok? <==> AllLinksResolve(ms) && LegacyMetadata(ms, codecs).Ok?
  {
  }

  /** A zone file whose name no link takes maps to the record parsed from
      the last zone file of that name. */
  lemma LegacyFileEntry(ms: seq<Member>, codecs: Codecs, i: int)
    requires LoadLegacy(Archive(ms), codecs).Ok?
    requires LastZoneFile(ms, i) && !IsLinkName(ms, ms[i].name)
    ensures ms[i].name in LoadLegacy(Archive(ms), codecs).value.zones
    ensures LoadLegacy(Archive(ms), codecs).value.zones[ms[i].name] == ParseMember(ms[i])
  {
    LoadLegacyParts(ms, codecs);
    FileZonesLast(ms, i);
  }

  /** A link maps to the very record parsed from the last zone file named by
      its target, wherever the link and that file sit in the archive, and
      replaces any zone file of its own name. When no link takes the target's
      name, the link and its target map to the same record. */
  lemma LegacyLinkEntry(ms: seq<Member>, codecs: Codecs, i: int)
    requires LoadLegacy(Archive(ms), codecs).Ok?
    requires LastLink(ms, i)
    ensures ms[i].name in LoadLegacy(Archive(ms), codecs).value.zones
    ensures exists j :: (LastZoneFile(ms, j) && ms[j].name == ms[i].target
      && LoadLegacy(Archive(ms), codecs).value.zones[ms[i].name] == ParseMember(ms[j]))
    ensures LoadLegacy(Archive(ms), codecs).value.zones[ms[i].name].origin == Filename(ms[i].target)
    ensures !IsLinkName(ms, ms[i].target) ==>
      && ms[i].target in LoadLegacy(Archive(ms), codecs).value.zones
      && LoadLegacy(Archive(ms), codecs).value.zones[ms[i].name]
         == LoadLegacy(Archive(ms), codecs).value.zones[ms[i].target]
  {
    LoadLegacyParts(ms, codecs);
    var files := FileZones(ms);
    LinkZonesLast(ms, files, i);
    LastZoneFileExists(ms, ms[i].target);
    var j :| LastZoneFile(ms, j) && ms[j].name == ms[i].target;
    FileZonesLast(ms, j);
  }

  /** The first link whose target is not a zone file (a missing name, a name
      only a link or a directory carries, or METADATA) raises KeyError with
      that target, before METADATA is looked at. */
  lemma LegacyUnresolvableLink(ms: seq<Member>, codecs: Codecs, i: int)
    requires FirstUnresolvable(ms, i)
    ensures LoadLegacy(Archive(ms), codecs) == Err(KeyError(ms[i].target))
  {
    var files := FileZones(ms);
    assert FirstDangling(ms, files, i);
    var r := LinkZones(ms, files);
    assert r.Err?;
    var k :| FirstDangling(ms, files, k) && r.error == KeyError(ms[k].target);
    if k < i {
      assert false;
    } else if i < k {
      assert false;
    }
  }

  /** An archive without a METADATA member and without unresolvable links
      loads with no metadata. */
  lemma LegacyNoMetadata(ms: seq<Member>, codecs: Codecs)
    requires AllLinksResolve(ms)
    requires forall j :: 0 <= j < |ms| ==> ms[j].name != MetadataFn
    ensures LoadLegacy(Archive(ms), codecs).Ok?
    ensures LoadLegacy(Archive(ms), codecs).value.metadata == None
  {
  }

  /** When the last member named METADATA is a regular file, the metadata is
      the JSON document its UTF-8 text holds, and a decoding or parsing
      failure propagates instead of being read as "no metadata". */
  lemma LegacyMetadataFile(ms: seq<Member>, codecs: Codecs, i: int)
    requires 0 <= i < |ms| && ms[i].File? && ms[i].name == MetadataFn
    requires forall j :: i < j < |ms| ==> ms[j].name != MetadataFn
    ensures codecs.decodeUtf8(ms[i].data).None? ==> LegacyMetadata(ms, codecs) == Err(UnicodeDecodeError)
    ensures codecs.decodeUtf8(ms[i].data).Some? && codecs.loadsJson(codecs.decodeUtf8(ms[i].data).value).None? ==>
      LegacyMetadata(ms, codecs) == Err(JsonDecodeError)
    ensures codecs.decodeUtf8(ms[i].data).Some? && codecs.loadsJson(codecs.decodeUtf8(ms[i].data).value).Some? ==>
      LegacyMetadata(ms, codecs) == Ok(codecs.loadsJson(codecs.decodeUtf8(ms[i].data).value))
  {
    assert GetMember(ms, MetadataFn) == Ok(i);
  }

  /** When the last member named METADATA carries no data, `.read()` on the
      None that `extractfile` returns raises AttributeError. */
  lemma LegacyMetadataDir(ms: seq<Member>, codecs: Codecs, i: int)
    requires 0 <= i < |ms| && ms[i] == Dir(MetadataFn)
    requires forall j :: i < j < |ms| ==> ms[j].name != MetadataFn
    ensures LegacyMetadata(ms, codecs) == Err(AttributeError)
  {
    assert GetMember(ms, MetadataFn) == Ok(i);
  }

  // ---------------------------------------------------------------------
  // The constructor

  /** A constructor call that succeeds ends in the state `_eager_load_tzdata`
      writes, whether or not a legacy stream was given. */
  lemma ConstructIgnoresLegacy(s: ZoneFileStream, env: Env)
    requires Construct(Some(s), env).Ok?
    ensures Construct(None, env).Ok?
    ensures Construct(Some(s), env) == Construct(None, env)
  {
  }

  /** On a constructed instance, `get` answers the tzdata record of a
      packaged key and the default for every other name. */
  lemma GetAfterConstruct(stream: Option<ZoneFileStream>, env: Env, name: string, default: Option<Zone>)
    requires Construct(stream, env).Ok?
    ensures name in env.tzdata.value.keys ==>
      Get(Construct(stream, env).value, name, default) == Some(Zone(Key(name), env.tzdata.value.open(name)))
    ensures name !in env.tzdata.value.keys ==> Get(Construct(stream, env).value, name, default) == default
  {
  }

  /** On a legacy load without links, `get` answers a record parsed under
      the very name asked for, or the default for a name no zone file has. */
  lemma GetWithoutLinks(ms: seq<Member>, codecs: Codecs, name: string, default: Option<Zone>)
    requires LoadLegacy(Archive(ms), codecs).Ok?
    requires forall j :: 0 <= j < |ms| ==> !ms[j].IsLink()
    ensures IsZoneFileName(ms, name) ==>
      && Get(LoadLegacy(Archive(ms), codecs).value, name, default).Some?
      && Get(LoadLegacy(Archive(ms), codecs).value, name, default).value.origin == Filename(name)
    ensures !IsZoneFileName(ms, name) ==> Get(LoadLegacy(Archive(ms), codecs).value, name, default) == default
  {
    LoadLegacyParts(ms, codecs);
    var files := FileZones(ms);
    var links := LinkZones(ms, files).value;
    assert name !in links by {
      assert !IsLinkName(ms, name);
    }
    MergeMiss(files, links, name);
  }

  /** A key the second map lacks is looked up in the first. */
  lemma MergeMiss(a: map<string, Zone>, b: map<string, Zone>, k: string)
    requires k !in b
    ensures k in a + b <==> k in a
    ensures k in a ==> (a + b)[k] == a[k]
  {
  }

  /** An archive whose symbolic link comes before the file it targets,
      followed by a METADATA document: the link and the file share one
      record, and the metadata is the parsed document. */
  lemma LinkBeforeTarget(ms: seq<Member>, codecs: Codecs, text: string, doc: Json)
    requires |ms| == 3 && ms[0].SymLink? && ms[1].File? && ms[2].File?
    requires ms[1].name == ms[0].target && ms[2].name == MetadataFn
    requires ms[0].name != ms[0].target && ms[0].name != MetadataFn && ms[0].target != MetadataFn
    requires codecs.decodeUtf8(ms[2].data) == Some(text) && codecs.loadsJson(text) == Some(doc)
    ensures LoadLegacy(Archive(ms), codecs).Ok?
    ensures ms[0].name in LoadLegacy(Archive(ms), codecs).value.zones
    ensures ms[1].name in LoadLegacy(Archive(ms), codecs).value.zones
    ensures LoadLegacy(Archive(ms), codecs).value.zones[ms[0].name]
         == LoadLegacy(Archive(ms), codecs).value.zones[ms[1].name] == ParseMember(ms[1])
    ensures LoadLegacy(Archive(ms), codecs).value.metadata == Some(doc)
  {
    var alias, target := ms[0].name, ms[0].target;
    forall n ensures IsZoneFileName(ms, n) <==> n == target {
      assert IsZoneFile(ms[1]);
    }
    forall n ensures IsLinkName(ms, n) <==> n == alias {
      assert ms[0].IsLink();
    }
    assert AllLinksResolve(ms);
    assert LastLink(ms, 0) && LastZoneFile(ms, 1);
    LegacyMetadataFile(ms, codecs, 2);
    LegacySucceeds(ms, codecs);
    LegacyFileEntry(ms, codecs, 1);
    LegacyLinkEntry(ms, codecs, 0);
    LoadLegacyParts(ms, codecs);
  }

  /** The `UTC` zone with an `Etc/UTC` symbolic link placed before it. */
  lemma UtcAliasExample(utc: Bytes, meta: Bytes, codecs: Codecs, text: string, doc: Json)
    requires codecs.decodeUtf8(meta) == Some(text) && codecs.loadsJson(text) == Some(doc)
    ensures var r := LoadLegacy(Archive([SymLink("Etc/UTC", "UTC"), File("UTC", utc), File(MetadataFn, meta)]), codecs);
      && r.Ok?
      && "UTC" in r.value.zones && "Etc/UTC" in r.value.zones
      && r.value.zones["Etc/UTC"] == r.value.zones["UTC"] == Zone(Filename("UTC"), utc)
      && r.value.metadata == Some(doc)
  {
    assert |"UTC"| == 3 && |"Etc/UTC"| == 7 && |MetadataFn| == 8;
    LinkBeforeTarget([SymLink("Etc/UTC", "UTC"), File("UTC", utc), File(MetadataFn, meta)], codecs, text, doc);
  }
}
