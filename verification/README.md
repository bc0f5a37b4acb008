# dateutil.zoneinfo and the setup.py README rewrite, in Dafny

This project models the deprecated `dateutil.zoneinfo` module and the
`readme()` helper of `setup.py`.

- **`ZoneInfoFile` construction** (`zoneinfo.dfy`, properties in
  `zoneinfo_lemmas.dfy`). A legacy zoneinfo tarball is an abstract member list.
  Each member is `File(name, data)`, `HardLink(name, target)`,
  `SymLink(name, target)` or `Dir(name)` (`tar_archive.dfy`; how links are
  followed, and when that raises RecursionError, in
  `tar_archive_lemmas.dfy`). The `tzdata` package is a key list, a version
  string and a byte loader. It is absent when `import tzdata` fails. The
  TZif parser `tzfile` is an opaque constructor: a `Zone` records the name it
  was parsed under and its bytes.
  "A link shares its target's record" therefore becomes equality of values.
  UTF-8 decoding and `json.loads` are partial functions passed in as `Codecs`.
- **The two singleton caches** (`zone_caches.dfy`, properties in
  `zone_caches_lemmas.dfy`). They are one `World` state: the
  `get_zonefile_instance._cached_instance` attribute, the legacy
  `_CLASS_ZONE_INSTANCE` slot, an allocation counter and a log of
  DeprecationWarnings. Each successful `ZoneInfoFile(...)` takes the next
  counter value as its identity, so "a fresh instance" means an identity no
  earlier object had. Every entry point is a pure state-transition function
  returning the new state and a `Result`.
- **`readme()`** (`readme_rewrite.dfy`). Every line that starts with
  `.. doctest` becomes `.. code-block:: python3\n`, and the lines are then
  joined.

On these points the model follows the code as written:

- The constructor always runs `_eager_load_tzdata()` last. That replaces the
  zones and metadata read from a legacy stream, so a successful
  `ZoneInfoFile(stream)` ends in the same state as `ZoneInfoFile()`. Errors
  raised while reading the stream still come first.
- Around METADATA only `KeyError` is caught. Bytes that are not UTF-8,
  text that is not JSON, and a METADATA directory (`.read()` on `None`)
  all raise. They are not read as "no metadata".
- Links are resolved only after every regular file has been collected.
  A link may therefore come before or after the file it targets. Among links
  of one name the last wins, and the first link that cannot be resolved
  decides the `KeyError`. A link must target a regular file other than
  METADATA, or the load raises `KeyError`. This covers a target that is
  itself only a link. Reading METADATA through a hard link still depends on
  order: tarfile looks for a hard link's target only among the members
  before it.
- `gettz_db_metadata()` on an empty slot calls `getzoneinfofile_stream`,
  which the module never defines. The result is `NameError`, and the slot
  stays empty. Only `gettz` can fill the slot.

## Model

| member | source | states |
|---|---|---|
| `TarArchive.LastNamed` | src/dateutil/zoneinfo/__init__.py:90 | the index found is the last one below the limit carrying the name; None exactly when no member below the limit carries it |
| `TarArchive.GetMember` | src/dateutil/zoneinfo/__init__.py:90 | `getmember` picks the last member of the name and raises KeyError exactly when no member has it |
| `TarArchive.LinkStep` | src/dateutil/zoneinfo/__init__.py:90 | a hard link names the last member before it carrying its target name, a symbolic link the last such member of the whole archive; None exactly when no member in that range carries the name, and for a member that is not a link |
| `TarArchive.ExtractFile` | src/dateutil/zoneinfo/__init__.py:90-91 | a regular file yields its own data and a data-less member yields None; a link whose named member is a regular file yields that file's data, one whose named member carries no data yields None, and a link with no named member raises KeyError with its target; any data returned is some regular file's data; the only errors are KeyError and RecursionError |
| `TarArchiveLemmas.RecursionErrorIffChain` | src/dateutil/zoneinfo/__init__.py:90 | `extractfile` with a given fuel raises RecursionError exactly when every member on the chain of links it follows, one step longer than the fuel, is a link |
| `TarArchiveLemmas.CycleRaises` | src/dateutil/zoneinfo/__init__.py:90 | a chain of links that comes back to a member it visited raises RecursionError whatever the fuel, and the cycle passes through a symbolic link, since hard links only name earlier members |
| `TarArchiveLemmas.RecursionErrorIffCycle` | src/dateutil/zoneinfo/__init__.py:90 | with the fuel the zone loader passes (the number of members), RecursionError is raised exactly when the chain of links from the member comes back to a member it visited |
| `ZoneInfo.FileZones` | src/dateutil/zoneinfo/__init__.py:76-80 | the keys are exactly the names of regular files other than METADATA; each value is parsed from such a file under its key |
| `ZoneInfo.LinkZones` | src/dateutil/zoneinfo/__init__.py:83-87 | succeeds iff every hard or symbolic link targets a collected file; then its keys are exactly the link names, each mapped to the record stored under a link's target; otherwise raises KeyError naming the target of the first unresolvable link |
| `ZoneInfo.LegacyMetadata` | src/dateutil/zoneinfo/__init__.py:89-95 | no METADATA member gives None; a KeyError never escapes; a document returned is the JSON parse of some regular file's UTF-8 text |
| `ZoneInfo.LoadLegacy` | src/dateutil/zoneinfo/__init__.py:74-95 | an unreadable stream raises; on success the keys are exactly the zone-file names and link names, every record was parsed from a zone file, and METADATA is a key only when a link carries that name |
| `ZoneInfo.PackageZones` | src/dateutil/zoneinfo/__init__.py:62-66 | one entry per tzdata key and no other, each parsed with `key=` that key from that key's bytes |
| `ZoneInfo.EagerLoad` | src/dateutil/zoneinfo/__init__.py:50-72 | a missing tzdata raises exactly the ImportError with the "add a dependency on tzdata or migrate away" message; otherwise the keys are exactly the tzdata keys and the metadata is `{"metadata_version": "3.0", "tzversion": IANA_VERSION}` |
| `ZoneInfo.Construct` | src/dateutil/zoneinfo/__init__.py:41-48 | succeeds iff the legacy stream (when given) loads and tzdata imports; a stream error propagates first, then the ImportError; success always ends with one `key=`-parsed zone per tzdata key and the synthesised metadata |
| `ZoneInfo.Get` | src/dateutil/zoneinfo/__init__.py:97-111 | `zones.get(name, default)`: the record stored under a present name, the default for any other name, never an error |
| `ZoneInfoLemmas.FileZonesLast` | src/dateutil/zoneinfo/__init__.py:76-80 | the entry under a file name is the record of the last regular file of that name |
| `ZoneInfoLemmas.LinkZonesLast` | src/dateutil/zoneinfo/__init__.py:83-87 | the entry under a link name is the record stored under the target of the last link of that name |
| `ZoneInfoLemmas.LoadLegacyParts` | src/dateutil/zoneinfo/__init__.py:76-95 | a successful load is the file dict updated by the link dict, plus the METADATA block's value |
| `ZoneInfoLemmas.LegacySucceeds` | src/dateutil/zoneinfo/__init__.py:83-95 | the legacy load succeeds iff every link targets a zone file and the METADATA block raises nothing |
| `ZoneInfoLemmas.LegacyFileEntry` | src/dateutil/zoneinfo/__init__.py:76-88 | a zone file whose name no link takes maps to the record parsed from the last file of that name |
| `ZoneInfoLemmas.LegacyLinkEntry` | src/dateutil/zoneinfo/__init__.py:83-88 | a link maps to the very record of the last zone file named by its target, whatever the order; it replaces a same-named file; with no link named like the target, link and target map to the same record |
| `ZoneInfoLemmas.LegacyUnresolvableLink` | src/dateutil/zoneinfo/__init__.py:83-87 | the first link whose target is missing, only a link, or METADATA makes the load raise KeyError with that target |
| `ZoneInfoLemmas.LegacyNoMetadata` | src/dateutil/zoneinfo/__init__.py:89-95 | with resolvable links and no METADATA member the load succeeds with metadata None |
| `ZoneInfoLemmas.LegacyMetadataFile` | src/dateutil/zoneinfo/__init__.py:89-95 | a METADATA regular file gives the parsed JSON; bad UTF-8 raises UnicodeDecodeError and bad JSON raises JSONDecodeError, neither caught |
| `ZoneInfoLemmas.LegacyMetadataDir` | src/dateutil/zoneinfo/__init__.py:90-91 | a data-less METADATA member raises AttributeError, which is not caught |
| `ZoneInfoLemmas.ConstructIgnoresLegacy` | src/dateutil/zoneinfo/__init__.py:41-48 | a successful construction from a legacy stream equals construction without one |
| `ZoneInfoLemmas.GetAfterConstruct` | src/dateutil/zoneinfo/__init__.py:97-111 | on a constructed instance `get` returns the tzdata record of a packaged key and the default for any other name |
| `ZoneInfoLemmas.GetWithoutLinks` | src/dateutil/zoneinfo/__init__.py:97-111 | on a link-free legacy load `get` returns a record parsed under the name asked for, or the default for a name no zone file has |
| `ZoneInfoLemmas.LinkBeforeTarget` | src/dateutil/zoneinfo/__init__.py:76-95 | a symbolic link placed before its target file resolves to the target's record, and a METADATA file supplies the metadata |
| `ZoneInfoLemmas.UtcAliasExample` | src/dateutil/zoneinfo/__init__.py:76-95 | an archive with `Etc/UTC` linked to `UTC` and a METADATA document gives one shared record for both names and that document as metadata |
| `ZoneCaches.NewZoneInfoFile` | src/dateutil/zoneinfo/__init__.py:145 | a successful construction takes the next identity; a failed one changes no state and reports the constructor's error |
| `ZoneCaches.GetZonefileInstance` | src/dateutil/zoneinfo/__init__.py:139-149 | without `new_instance` a cached instance is returned unchanged; otherwise a new instance with the next identity is built; the cache is written only on success; the legacy slot is untouched |
| `ZoneCaches.Gettz` | src/dateutil/zoneinfo/__init__.py:179-187 | always warns; fills an empty slot only when `ZoneInfoFile()` succeeds; answers `zones.get(name)` of the slot's instance |
| `ZoneCaches.GettzDbMetadata` | src/dateutil/zoneinfo/__init__.py:200-208 | always warns; an empty slot raises NameError for `getzoneinfofile_stream` and stays empty; otherwise answers the slot instance's metadata |
| `ZoneCachesLemmas.CachedInstanceReused` | src/dateutil/zoneinfo/__init__.py:139-149 | a second call without `new_instance` returns the same instance and changes nothing |
| `ZoneCachesLemmas.ForcedRefreshIsFresh` | src/dateutil/zoneinfo/__init__.py:139-149 | `new_instance=True` returns an instance distinct from every earlier one, in a valid state distinct from the instances both caches held, and later plain calls return it |
| `ZoneCachesLemmas.MissingTzdataNotCached` | src/dateutil/zoneinfo/__init__.py:51-60 | without tzdata the call raises the ImportError, leaves the cache empty, and the next call constructs again |
| `ZoneCachesLemmas.GettzThenMetadata` | src/dateutil/zoneinfo/__init__.py:185-208 | after `gettz` fills the slot, `gettz_db_metadata` returns that same instance's synthesised metadata |
| `ZoneCachesLemmas.MetadataFirstRaises` | src/dateutil/zoneinfo/__init__.py:206-207 | `gettz_db_metadata` on an empty slot raises NameError, warns once, leaves the slot empty, and a later `gettz` still fills it |
| `ZoneCachesLemmas.GettzMissingName` | src/dateutil/zoneinfo/__init__.py:187 | `gettz` of an absent name returns None |
| `ZoneCachesLemmas.RunValid` | src/dateutil/zoneinfo/__init__.py:120-208 | over any call sequence both caches hold only already-allocated instances and the identity counter never decreases |
| `ZoneCachesLemmas.LegacySlotFilledOnce` | src/dateutil/zoneinfo/__init__.py:185-208 | once filled, the legacy slot keeps the same instance through any call sequence |
| `ZoneCachesLemmas.SlotsIndependent` | src/dateutil/zoneinfo/__init__.py:120-208 | `get_zonefile_instance` calls never change the legacy slot and legacy calls never change its cache |
| `ZoneCachesLemmas.WarningsCounted` | src/dateutil/zoneinfo/__init__.py:179-204 | each legacy call emits exactly one DeprecationWarning and `get_zonefile_instance` emits none |
| `ZoneCachesLemmas.InitialValid` | src/dateutil/zoneinfo/__init__.py:120 | from import time, every call sequence keeps the caches valid |
| `ReadmeRewrite.Join` | setup.py:54 | `''.join`: the empty list gives the empty string and a single line itself; the result starts with the first line and is at least as long as every line |
| `ReadmeRewrite.Readme` | setup.py:37-54 | an empty file gives the empty string; a single `.. doctest` line gives exactly the code-block line and any other single line itself; a file without `.. doctest` lines gives the plain concatenation of its lines |
| `ReadmeRewrite.JoinLines` | setup.py:54 | joining by appending the lines one at a time from the left gives `''.join` |
| `ReadmeRewrite.RewriteLines` | setup.py:47-52 | one output line per input line; a line starting with `.. doctest` becomes exactly `.. code-block:: python3\n` and any other line is kept at its position |
| `ReadmeRewrite.CodeBlockIsNotDoctest` | setup.py:49-50 | the replacement line does not start with `.. doctest` |
| `ReadmeRewrite.JoinAppend` | setup.py:54 | joining one more line appends it |
| `ReadmeRewrite.JoinConcat` | setup.py:54 | joining two concatenated lists concatenates their joins |
| `ReadmeRewrite.RewriteReadme` | setup.py:46-54 | same number of lines in order; every `.. doctest` line becomes exactly `.. code-block:: python3\n`; every other line is copied verbatim; no output line starts with `.. doctest`; the text is their concatenation and equals `readme()`'s result |
| `ReadmeRewrite.NoDoctestUnchanged` | setup.py:49-54 | without `.. doctest` lines the lines are unchanged and the result is their plain concatenation |
| `ReadmeRewrite.RewriteIdempotent` | setup.py:49-50 | rewriting the rewritten lines changes nothing |
| `ReadmeRewrite.ReadmeConcat` | setup.py:47-54 | the result for two consecutive blocks of lines is the two results concatenated |

## Left out

- TZif parsing (`tzfile`): a `Zone` is the name and bytes it was built from. Parse errors that `tzfile` would raise are not modelled.
- The tar byte format and `TarFile.open`: a stream is either a member list or unreadable (`ReadError`). Tar member types other than file, hard link, symbolic link and directory are folded into `Dir`, so members of unknown type, which tarfile reads as files, are not distinguished.
- `TarArchive.ExtractFile`: a link's target is looked up by name as written. tarfile normalises the names of both hard and symbolic link targets and of the members it compares them with, and first joins a symbolic link's target to the link's directory. Python's recursion limit on long non-cyclic link chains is not modelled.
- UTF-8 decoding and JSON parsing: these are given functions that return `None` on failure. Their grammars (RFC 3629, RFC 8259) are not modelled.
- `_tzdata_impl._load_tzdata_keys`, `_load_tzdata` and the `tzdata` package: these are not part of this model. They are a given key list, loader and version string, and a failure to open a listed key is not modelled.
- `warnings.warn`: the model only records a log entry per legacy call. The module-level warning at import time, warning filters and `stacklevel` are left out.
- Thread safety: the caches have no locking, so every call in the model is sequential.
- `ZoneInfoFile.get` with a default of a type other than a zone or None: the default is an `Option<Zone>`.
- `setup.py`: the README.rst read, the `setup()` call, the MANIFEST unlink, the setuptools version check and the `Unsupported` command are build plumbing. `readme()` is modelled from the list `readlines()` returns.
- `dateutil/tz/__init__.py` is only re-exports and a `tzutc()` constant. It is not part of this model.
