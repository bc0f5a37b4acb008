/** The two process-wide `ZoneInfoFile` caches as a state machine: the
    `_cached_instance` attribute of `get_zonefile_instance`, and the legacy
    `_CLASS_ZONE_INSTANCE` list shared by `gettz` and `gettz_db_metadata`.
    Python object identity is an allocation number: every successful
    `ZoneInfoFile(...)` call takes the next one. Calls are sequential. */
module ZoneCaches {
  import opened Results
  import opened Exceptions
  import opened ZoneInfo

  /** The name `gettz_db_metadata` calls but the module never defines. */
  const MissingStreamFunction: string := "getzoneinfofile_stream"

  /** A `ZoneInfoFile` object: its identity and its state. */
  datatype Instance = Instance(id: nat, db: ZoneInfoFile)

  /** The DeprecationWarnings the legacy entry points emit. */
  datatype Warning = GettzDeprecated | GettzDbMetadataDeprecated

  /** The process state the entry points read and write. `legacySlot` is
      the list `_CLASS_ZONE_INSTANCE`, empty or holding one instance. */
  datatype World = World(
    cached: Option<Instance>,
    legacySlot: Option<Instance>,
    nextId: nat,
    warnings: seq<Warning>)

  /** The state at import time. */
  const Initial: World := World(None, None, 0, [])

  /** Every instance a cache holds was allocated before `nextId`. */
  ghost predicate Valid(w: World) {
    && (w.cached.Some? ==> w.cached.value.id < w.nextId)
    && (w.legacySlot.Some? ==> w.legacySlot.value.id < w.nextId)
  }

  /** The state after a call and what the call returned or raised. */
  datatype Step<T> = Step(world: World, result: Result<T, Error>)

  /** `ZoneInfoFile(stream)` as an allocation: a new identity on success,
      no state change on failure. */
  function NewZoneInfoFile(w: World, stream: Option<ZoneFileStream>, env: Env): (s: Step<Instance>)
    ensures s.result.Ok? <==> Construct(stream, env).Ok?
    ensures s.result.Ok? ==> s.result.value.id == w.nextId && s.world.nextId == w.nextId + 1
    ensures s.result.Ok? ==> s.result.value.db == Construct(stream, env).value
    ensures s.result.Err? ==> s.result.error == Construct(stream, env).error && s.world == w
    ensures s.world.cached == w.cached && s.world.legacySlot == w.legacySlot && s.world.warnings == w.warnings
  {
    match Construct(stream, env)
    case Err(e) => Step(w, Err(e))
    case Ok(db) => Step(w.(nextId := w.nextId + 1), Ok(Instance(w.nextId, db)))
  }

  /** `get_zonefile_instance(new_instance)`. */
  function GetZonefileInstance(w: World, newInstance: bool, env: Env): (s: Step<Instance>)
    ensures s.world.legacySlot == w.legacySlot && s.world.warnings == w.warnings
    ensures !newInstance && w.cached.Some? ==> s == Step(w, Ok(w.cached.value))
    ensures newInstance || w.cached.None? ==>
      && (s.result.Ok? <==> Construct(None, env).Ok?)
      && (s.result.Ok? ==> s.result.value == Instance(w.nextId, Construct(None, env).value))
    ensures s.result.Ok? ==> s.world.cached == Some(s.result.value)
    ensures s.result.Err? ==> s.world == w && s.result.error == Construct(None, env).error
    ensures Valid(w) ==> Valid(s.world)
  {
    var zif := if newInstance then None else w.cached;
    match zif
    case Some(inst) => Step(w, Ok(inst))
    case None =>
      var made := NewZoneInfoFile(w, None, env);
      match made.result {
        case Err(e) => made
        case Ok(inst) => Step(made.world.(cached := Some(inst)), Ok(inst))
      }
  }

  /** `gettz(name)`: warn, fill the legacy slot from `ZoneInfoFile()` when
      it is empty, and look the name up with a default of None. */
  function Gettz(w: World, name: string, env: Env): (s: Step<Option<Zone>>)
    ensures s.world.warnings == w.warnings + [GettzDeprecated]
    ensures s.world.cached == w.cached
    ensures w.legacySlot.Some? ==>
      s.world.legacySlot == w.legacySlot && s.result == Ok(Get(w.legacySlot.value.db, name, None))
    ensures w.legacySlot.None? && Construct(None, env).Err? ==>
      s.world.legacySlot == None && s.result == Err(Construct(None, env).error)
    ensures w.legacySlot.None? && Construct(None, env).Ok? ==>
      && s.world.legacySlot == Some(Instance(w.nextId, Construct(None, env).value))
      && s.result == Ok(Get(Construct(None, env).value, name, None))
    ensures Valid(w) ==> Valid(s.world)
  {
    var warned := w.(warnings := w.warnings + [GettzDeprecated]);
    match warned.legacySlot
    case Some(inst) => Step(warned, Ok(Get(inst.db, name, None)))
    case None =>
      var made := NewZoneInfoFile(warned, None, env);
      match made.result {
        case Err(e) => Step(made.world, Err(e))
        case Ok(inst) => Step(made.world.(legacySlot := Some(inst)), Ok(Get(inst.db, name, None)))
      }
  }

  /** `gettz_db_metadata()`: warn, then either raise NameError, because the
      stream function it calls on an empty slot does not exist, or return
      the metadata of the instance in the slot. */
  function GettzDbMetadata(w: World, env: Env): (s: Step<Option<Json>>)
    ensures s.world == w.(warnings := w.warnings + [GettzDbMetadataDeprecated])
    ensures w.legacySlot.None? ==> s.result == Err(NameError(MissingStreamFunction))
    ensures w.legacySlot.Some? ==> s.result == Ok(w.legacySlot.value.db.metadata)
  {
    var warned := w.(warnings := w.warnings + [GettzDbMetadataDeprecated]);
    match warned.legacySlot
    case None => Step(warned, Err(NameError(MissingStreamFunction)))
    case Some(inst) => Step(warned, Ok(inst.db.metadata))
  }

  // ---------------------------------------------------------------------
  // Sequences of calls

  /** One call of a public entry point, with the environment it runs in. */
  datatype Call =
    | GetInstance(newInstance: bool, env: Env)
    | GettzCall(name: string, env: Env)
    | MetadataCall(env: Env)
  {
    predicate IsLegacy() {
      GettzCall? || MetadataCall?
    }
  }

  function Apply(w: World, c: Call): World {
    match c
    case GetInstance(newInstance, env) => GetZonefileInstance(w, newInstance, env).world
    case GettzCall(name, env) => Gettz(w, name, env).world
    case MetadataCall(env) => GettzDbMetadata(w, env).world
  }

  /** The state after making `calls` in order. */
  function Run(w: World, calls: seq<Call>): World
    decreases |calls|
  {
    if calls == [] then w else Run(Apply(w, calls[0]), calls[1..])
  }

  /** The number of legacy calls in `calls`. */
  function LegacyCount(calls: seq<Call>): nat
    decreases |calls|
  {
    if calls == [] then 0 else (if calls[0].IsLegacy() then 1 else 0) + LegacyCount(calls[1..])
  }
}
