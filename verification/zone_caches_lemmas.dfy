/** Properties of the two caches over single calls and over any sequence of
    calls: reuse of the cached instance, freshness of a forced refresh, no
    caching of a failed construction, independence of the two slots, a
    legacy slot that is filled at most once, and the NameError of
    `gettz_db_metadata` on an empty slot. */
module ZoneCachesLemmas {
  import opened Results
  import opened Exceptions
  import opened ZoneInfo
  import opened ZoneCaches

  /** Two calls without `new_instance` return the same object, and the
      second constructs nothing. */
  lemma CachedInstanceReused(w: World, env1: Env, env2: Env)
    requires GetZonefileInstance(w, false, env1).result.Ok?
    ensures var s1 := GetZonefileInstance(w, false, env1);
      GetZonefileInstance(s1.world, false, env2) == Step(s1.world, s1.result)
  {
  }

  /** A forced refresh returns an object distinct from every object made
      before it, in particular from the instances both caches held, caches
      it, and a later plain call returns the new one. */
  lemma ForcedRefreshIsFresh(w: World, env: Env, earlier: Instance, env2: Env)
    requires GetZonefileInstance(w, true, env).result.Ok?
    requires earlier.id < w.nextId
    ensures var s := GetZonefileInstance(w, true, env);
      && s.result.value != earlier
      && s.result.value.id == w.nextId
      && GetZonefileInstance(s.world, false, env2).result == s.result
      && (Valid(w) && w.cached.Some? ==> s.result.value != w.cached.value)
      && (Valid(w) && w.legacySlot.Some? ==> s.result.value != w.legacySlot.value)
  {
  }

  /** With tzdata missing, a call that must construct raises the ImportError
      and leaves the cache empty, so the next call constructs again. */
  lemma MissingTzdataNotCached(w: World, newInstance: bool, codecs: Codecs, env2: Env)
    requires w.cached.None?
    ensures var s := GetZonefileInstance(w, newInstance, Env(None, codecs));
      && s.result == Err(ImportError(TzdataMissing))
      && s.world == w
      && GetZonefileInstance(s.world, false, env2) == GetZonefileInstance(w, false, env2)
      && (env2.tzdata.Some? ==> GetZonefileInstance(s.world, false, env2).result.Ok?)
  {
  }

  /** `gettz` on an empty slot then `gettz_db_metadata`: the metadata is
      that of the instance `gettz` built, the one synthesised from tzdata. */
  lemma GettzThenMetadata(w: World, name: string, env1: Env, env2: Env)
    requires w.legacySlot.None?
    requires Gettz(w, name, env1).result.Ok?
    ensures var s := Gettz(w, name, env1);
      && s.world.legacySlot.Some?
      && GettzDbMetadata(s.world, env2).result == Ok(s.world.legacySlot.value.db.metadata)
      && GettzDbMetadata(s.world, env2).result == Ok(Some(SynthMetadata(env1.tzdata.value.version)))
  {
  }

  /** `gettz_db_metadata` first raises NameError and leaves the slot empty;
      a `gettz` after it still builds the instance. */
  lemma MetadataFirstRaises(w: World, env1: Env, name: string, env2: Env)
    requires w.legacySlot.None?
    ensures var s := GettzDbMetadata(w, env1);
      && s.result == Err(NameError(MissingStreamFunction))
      && s.world.legacySlot.None?
      && |s.world.warnings| == |w.warnings| + 1
      && (Construct(None, env2).Ok? ==> Gettz(s.world, name, env2).world.legacySlot.Some?)
  {
  }

  /** A missing name makes `gettz` answer None, not raise. */
  lemma GettzMissingName(w: World, name: string, env: Env)
    requires w.legacySlot.Some? && name !in w.legacySlot.value.db.zones
    ensures Gettz(w, name, env).result == Ok(None)
  {
  }

  // ---------------------------------------------------------------------
  // Any sequence of calls

  /** Every call keeps the caches' instances older than `nextId`, and never
      lowers `nextId`. */
  lemma {:induction false} RunValid(w: World, calls: seq<Call>)
    requires Valid(w)
    ensures Valid(Run(w, calls))
    ensures Run(w, calls).nextId >= w.nextId
    decreases |calls|
  {
    if calls != [] {
      RunValid(Apply(w, calls[0]), calls[1..]);
    }
  }

  /** Once filled, the legacy slot holds the same instance forever. */
  lemma {:induction false} LegacySlotFilledOnce(w: World, calls: seq<Call>)
    requires w.legacySlot.Some?
    ensures Run(w, calls).legacySlot == w.legacySlot
    decreases |calls|
  {
    if calls != [] {
      LegacySlotFilledOnce(Apply(w, calls[0]), calls[1..]);
    }
  }

  /** `get_zonefile_instance` never touches the legacy slot, and the legacy
      entry points never touch its cache. */
  lemma {:induction false} SlotsIndependent(w: World, calls: seq<Call>)
    ensures (forall i :: 0 <= i < |calls| ==> !calls[i].IsLegacy()) ==> Run(w, calls).legacySlot == w.legacySlot
    ensures (forall i :: 0 <= i < |calls| ==> calls[i].IsLegacy()) ==> Run(w, calls).cached == w.cached
    decreases |calls|
  {
    if calls != [] {
      assert forall i :: 0 <= i < |calls[1..]| ==> calls[1..][i] == calls[i + 1];
      SlotsIndependent(Apply(w, calls[0]), calls[1..]);
    }
  }

  /** Every legacy call emits exactly one DeprecationWarning and no other
      call emits one. */
  lemma {:induction false} WarningsCounted(w: World, calls: seq<Call>)
    ensures |Run(w, calls).warnings| == |w.warnings| + LegacyCount(calls)
    decreases |calls|
  {
    if calls != [] {
      WarningsCounted(Apply(w, calls[0]), calls[1..]);
    }
  }

  /** From import time, the caches hold only instances that were allocated,
      each under its own identity below `nextId`. */
  lemma InitialValid(calls: seq<Call>)
    ensures Valid(Run(Initial, calls))
  {
    RunValid(Initial, calls);
  }
}
