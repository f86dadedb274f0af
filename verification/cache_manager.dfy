/** The cache manager: a map of entries with its entry counter and change counter, updated in place. */
module CacheManager {
  import opened Wire
  import opened CacheKeys
  import opened Amortize
  import opened AmortizeRun

  type Entries = map<string, Entry>

  // ---------------------------------------------------------------- eviction

  /** The states eviction takes an entry's age in. */
  predicate Aged(e: Entry) { e.state != Negative && e.state != Stale }

  predicate HasState(m: Entries, s: State) { exists k :: k in m && m[k].state == s }

  /** Failed probes go first, then stale profiles, then the oldest. */
  predicate Victim(m: Entries, k: string) {
    && k in m
    && (HasState(m, Negative) ==> m[k].state == Negative)
    && (!HasState(m, Negative) && HasState(m, Stale) ==> m[k].state == Stale)
    && (!HasState(m, Negative) && !HasState(m, Stale) ==> Oldest(m, k))
  }

  predicate Oldest(m: Entries, k: string)
    requires k in m
  {
    forall j :: j in m && Aged(m[j]) && m[j].profile.Some? ==>
      m[k].profile.Some? && m[k].profile.value.capturedAt <= m[j].profile.value.capturedAt
  }

  /** Everything eviction may look into has a profile. */
  predicate Loaded(m: Entries) { forall k :: k in m && Aged(m[k]) ==> m[k].profile.Some? }

  /** Of all keys but those in rest, the empty key left aside, none has the state. */
  predicate NoneYet(m: Entries, rest: set<string>, s: State) {
    forall k :: k in m && k !in rest && k != "" ==> m[k].state != s
  }

  predicate OldestYet(m: Entries, rest: set<string>, key: string, oldest: nat) {
    if key == "" then forall k :: k in m && k !in rest ==> !Aged(m[k])
    else forall k :: k in m && k !in rest && Aged(m[k]) && m[k].profile.Some? ==>
      oldest <= m[k].profile.value.capturedAt
  }

  /** One pass over the map, in any order; the empty key stands for none. */
  method PickVictim(m: Entries) returns (key: string)
    requires Loaded(m)
    ensures key != "" ==> key in m
    ensures "" !in m && m != map[] ==> Victim(m, key)
  {
    var negativeKey, staleKey, oldestKey, oldest := "", "", "", 0;
    var rest := m.Keys;
    while rest != {}
      invariant rest <= m.Keys
      invariant if negativeKey == "" then NoneYet(m, rest, Negative)
                else negativeKey in m && m[negativeKey].state == Negative
      invariant if staleKey == "" then NoneYet(m, rest, Stale) else staleKey in m && m[staleKey].state == Stale
      invariant oldestKey != "" ==>
        oldestKey in m && Aged(m[oldestKey]) && oldest == m[oldestKey].profile.value.capturedAt
      invariant "" !in m ==> OldestYet(m, rest, oldestKey, oldest)
      decreases |rest|
    {
      var k :| k in rest;
      rest := rest - {k};
      if m[k].state == Negative {
        if negativeKey == "" { negativeKey := k; }
      } else if m[k].state == Stale {
        if staleKey == "" { staleKey := k; }
      } else if oldestKey == "" || m[k].profile.value.capturedAt < oldest {
        oldestKey, oldest := k, m[k].profile.value.capturedAt;
      }
    }
    key := negativeKey;
    if key == "" { key := staleKey; }
    if key == "" { key := oldestKey; }
    if "" !in m && m != map[] { Chosen(m, negativeKey, staleKey, oldestKey, oldest); }
  }

  lemma Chosen(m: Entries, negativeKey: string, staleKey: string, oldestKey: string, oldest: nat)
    requires "" !in m && m != map[] && Loaded(m)
    requires if negativeKey == "" then NoneYet(m, {}, Negative)
             else negativeKey in m && m[negativeKey].state == Negative
    requires if staleKey == "" then NoneYet(m, {}, Stale) else staleKey in m && m[staleKey].state == Stale
    requires oldestKey != "" ==> oldestKey in m && Aged(m[oldestKey]) && oldest == m[oldestKey].profile.value.capturedAt
    requires OldestYet(m, {}, oldestKey, oldest)
    ensures Victim(m, if negativeKey != "" then negativeKey else if staleKey != "" then staleKey else oldestKey)
  {
    if negativeKey == "" && staleKey == "" {
      var k :| k in m;
      assert Aged(m[k]);
    }
  }

  // ---------------------------------------------------------------- the manager

  /** A failure that quarantines an entry without profile. */
  predicate Strands(m: Entries, key: string, path: Path) {
    key != "" && path != L0 && key in m && m[key].profile.None? && m[key].failCount + 1 >= MAX_FAILS
  }

  lemma FailureLoads(m: Entries, key: string, path: Path, now: nat)
    requires key != "" && path != L0 && key in m
    ensures Loaded(m) ==> (Loaded(m[key := Failed(m[key], now)]) <==> !Strands(m, key, path))
  {
    var m' := m[key := Failed(m[key], now)];
    assert Loaded(m) && Aged(m[key]) ==> m[key].profile.Some?;
    if !Loaded(m) {
    } else if Strands(m, key, path) {
      assert key in m' && Aged(m'[key]) && m'[key].profile.None?;
    } else {
      assert Aged(m'[key]) ==> m'[key].profile.Some?;
    }
  }

  /** A failed probe of a new key, then one noted failure: eviction would look for a profile that is not there. */
  lemma FailedProbeStrands(m: Entries, key: string, path: Path, now: nat, later: nat)
    requires Loaded(m) && key != "" && path != L0 && key !in m
    ensures var m1 := m[key := MarkNegative(None, now)];
      Loaded(m1) && Strands(m1, key, path) && !Loaded(m1[key := Failed(m1[key], later)])
  {
    var m1 := m[key := MarkNegative(None, now)];
    FailureLoads(m1, key, path, later);
  }

  /** The map as the run model sees it. */
  ghost predicate Shows(w: World, m: Entries, now: nat) {
    w.now == now && w.cells.Keys == m.Keys && forall k :: k in m ==> w.cells[k].entry == m[k]
  }

  /** The state read without the lock is the state. */
  predicate Twins(m: Entries) { forall k :: k in m ==> m[k].atomicState == m[k].state }

  ghost function Evicted(w: World, victim: Option<string>): World {
    if victim.None? then w else DoRemove(w, victim.value)
  }

  function Max(a: int, b: int): int { if a > b then a else b }

  /** An observation on a present entry, as its branches are written. */
  method UpdateEntry(entry: Entry, now: nat, obs0: Profile) returns (e: Entry, changed: bool)
    ensures e == ObserveOn(entry, now, obs0) && changed == !Cooling(entry, now)
  {
    e, changed := entry, true;
    var obs := obs0;
    if obs.mode == 0 { obs := obs.(mode := InferMode(obs.lens)); }
    var isProbe := obs.source == Probe;
    if isProbe && obs.live != 0 { obs := obs.(live := 0); }
    if e.state == Quarantined {
      if now < e.nextRetry { return e, false; }
      var cp := if isProbe then obs.(evidence := 0, live := 0) else obs.(evidence := 1, live := 1, source := Live);
      if cp.stability < 1 { cp := cp.(stability := 1); }
      e := e.(profile := Some(cp), failCount := 0, nextRetry := 0, ttl := BASE_TTL).To(Valid);
      return;
    }
    if e.profile.Some? && Matches(e.profile.value, obs) {
      var cur := e.profile.value;
      var merged := obs.(stability := cur.stability);
      if obs.template == [] { merged := merged.(template := cur.template); }
      if isProbe {
        merged := merged.(source := if cur.source == Unset then Probe else cur.source,
                          evidence := cur.evidence, live := cur.live);
      } else {
        merged := merged.(evidence := cur.evidence + 1, live := cur.live + 1);
        if merged.stability < 10 { merged := merged.(stability := cur.stability + 1); }
        merged := merged.(source := Live);
      }
      e := e.(profile := Some(merged), failCount := 0, ttl := BASE_TTL).To(Valid);
      return;
    }
    // A match on a suspect entry was handled above, so the counter of pending mismatches never counts.
    if e.state == Suspect && e.profile.Some? && Matches(e.profile.value, obs) { assert false; }
    var cp := if isProbe then obs.(evidence := 0, live := 0) else obs.(evidence := 1, live := 1, source := Live);
    e := e.(profile := Some(cp), failCount := 1).To(Suspect);
  }

  /** A failure on a present entry, as its branches are written. */
  method FailEntry(entry: Entry, now: nat) returns (e: Entry)
    ensures e == Failed(entry, now)
  {
    e := entry.(failCount := entry.failCount + 1);
    if e.failCount >= MAX_FAILS {
      e := e.(nextRetry := now + COOLDOWN).To(Quarantined);
      if e.profile.Some? { e := e.(profile := Some(e.profile.value.(evidence := 0))); }
    } else if e.state == State.Valid {
      e := e.To(Suspect);
    }
  }

  /** Calls are atomic. The ghost world follows every call, so that what holds of all runs holds here. */
  class Manager {
    var entries: Entries
    var profileEntries: int
    var dirty: nat
    var persisted: nat
    var now: nat
    const maxProfiles: nat
    ghost var world: World

    ghost predicate Valid()
      reads this
    {
      profileEntries == |entries| && Twins(entries) && Shows(world, entries, now)
    }

    constructor (maxProfiles: nat)
      ensures Valid() && entries == map[] && dirty == persisted == 0 && world == EMPTY_WORLD
        && this.maxProfiles == maxProfiles
    {
      this.maxProfiles := maxProfiles;
      entries, profileEntries, dirty, persisted, now := map[], 0, 0, 0, 0;
      world := EMPTY_WORLD;
    }

    /** Drops one entry when there are too many. */
    method EvictIfFull() returns (victim: Option<string>)
      requires Valid() && (|entries| > maxProfiles ==> Loaded(entries))
      modifies this`entries, this`profileEntries, this`world
      ensures Valid() && (Loaded(old(entries)) ==> Loaded(entries)) && world == Evicted(old(world), victim)
      ensures entries == if victim.None? then old(entries) else old(entries) - {victim.value}
      ensures victim.Some? ==> victim.value in old(entries)
      ensures |old(entries)| <= maxProfiles ==> victim.None?
      ensures |old(entries)| > maxProfiles && "" !in old(entries) ==> victim.Some? && Victim(old(entries), victim.value)
    {
      victim := None;
      if profileEntries <= maxProfiles { return; }
      var key := PickVictim(entries);
      if key != "" {
        victim := Some(key);
        DropEntry(key);
      }
    }

    /** An entry removed; the counter moves with the map. */
    method DropEntry(key: string)
      requires Valid() && key in entries
      modifies this`entries, this`profileEntries, this`world
      ensures Valid() && entries == old(entries) - {key} && world == DoRemove(old(world), key)
    {
      Removed(entries, key);
      entries := entries - {key};
      profileEntries := profileEntries - 1;
      world := DoRemove(world, key);
    }

    /** An entry written under a key that may be new; the counter moves with the map. */
    method SetEntry(key: string, e: Entry, ghost w: World)
      requires Valid() && e.atomicState == e.state && Shows(w, entries[key := e], now)
      modifies this`entries, this`profileEntries, this`world
      ensures Valid() && entries == old(entries)[key := e] && world == w
    {
      Added(entries, key, e);
      if key !in entries { profileEntries := profileEntries + 1; }
      entries := entries[key := e];
      world := w;
    }

    /** A new entry; when there are too many, another one goes, or even this one. */
    method StoreNew(key: string, e: Entry, ghost w: World) returns (victim: Option<string>)
      requires Valid() && (|entries| >= maxProfiles ==> Loaded(entries))
      requires key !in entries && e.profile.Some? && e.atomicState == e.state && Shows(w, entries[key := e], now)
      modifies this
      ensures Valid() && (Loaded(old(entries)) ==> Loaded(entries)) && now == old(now) && dirty == old(dirty) + 1
      ensures world == Evicted(w, victim) && (victim.Some? ==> |old(entries)| >= maxProfiles)
      ensures key != "" && "" !in old(entries) ==>
        && |entries| <= Max(|old(entries)|, maxProfiles)
        && (victim.Some? <==> |old(entries)| >= maxProfiles)
        && (victim.Some? ==> Victim(old(entries)[key := e], victim.value))
      ensures |entries| == |old(entries)| + if victim.Some? then 0 else 1
    {
      Added(entries, key, e);
      SetEntry(key, e, w);
      dirty := dirty + 1;
      victim := EvictIfFull();
      if victim.Some? { Removed(old(entries)[key := e], victim.value); }
    }

    /** Merges an observation; a new entry may push another one out. */
    method StoreObservation(key: string, obs: Profile) returns (victim: Option<string>)
      requires Valid() && (|entries| >= maxProfiles ==> Loaded(entries))
      modifies this
      ensures Valid() && (Loaded(old(entries)) ==> Loaded(entries)) && now == old(now)
      ensures world == Evicted(DoObserve(old(world), key, obs), victim)
      ensures victim.Some? ==> |old(entries)| >= maxProfiles && key !in old(entries)
      ensures key != "" && "" !in old(entries) ==> |entries| <= Max(|old(entries)|, maxProfiles)
      ensures var ignored := !ValidLens(obs.lens) || (key in old(entries) && Cooling(old(entries)[key], now));
        dirty == old(dirty) + if ignored then 0 else 1
    {
      if !ValidLens(obs.lens) { return None; }
      ghost var w := DoObserve(world, key, obs);
      if key !in entries {
        victim := StoreNew(key, NewEntry(Created(Normal(obs))), w);
        return;
      }
      StoreOn(key, obs);
      victim := None;
    }

    /** An observation on an entry that is there. */
    method StoreOn(key: string, obs: Profile)
      requires Valid() && key in entries && ValidLens(obs.lens)
      modifies this
      ensures Valid() && (Loaded(old(entries)) ==> Loaded(entries)) && now == old(now) && |entries| == |old(entries)|
      ensures world == DoObserve(old(world), key, obs)
      ensures dirty == old(dirty) + if Cooling(old(entries)[key], now) then 0 else 1
    {
      var e, changed := UpdateEntry(entries[key], now, obs);
      Added(entries, key, e);
      SetEntry(key, e, DoObserve(world, key, obs));
      if changed { dirty := dirty + 1; }
    }

    /** Keeps an entry that is already there. */
    method StoreProfile(key: string, profile: Profile) returns (stored: bool, victim: Option<string>)
      requires Valid() && (|entries| >= maxProfiles ==> Loaded(entries))
      modifies this
      ensures Valid() && (Loaded(old(entries)) ==> Loaded(entries)) && now == old(now)
        && stored == (key !in old(entries))
      ensures world == if stored then Evicted(DoHotSwap(old(world), key, profile), victim) else old(world)
      ensures victim.Some? ==> |old(entries)| >= maxProfiles
      ensures key != "" && "" !in old(entries) ==> |entries| <= Max(|old(entries)|, maxProfiles)
      ensures dirty == old(dirty) + if stored then 1 else 0
    {
      if key in entries { return false, None; }
      victim := StoreNew(key, NewEntry(profile), DoHotSwap(world, key, profile));
      stored := true;
    }

    /** Replaces an entry without counting it: the accounts stay right exactly for a key that is present. */
    method HotSwapProfile(key: string, profile: Profile)
      requires Valid()
      modifies this
      ensures Valid() <==> key in old(entries)
      ensures Loaded(old(entries)) ==> Loaded(entries)
      ensures world == DoHotSwap(old(world), key, profile) && dirty == old(dirty) + 1
    {
      Added(entries, key, NewEntry(profile));
      world := DoHotSwap(world, key, profile);
      entries := entries[key := NewEntry(profile)];
      dirty := dirty + 1;
    }

    method MarkStaleKey(key: string)
      requires Valid()
      modifies this`entries, this`world, this`profileEntries
      ensures Valid() && world == DoRefresh(old(world), key) && |entries| == |old(entries)|
      ensures Loaded(old(entries)) ==> Loaded(entries)
    {
      if key in entries {
        var e := entries[key];
        if e.state == State.Valid || e.state == Stale {
          e := e.To(Stale);
          if e.score < 4 {
            e := e.(score := e.score + 1);
            var mult := 1 + e.score;
            if mult > 2 { mult := 2; }
            e := e.(ttl := BASE_TTL * mult);
          }
        }
        Added(entries, key, e);
        SetEntry(key, e, DoRefresh(world, key));
      }
    }

    method MarkNegativeKey(key: string)
      requires Valid()
      modifies this`entries, this`world, this`profileEntries
      ensures Valid() && world == DoProbeFailed(old(world), key)
      ensures |entries| == |old(entries)| + if key in old(entries) then 0 else 1
      ensures Loaded(old(entries)) ==> Loaded(entries)
    {
      var e := Amortize.MarkNegative(if key in entries then Some(entries[key]) else None, now);
      Added(entries, key, e);
      SetEntry(key, e, DoProbeFailed(world, key));
    }

    method InvalidateProfile(key: string)
      requires Valid()
      modifies this
      ensures Valid() && now == old(now) && world == DoRemove(old(world), key) && entries == old(entries) - {key}
      ensures dirty == old(dirty) + if key in old(entries) then 1 else 0
    {
      if key in entries {
        DropEntry(key);
        dirty := dirty + 1;
      } else {
        NothingToRemove(world, entries, key);
      }
    }

    /** A profile for a new connection, and whether it is stale. */
    method GetProfile(key: string) returns (profile: Option<Profile>, stale: bool)
      requires Valid() && (key in entries && entries[key].state == State.Valid ==> entries[key].profile.Some?)
      modifies this`entries, this`world, this`profileEntries
      ensures Valid() && world == DoGet(old(world), key)
      ensures profile.Some? ==> key in old(entries) && profile == old(entries)[key].profile
      ensures key in old(entries) && old(entries)[key].state == State.Valid ==>
        profile.Some? && stale == Expired(old(entries)[key], now)
      ensures key in old(entries) && old(entries)[key].state == Stale ==> profile == old(entries)[key].profile && stale
      ensures key !in old(entries) || old(entries)[key].state in {Negative, Suspect, Quarantined} ==>
        profile.None? && !stale
    {
      ghost var w := DoGet(world, key);
      if key !in entries { return None, false; }
      var e := entries[key];
      if e.state == State.Valid {
        if now - e.profile.value.capturedAt < e.ttl {
          world := w;
          return e.profile, false;
        }
        Added(entries, key, e.To(Stale));
        SetEntry(key, e.To(Stale), w);
        return e.profile, true;
      }
      if e.state == Stale { return e.profile, true; }
      if e.state == Negative && now >= e.nextRetry { DropEntry(key); }
      return None, false;
    }

    /** Everything eviction may look into still has a profile exactly when the key had one. */
    method QuarantineKeyNow(key: string)
      requires Valid()
      modifies this
      ensures Valid() && now == old(now) && world == DoQuarantine(old(world), key) && dirty == old(dirty) + 1
      ensures |entries| == |old(entries)| + if key in old(entries) then 0 else 1
      ensures Loaded(old(entries)) ==> (Loaded(entries) <==> key in old(entries) && old(entries)[key].profile.Some?)
    {
      var e := QuarantineNow(if key in entries then Some(entries[key]) else None, now);
      Added(entries, key, e);
      SetEntry(key, e, DoQuarantine(world, key));
      dirty := dirty + 1;
      assert Aged(entries[key]);
    }

    /** Eviction stays safe unless the failure quarantines an entry that never had a profile. */
    method NoteHandshakeFailure(key: string, path: Path)
      requires Valid()
      modifies this
      ensures Valid() && now == old(now) && world == DoFail(old(world), key, path) && |entries| == |old(entries)|
      ensures dirty == old(dirty) + if key == "" || path == L0 || key !in old(entries) then 0 else 1
      ensures Loaded(old(entries)) ==> (Loaded(entries) <==> !Strands(old(entries), key, path))
    {
      if key == "" || path == L0 || key !in entries { return; }
      var e := FailEntry(entries[key], now);
      Added(entries, key, e);
      FailureLoads(entries, key, path, now);
      SetEntry(key, e, DoFail(world, key, path));
      dirty := dirty + 1;
    }

    /** One key of a lookup: skips what is rejected, marks what has expired, and answers if it can. */
    method TryKey(key: string, q: Query) returns (hit: Option<Hit>)
      requires Valid() && Resolve(q.mode) != ModeL0
      modifies this`entries, this`world, this`profileEntries
      ensures Valid() && world == Visit(old(world), key) && |entries| == |old(entries)|
      ensures hit == if key in old(entries) then Answer(key, old(entries)[key], now, q) else None
    {
      if key !in entries { return None; }
      var e := entries[key];
      ghost var w := Visit(world, key);
      ghost var found := e;
      assert w.cells[key].entry == Touched(e, now);
      hit := None;
      if e.atomicState != Negative && e.atomicState != Quarantined && e.profile.Some?
        && ValidLens(e.profile.value.lens) {
        var p := e.profile.value;
        var suspect := e.state == Suspect;
        var expired := now - p.capturedAt >= e.ttl;
        if expired && e.state == State.Valid { e := e.To(Stale); }
        var stale := e.state == Stale || expired;
        var mode := Resolve(q.mode);
        var legacy, soft := IsLegacy(key), IsSoft(key);
        if !suspect && !stale && !legacy && !soft && Eligible(p, now) && (mode == ModeL2 || mode == ModeAuto)
          && Compatible(p, q) {
          hit := Some(Hit(L2, key, false));
        } else if Acceptable(p, q) {
          hit := Some(Hit(L1, key, stale));
        }
      }
      assert e == Touched(found, now);
      Added(entries, key, e);
      SetEntry(key, e, w);
    }

    /** Tries the exact key, then the soft key, then the legacy key. */
    method LookupAmortize(q: Query) returns (hit: Hit)
      requires Valid()
      modifies this`entries, this`world, this`profileEntries
      ensures Valid() && |entries| == |old(entries)| && (world, hit) == DoLookup(old(world), q)
    {
      if Resolve(q.mode) == ModeL0 { return Hit(L0, "", false); }
      var keys := Candidates(q);
      var i := 0;
      while i < |keys|
        invariant 0 <= i <= |keys| && Valid() && |entries| == |old(entries)| && now == old(now)
        invariant Search(world, keys[i..], q) == Search(old(world), keys, q)
      {
        assert keys[i..][0] == keys[i] && keys[i..][1..] == keys[i + 1..];
        var found := TryKey(keys[i], q);
        if found.Some? { return found.value; }
        i := i + 1;
      }
      return Hit(L0, "", false);
    }

    /** Deletes every entry, one by one. */
    method InvalidateAll()
      requires Valid()
      modifies this
      ensures Valid() && entries == map[] && now == old(now) && dirty == old(dirty) + 1
    {
      var keys := entries.Keys;
      while keys != {}
        invariant Valid() && entries.Keys == keys && now == old(now) && dirty == old(dirty)
        decreases |keys|
      {
        var k :| k in keys;
        keys := keys - {k};
        DropEntry(k);
      }
      dirty := dirty + 1;
    }

    /** The profiles worth saving, entry by entry. */
    method SnapshotProfiles() returns (snap: map<string, Profile>)
      requires Valid()
      ensures snap == OnDisk(world)
    {
      snap := map[];
      var rest := entries.Keys;
      while rest != {}
        invariant rest <= entries.Keys
        invariant snap == map k | k in entries && k !in rest && Saved(entries[k], now) :: entries[k].profile.value
        decreases |rest|
      {
        var k :| k in rest;
        rest := rest - {k};
        var e := entries[k];
        if e.state != Negative && e.profile.Some? && now - e.profile.value.capturedAt <= e.ttl {
          snap := snap[k := e.profile.value];
        }
      }
    }

    /**
      A start from a file: only what has not expired is stored, as persisted evidence; all of it when
      it is within capacity, and as much as fits otherwise.
     */
    method Load(file: map<string, Profile>)
      requires Valid() && entries == map[]
      modifies this
      ensures Valid() && Loaded(entries) && now == old(now)
      ensures var offered := FromDisk(World(map[], file, now), file.Keys);
        && SomeOf(world.cells, offered)
        && (|offered| <= maxProfiles ==> world.cells == offered)
        && ("" !in file ==> |entries| == Min(|offered|, maxProfiles))
    {
      var rest := file.Keys;
      PartEnds(file, now);
      while rest != {}
        invariant rest <= file.Keys && Valid() && Loaded(entries) && now == old(now) && entries.Keys <= file.Keys - rest
        invariant Stored(world.cells, Part(file, rest, now), maxProfiles, "" in file)
        decreases |rest|
      {
        var k :| k in rest;
        LoadNext(file, rest, k);
        rest := rest - {k};
      }
      KeysSize(world.cells, entries);
    }

    /** The next key of the file, unless it has expired. */
    method LoadNext(file: map<string, Profile>, ghost rest: set<string>, k: string)
      requires Valid() && Loaded(entries) && k in rest && rest <= file.Keys && entries.Keys <= file.Keys - rest
      requires Stored(world.cells, Part(file, rest, now), maxProfiles, "" in file)
      modifies this
      ensures Valid() && Loaded(entries) && now == old(now) && entries.Keys <= file.Keys - (rest - {k})
      ensures Stored(world.cells, Part(file, rest - {k}, now), maxProfiles, "" in file)
    {
      ghost var before := world.cells;
      if now - file[k].capturedAt <= BASE_TTL { LoadOne(k, file[k], "" in file); }
      StoredPart(file, rest, k, now, before, world.cells, maxProfiles, "" in file);
    }

    /** One saved profile, under a key that is not there yet. */
    method LoadOne(key: string, saved: Profile, ghost odd: bool)
      requires Valid() && Loaded(entries) && key !in entries && (key == "" || "" in entries ==> odd)
      modifies this
      ensures Valid() && Loaded(entries) && now == old(now) && entries.Keys <= old(entries.Keys) + {key}
      ensures StoredOne(old(world.cells), world.cells, key, saved, maxProfiles, odd)
    {
      var e := NewEntry(Reloaded(saved));
      KeysSize(world.cells, entries);
      var victim := StoreNew(key, e, DoHotSwap(world, key, Reloaded(saved)));
      KeysSize(world.cells, entries);
    }
  }

  function Min(a: int, b: int): int { if a < b then a else b }

  predicate SomeOf(a: map<string, Cell>, b: map<string, Cell>) { forall k :: k in a ==> k in b && a[k] == b[k] }

  /** One more cell, or, at capacity, one instead of another; the empty key can upset that. */
  predicate StoredOne(a: map<string, Cell>, b: map<string, Cell>, key: string, saved: Profile, most: nat, odd: bool) {
    var all := a[key := Cell(NewEntry(Reloaded(saved)), [])];
    SomeOf(b, all) && (|a| < most ==> b == all) && (|a| >= most && !odd ==> |b| == |a|)
  }

  /** What is stored of the cells met so far. */
  predicate Stored(cells: map<string, Cell>, done: map<string, Cell>, most: nat, odd: bool) {
    SomeOf(cells, done) && (|done| <= most ==> cells == done) && (!odd ==> |cells| == Min(|done|, most))
  }

  lemma StoredStep(a: map<string, Cell>, done: map<string, Cell>, b: map<string, Cell>, key: string, saved: Profile,
      most: nat, odd: bool)
    requires Stored(a, done, most, odd) && key !in done && StoredOne(a, b, key, saved, most, odd)
    ensures Stored(b, done[key := Cell(NewEntry(Reloaded(saved)), [])], most, odd)
  {
    var c := Cell(NewEntry(Reloaded(saved)), []);
    CellsGrow(done, key, c);
    CellsGrow(a, key, c);
  }

  lemma StoredPart(file: map<string, Profile>, rest: set<string>, k: string, now: nat,
                   a: map<string, Cell>, b: map<string, Cell>, most: nat, odd: bool)
    requires k in rest && k in file && Stored(a, Part(file, rest, now), most, odd)
    requires if now - file[k].capturedAt <= BASE_TTL then StoredOne(a, b, k, file[k], most, odd) else b == a
    ensures Stored(b, Part(file, rest - {k}, now), most, odd)
  {
    PartStep(file, rest, k, now);
    if now - file[k].capturedAt <= BASE_TTL { StoredStep(a, Part(file, rest, now), b, k, file[k], most, odd); }
  }

  lemma CellsGrow(m: map<string, Cell>, key: string, c: Cell)
    ensures |m[key := c]| == if key in m then |m| else |m| + 1
  {
    assert m[key := c].Keys == m.Keys + {key};
  }

  lemma KeysSize(cells: map<string, Cell>, m: Entries)
    requires cells.Keys == m.Keys
    ensures |cells| == |m|
  {
    assert |cells| == |cells.Keys| && |m| == |m.Keys|;
  }

  lemma PartEnds(file: map<string, Profile>, now: nat)
    ensures Part(file, file.Keys, now) == map[]
    ensures FromDisk(World(map[], file, now), file.Keys) == Part(file, {}, now)
  {
  }

  lemma PartStep(file: map<string, Profile>, rest: set<string>, k: string, now: nat)
    requires k in rest && k in file
    ensures Part(file, rest - {k}, now) ==
      if now - file[k].capturedAt <= BASE_TTL
      then Part(file, rest, now)[k := Cell(NewEntry(Reloaded(file[k])), [])]
      else Part(file, rest, now)
  {
  }

  /** What a load has stored when some keys are still to come. */
  ghost function Part(file: map<string, Profile>, rest: set<string>, now: nat): map<string, Cell> {
    map k | k in file && k !in rest && now - file[k].capturedAt <= BASE_TTL :: Cell(NewEntry(Reloaded(file[k])), [])
  }

  lemma NothingToRemove(w: World, m: Entries, key: string)
    requires key !in m && w.cells.Keys == m.Keys
    ensures m - {key} == m && DoRemove(w, key) == w
  {
    assert w.cells - {key} == w.cells;
  }

  lemma Removed(m: Entries, key: string)
    requires key in m
    ensures |m| == |m - {key}| + 1
  {
    assert m.Keys == (m - {key}).Keys + {key};
  }

  lemma Added(m: Entries, key: string, e: Entry)
    ensures |m[key := e]| == if key in m then |m| else |m| + 1
  {
    if key in m {
      assert m[key := e].Keys == m.Keys;
    } else {
      assert m[key := e].Keys == m.Keys + {key};
    }
  }
}
