/** What single events do to a key of the profile cache, in the terms and numbers of the code. */
module AmortizeLife {
  import opened Wire
  import opened CacheKeys
  import opened Amortize
  import opened AmortizeRun
  import opened AmortizeLookup

  // ---------------------------------------------------------------- observations

  /** The same observation, told from when it was made and what it showed. */
  predicate Shows(p: Profile, obs: Profile) {
    && p.lens == obs.lens && p.cipher == obs.cipher && p.version == obs.version && p.capturedAt == obs.capturedAt
    && p.group == obs.group && p.hrr == obs.hrr && p.shape == obs.shape && p.details == obs.details
    && p.mode == (if obs.mode != 0 then obs.mode else if obs.lens[2] > 512 then 1 else 0)
  }

  /**
    An observation with sane lengths, unless its key is cooling down, is what the key then shows, with
    the template of its own or, when it continues the ladder without one, the template there was.
   */
  lemma ObservationIsStored(w: World, key: string, obs: Profile)
    requires Sane(obs.lens)
      && (key in w.cells ==> !(w.cells[key].entry.state == Quarantined && w.now < w.cells[key].entry.nextRetry))
    ensures var w' := Run(w, [Observe(key, obs)]);
      && key in w'.cells && w'.cells[key].entry.profile.Some? && Shows(w'.cells[key].entry.profile.value, obs)
      && w'.cells[key].entry.profile.value.template ==
           (if obs.template == [] && key in w.cells && Continues(w.cells[key].entry, obs)
            then w.cells[key].entry.profile.value.template else obs.template)
  {
    RunOne(w, Observe(key, obs));
    assert ValidLens(obs.lens);
  }

  /** One with other lengths, or on a key that is cooling down, changes nothing. */
  lemma ObservationIsIgnored(w: World, key: string, obs: Profile)
    requires !Sane(obs.lens)
      || (key in w.cells && w.cells[key].entry.state == Quarantined && w.now < w.cells[key].entry.nextRetry)
    ensures Run(w, [Observe(key, obs)]) == w
  {
    RunOne(w, Observe(key, obs));
    if Sane(obs.lens) {
      assert w.cells[key := w.cells[key]] == w.cells;
    } else {
      assert !ValidLens(obs.lens);
    }
  }

  /** What an observation counts for when it starts a ladder. */
  predicate Starts(p: Profile, obs: Profile) {
    if obs.source == Probe then p.evidence == 0 && p.live == 0 && p.source == Probe
    else p.evidence == 1 && p.live == 1 && p.source == Live
  }

  /** What it counts for when it is the first of its key, which may bring evidence along. */
  predicate Founds(p: Profile, obs: Profile) {
    if obs.source == Probe then p.evidence == 0 && p.live == 0 && p.source == Probe
    else && p.evidence >= 1 && p.evidence >= obs.evidence && (p.evidence == 1 || p.evidence == obs.evidence)
         && p.live == (if obs.live >= 1 then obs.live else p.evidence)
         && p.source == (if obs.source == Unset then Live else obs.source)
  }

  /** What it adds to a ladder it continues. */
  predicate Climbs(p: Profile, was: Profile, obs: Profile) {
    if obs.source == Probe then
      && p.evidence == was.evidence && p.live == was.live && p.stability == was.stability
      && p.source == (if was.source == Unset then Probe else was.source)
    else
      && p.evidence == was.evidence + 1 && p.live == was.live + 1 && p.source == Live
      && (was.stability < 10 ==> p.stability == was.stability + 1)
      && (was.stability >= 10 ==> p.stability == was.stability)
  }

  /** The four ways an observation is taken in, with everything they leave and set. */
  lemma FourWays(w: World, key: string, obs: Profile)
    requires Sane(obs.lens)
    requires key in w.cells ==> !(w.cells[key].entry.state == Quarantined && w.now < w.cells[key].entry.nextRetry)
    ensures var w' := Run(w, [Observe(key, obs)]);
      && key in w'.cells && w'.cells[key].entry.profile.Some?
      && var e, p := w'.cells[key].entry, w'.cells[key].entry.profile.value;
        if key !in w.cells then
          && Founds(p, obs) && p.stability == obs.stability && e.state == e.atomicState == Valid
          && e.failCount == 0 && e.nextRetry == 0 && e.ttl == 1800 && e.score == 0
        else
          var was := w.cells[key].entry;
          if was.state == Quarantined then
            && Starts(p, obs) && p.stability == (if obs.stability >= 1 then obs.stability else 1)
            && e == was.(profile := Some(p), failCount := 0, nextRetry := 0, ttl := 1800, state := Valid,
              atomicState := Valid)
          else if Continues(was, obs) then
            && Climbs(p, was.profile.value, obs)
            && e == was.(profile := Some(p), failCount := 0, ttl := 1800, state := Valid, atomicState := Valid)
          else
            && Starts(p, obs) && p.stability == obs.stability
            && e == was.(profile := Some(p), failCount := 1, state := Suspect, atomicState := Suspect)
  {
    RunOne(w, Observe(key, obs));
    assert ValidLens(obs.lens);
  }

  function Discredited(p: Option<Profile>): Option<Profile> {
    if p.None? then None else Some(p.value.(evidence := 0))
  }

  /** What a handshake failure leaves and sets. */
  lemma FailureTakesOut(w: World, key: string, path: Path)
    requires key != "" && path != L0 && key in w.cells
    ensures var e, w' := w.cells[key].entry, Run(w, [Fail(key, path)]);
      && key in w'.cells
      && w'.cells[key].entry ==
           if e.failCount >= 1
           then e.(failCount := e.failCount + 1, profile := Discredited(e.profile), nextRetry := w.now + 300,
                   state := Quarantined, atomicState := Quarantined)
           else if e.state == Valid then e.(failCount := e.failCount + 1, state := Suspect, atomicState := Suspect)
           else e.(failCount := e.failCount + 1)
  {
    RunOne(w, Fail(key, path));
  }

  /** What a direct quarantine leaves and sets. */
  lemma TakenOut(w: World, key: string)
    requires key in w.cells
    ensures var e, w' := w.cells[key].entry, Run(w, [QuarantineKey(key)]);
      && key in w'.cells
      && w'.cells[key].entry == e.(failCount := 2, profile := Discredited(e.profile), nextRetry := w.now + 300,
                                   state := Quarantined, atomicState := Quarantined)
  {
    RunOne(w, QuarantineKey(key));
  }

  /** What a failed probe leaves and sets. */
  lemma ProbedInVain(w: World, key: string)
    requires key in w.cells
    ensures var e, w' := w.cells[key].entry, Run(w, [ProbeFailed(key)]);
      && key in w'.cells
      && w'.cells[key].entry == e.(failCount := e.failCount + 1, score := 0, nextRetry := w'.cells[key].entry.nextRetry,
                                   state := Negative, atomicState := Negative)
  {
    RunOne(w, ProbeFailed(key));
  }

  /** The same of a key without entry. */
  lemma TakenOutNew(w: World, key: string)
    requires key !in w.cells
    ensures var q, n := Run(w, [QuarantineKey(key)]), Run(w, [ProbeFailed(key)]);
      && key in q.cells && q.cells[key].entry == Entry(None, Quarantined, Quarantined, 2, w.now + 300, 1800, 0)
      && key in n.cells && n.cells[key].entry == Entry(None, Negative, Negative, 1, w.now + 60, 1800, 0)
  {
    RunOne(w, QuarantineKey(key));
    RunOne(w, ProbeFailed(key));
  }

  // ---------------------------------------------------------------- time

  predicate Outlived(e: Entry, now: nat) { e.profile.Some? && now - e.profile.value.capturedAt >= e.ttl }

  lemma {:induction false} SearchLeaves(w: World, keys: seq<string>, q: Query, key: string)
    requires key !in keys
    ensures key in Search(w, keys, q).0.cells <==> key in w.cells
    ensures key in w.cells ==> Search(w, keys, q).0.cells[key] == w.cells[key]
    decreases |keys|
  {
    if keys != [] { SearchLeaves(Visit(w, keys[0]), keys[1..], q, key); }
  }

  /** A lookup changes nothing but the keys it tries. */
  lemma LookupLeaves(w: World, q: Query, key: string)
    requires key !in Candidates(q)
    ensures key in DoLookup(w, q).0.cells <==> key in w.cells
    ensures key in w.cells ==> DoLookup(w, q).0.cells[key] == w.cells[key]
  {
    SearchLeaves(w, Candidates(q), q, key);
  }

  lemma {:induction false} SearchMarks(w: World, keys: seq<string>, q: Query, key: string)
    requires key in w.cells
    ensures var w' := Search(w, keys, q).0;
      && key in w'.cells && w'.now == w.now
      && (w'.cells[key] == w.cells[key]
          || (w.cells[key].entry.state == Valid && Outlived(w.cells[key].entry, w.now)
              && w'.cells[key] == w.cells[key].(entry := w.cells[key].entry.To(Stale))))
    decreases |keys|
  {
    if keys != [] { SearchMarks(Visit(w, keys[0]), keys[1..], q, key); }
  }

  /** All a lookup does to an entry is to mark as stale a valid profile that has outlived its time. */
  lemma LookupMarks(w: World, q: Query, key: string)
    requires key in w.cells
    ensures var w' := Run(w, [Lookup(q)]);
      && key in w'.cells
      && (w'.cells[key] == w.cells[key]
          || (w.cells[key].entry.state == Valid && Outlived(w.cells[key].entry, w.now)
              && w'.cells[key] == w.cells[key].(entry := w.cells[key].entry.To(Stale))))
  {
    RunOne(w, Lookup(q));
    SearchMarks(w, Candidates(q), q, key);
  }

  /** All a read does is to mark such a profile, or to drop a failed probe whose time has come. */
  lemma GetMarks(w: World, key: string)
    requires key in w.cells
    ensures var w', e := Run(w, [Get(key)]), w.cells[key].entry;
      if e.state == Negative && e.nextRetry <= w.now then key !in w'.cells
      else && key in w'.cells
           && w'.cells[key].entry == if e.state == Valid && Outlived(e, w.now) then e.To(Stale) else e
  {
    RunOne(w, Get(key));
  }

  /** A valid profile that has outlived its time is marked when it is looked up under its exact key, or read. */
  lemma OutlivedIsMarked(w: World, q: Query)
    requires var key := KeyV2(q.fields);
      && q.fields.chClass != "" && q.mode != ModeL0 && key in w.cells && w.cells[key].entry.state == Valid
      && Outlived(w.cells[key].entry, w.now) && Sane(w.cells[key].entry.profile.value.lens)
    ensures var key := KeyV2(q.fields);
      && key in DoLookup(w, q).0.cells
        && DoLookup(w, q).0.cells[key] == w.cells[key].(entry := w.cells[key].entry.To(Stale))
      && key in DoGet(w, key).cells && DoGet(w, key).cells[key] == w.cells[key].(entry := w.cells[key].entry.To(Stale))
  {
    var key := KeyV2(q.fields);
    var w1 := Visit(w, key);
    assert Candidates(q)[0] == key;
    assert ValidLens(w.cells[key].entry.profile.value.lens);
    assert w1.cells[key].entry == w.cells[key].entry.To(Stale);
    StaleStays(w1, Candidates(q)[1..], q, key);
  }

  lemma {:induction false} StaleStays(w: World, keys: seq<string>, q: Query, key: string)
    requires key in w.cells && w.cells[key].entry.state == Stale
    ensures key in Search(w, keys, q).0.cells && Search(w, keys, q).0.cells[key] == w.cells[key]
    decreases |keys|
  {
    if keys != [] { StaleStays(Visit(w, keys[0]), keys[1..], q, key); }
  }

  /**
    A refresh makes a profile stale, and for the first four times lets it last an hour; other states
    it leaves alone.
   */
  lemma RefreshMarks(w: World, key: string)
    requires key in w.cells
    ensures var w', e := Run(w, [Refresh(key)]), w.cells[key].entry;
      && key in w'.cells
      && w'.cells[key].entry ==
           if e.state != Valid && e.state != Stale then e
           else if e.score < 4 then e.(ttl := 3600, score := e.score + 1).To(Stale)
           else e.To(Stale)
  {
    RunOne(w, Refresh(key));
  }

  // ---------------------------------------------------------------- the order of keys

  /** The exact class is asked first, then the soft one, then the key without class; the first answer counts. */
  lemma ExactThenSoftThenLegacy(w: World, q: Query)
    requires q.mode != ModeL0
    ensures var exact, soft := KeyV2(q.fields), KeyV2(q.fields.(chClass := q.softClass));
      var legacy := LegacyKey(q.fields.serverName, q.fields.alpn, q.fields.version);
      var hit := DoLookup(w, q).1;
      if q.fields.chClass != "" && AnswerOf(w, exact, q).Some? then Some(hit) == AnswerOf(w, exact, q)
      else if q.softClass != "" && q.softClass != q.fields.chClass && AnswerOf(w, soft, q).Some?
      then Some(hit) == AnswerOf(w, soft, q)
      else if AnswerOf(w, legacy, q).Some? then Some(hit) == AnswerOf(w, legacy, q)
      else hit == Hit(L0, "", false)
  {
    SearchIsFirst(w, Candidates(q), q);
    var exact, soft := KeyV2(q.fields), KeyV2(q.fields.(chClass := q.softClass));
    var legacy := LegacyKey(q.fields.serverName, q.fields.alpn, q.fields.version);
    FirstOf(w, q, if q.fields.chClass != "" then [exact] else [],
            if q.softClass != "" && q.softClass != q.fields.chClass then [soft] else [], legacy);
  }

  lemma FirstOf(w: World, q: Query, a: seq<string>, b: seq<string>, c: string)
    requires |a| <= 1 && |b| <= 1
    ensures FirstAnswer(w, a + b + [c], q) ==
      if a != [] && AnswerOf(w, a[0], q).Some? then AnswerOf(w, a[0], q).value
      else if b != [] && AnswerOf(w, b[0], q).Some? then AnswerOf(w, b[0], q).value
      else if AnswerOf(w, c, q).Some? then AnswerOf(w, c, q).value else Hit(L0, "", false)
  {
    assert [c][1..] == [];
    assert FirstAnswer(w, [c], q) == if AnswerOf(w, c, q).Some? then AnswerOf(w, c, q).value else Hit(L0, "", false);
    if b != [] {
      assert (b + [c])[0] == b[0] && (b + [c])[1..] == [c];
    } else {
      assert b + [c] == [c];
    }
    if a != [] {
      assert (a + b + [c])[0] == a[0] && (a + b + [c])[1..] == b + [c];
    } else {
      assert a + b + [c] == b + [c];
    }
  }

  // ---------------------------------------------------------------- saving and restarting

  /** What is left of a profile after a save and a restart: nothing a dial-free answer could rest on. */
  predicate Persisted(p: Profile, was: Profile) {
    && p.lens == was.lens && p.cipher == was.cipher && p.version == was.version && p.capturedAt == was.capturedAt
    && p.evidence == was.evidence && p.details == was.details
    && p.group == 0 && !p.hrr && p.shape == 0 && p.template == [] && p.stability == 0 && p.live <= 0
    && p.source == (if was.source == Unset then Persist else was.source)
  }

  /**
    A save and a restart keep exactly the entries with a profile that are no failed probes, are not
    older than they may get and not older than half an hour, and were kept; each comes back valid,
    with the age it had and no sign of quarantine, suspicion or failures.
   */
  lemma SaveThenRestart(w: World, kept: set<string>, key: string)
    ensures var w' := Run(w, [Save, Restart(kept)]);
      key in w'.cells <==>
        && key in kept && key in w.cells && w.cells[key].entry.state != Negative && w.cells[key].entry.profile.Some?
        && w.now - w.cells[key].entry.profile.value.capturedAt <= w.cells[key].entry.ttl
        && w.now - w.cells[key].entry.profile.value.capturedAt <= 1800
    ensures var w' := Run(w, [Save, Restart(kept)]);
      key in w'.cells ==>
        var e := w'.cells[key].entry;
        && e.state == Valid && e.atomicState == Valid && e.failCount == 0 && e.nextRetry == 0 && e.ttl == 1800
          && e.score == 0
        && e.profile.Some? && Persisted(e.profile.value, w.cells[key].entry.profile.value) && w'.cells[key].seen == []
  {
    RunTwo(w, Save, Restart(kept));
  }
}
