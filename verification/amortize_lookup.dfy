/**
  What an answer of the profile cache rests on, and how failures take a key out of service, with the
  numbers of the code.
 */
module AmortizeLookup {
  import opened Wire
  import opened CacheKeys
  import opened Amortize
  import opened AmortizeRun

  // ---------------------------------------------------------------- the first key that answers

  function AnswerOf(w: World, key: string, q: Query): Option<Hit> {
    if key in w.cells then Answer(key, w.cells[key].entry, w.now, q) else None
  }

  /** The answer of the first key that has one, all keys as they were when the lookup started. */
  function FirstAnswer(w: World, keys: seq<string>, q: Query): Hit {
    if keys == [] then Hit(L0, "", false)
    else if AnswerOf(w, keys[0], q).Some? then AnswerOf(w, keys[0], q).value
    else FirstAnswer(w, keys[1..], q)
  }

  lemma VisitAnswers(w: World, key: string, other: string, q: Query)
    requires AnswerOf(w, key, q) == None
    ensures AnswerOf(Visit(w, key), other, q) == AnswerOf(w, other, q)
  {
  }

  lemma {:induction false} VisitFirst(w: World, key: string, keys: seq<string>, q: Query)
    requires AnswerOf(w, key, q) == None
    ensures FirstAnswer(Visit(w, key), keys, q) == FirstAnswer(w, keys, q)
  {
    if keys != [] {
      VisitAnswers(w, key, keys[0], q);
      VisitFirst(w, key, keys[1..], q);
    }
  }

  /** Marking what has expired on the way does not change the answer. */
  lemma {:induction false} SearchIsFirst(w: World, keys: seq<string>, q: Query)
    ensures Search(w, keys, q).1 == FirstAnswer(w, keys, q)
    decreases |keys|
  {
    if keys != [] && AnswerOf(w, keys[0], q) == None {
      SearchIsFirst(Visit(w, keys[0]), keys[1..], q);
      VisitFirst(w, keys[0], keys[1..], q);
    }
  }

  lemma {:induction false} FirstIsAnAnswer(w: World, keys: seq<string>, q: Query)
    ensures var h := FirstAnswer(w, keys, q);
      if h.path == L0 then h == Hit(L0, "", false) && forall k :: k in keys ==> AnswerOf(w, k, q) == None
      else h.key in keys && AnswerOf(w, h.key, q) == Some(h)
  {
    if keys != [] { FirstIsAnAnswer(w, keys[1..], q); }
  }

  lemma LookupAnswers(w: World, q: Query)
    ensures var h := DoLookup(w, q).1;
      if h.path == L0 then Resolve(q.mode) == ModeL0 || forall k :: k in Candidates(q) ==> AnswerOf(w, k, q) == None
      else Resolve(q.mode) != ModeL0 && h.key in Candidates(q) && AnswerOf(w, h.key, q) == Some(h)
  {
    SearchIsFirst(w, Candidates(q), q);
    FirstIsAnAnswer(w, Candidates(q), q);
  }

  // ---------------------------------------------------------------- how long profiles last

  /** Half an hour, and an hour for those that have been refreshed and not seen again. */
  predicate Lasts(e: Entry) { e.ttl == 1800 || (e.ttl == 3600 && e.state != Valid) }

  predicate AllLast(w: World) { forall k :: k in w.cells ==> Lasts(w.cells[k].entry) }

  lemma VisitLasts(w: World, key: string)
    requires AllLast(w)
    ensures AllLast(Visit(w, key))
  {
  }

  lemma {:induction false} SearchLasts(w: World, keys: seq<string>, q: Query)
    requires AllLast(w)
    ensures AllLast(Search(w, keys, q).0)
    decreases |keys|
  {
    if keys != [] {
      VisitLasts(w, keys[0]);
      SearchLasts(Visit(w, keys[0]), keys[1..], q);
    }
  }

  lemma StepLasts(w: World, e: Event)
    requires AllLast(w)
    ensures AllLast(Step(w, e))
  {
    match e
    case Lookup(q) => SearchLasts(w, Candidates(q), q);
    case _ =>
  }

  lemma {:induction false} RunLasts(events: seq<Event>)
    ensures AllLast(Run(EMPTY_WORLD, events))
  {
    if events != [] {
      RunLasts(events[..|events| - 1]);
      StepLasts(Run(EMPTY_WORLD, events[..|events| - 1]), events[|events| - 1]);
    }
  }

  // ---------------------------------------------------------------- the gates

  /** Record lengths a target can have sent. */
  predicate Sane(lens: Lens) {
    && (lens[1] == 0 || lens[1] == 6)
    && forall i :: 0 <= i < 7 && lens[i] != 0 ==> 5 <= lens[i] && lens[i] <= 16384
  }

  /** What a client wants of a profile, and the profile knows to be otherwise. */
  predicate Contradicts(p: Profile, q: Query) {
    || (q.cipher != 0 && p.cipher != 0 && p.cipher != q.cipher)
    || (q.group != 0 && p.group != 0 && p.group != q.group)
    || (q.fields.version != 0 && p.version != 0 && p.version != q.fields.version)
  }

  /** In use, with a profile a target can have had. */
  predicate Serviceable(e: Entry) {
    (e.state == Valid || e.state == Stale || e.state == Suspect) && e.profile.Some? && Sane(e.profile.value.lens)
  }

  /**
    Good for L2: a profile at most ten minutes old and complete, with no retry request, with group,
    cipher suite, shape, template and ServerHello length known, and with the suite and the group the
    client is to be given.
   */
  predicate GoodForL2(e: Entry, now: nat, q: Query) {
    && Serviceable(e) && e.state == Valid
    && var p := e.profile.value;
      && p.capturedAt != 0 && now - p.capturedAt <= 600
      && !p.hrr && p.group != 0 && p.cipher != 0 && p.shape != 0 && p.template != [] && p.lens[0] != 0
      && (q.cipher != 0 ==> p.cipher == q.cipher) && (q.group != 0 ==> p.group == q.group)
  }

  predicate WantsL2(mode: Mode) { mode == ModeDefault || mode == ModeL2 || mode == ModeAuto || mode == ModeUnknown }

  /** In every run, an L2 answer rests on a profile that is good for it. */
  lemma L2Gates(events: seq<Event>, q: Query)
    requires AllAllowed(events) && DoLookup(Run(EMPTY_WORLD, events), q).1.path == L2
    ensures var w := Run(EMPTY_WORLD, events);
      var h := DoLookup(w, q).1;
      && WantsL2(q.mode) && !h.stale && h.key in Candidates(q) && !IsLegacy(h.key) && !IsSoft(h.key)
      && h.key in w.cells && GoodForL2(w.cells[h.key].entry, w.now, q)
  {
    var w := Run(EMPTY_WORLD, events);
    LookupAnswers(w, q);
    RunKeeps(EMPTY_WORLD, events);
    assert CellOk(DoLookup(w, q).1.key, w.cells[DoLookup(w, q).1.key]);
  }

  /**
    Even of a world no run reaches: an L2 answer is never a probe's, and rests on two pieces of
    evidence, live ones if there are any.
   */
  lemma L2Evidenced(w: World, q: Query)
    requires DoLookup(w, q).1.path == L2
    ensures var h := DoLookup(w, q).1;
      && h.key in w.cells && w.cells[h.key].entry.profile.Some?
      && var e, p := w.cells[h.key].entry, w.cells[h.key].entry.profile.value;
        && p.source != Probe && (if p.live > 0 then p.live >= 2 else p.evidence >= 2)
        && e.state == Valid && w.now - p.capturedAt < e.ttl
  {
    LookupAnswers(w, q);
  }

  /** And one that is, with two live observations behind it, gives an L2 answer to a client of its exact class. */
  lemma L2Given(events: seq<Event>, q: Query)
    requires AllAllowed(events) && q.fields.chClass != "" && WantsL2(q.mode)
    requires var w, key := Run(EMPTY_WORLD, events), KeyV2(q.fields);
      && !IsSoft(key) && key in w.cells && GoodForL2(w.cells[key].entry, w.now, q)
      && Lives(w.cells[key].seen) >= 2 && w.cells[key].entry.profile.value.source != Probe
    ensures DoLookup(Run(EMPTY_WORLD, events), q).1 == Hit(L2, KeyV2(q.fields), false)
  {
    var w, key := Run(EMPTY_WORLD, events), KeyV2(q.fields);
    V2Bars(q.fields);
    RunKeeps(EMPTY_WORLD, events);
    RunLasts(events);
    assert CellOk(key, w.cells[key]) && Lasts(w.cells[key].entry);
    SearchIsFirst(w, Candidates(q), q);
    assert Candidates(q)[0] == key;
    assert AnswersL2(key, w.cells[key].entry, w.now, q);
  }

  /**
    In every run, an L1 answer comes from an entry in use whose profile contradicts nothing the client
    wants; and it is called stale exactly when the entry is, or its profile has outlived its time.
   */
  lemma L1Gates(events: seq<Event>, q: Query)
    requires DoLookup(Run(EMPTY_WORLD, events), q).1.path == L1
    ensures var w := Run(EMPTY_WORLD, events);
      var h := DoLookup(w, q).1;
      && q.mode != ModeL0 && h.key in Candidates(q) && h.key in w.cells && Serviceable(w.cells[h.key].entry)
      && var e := w.cells[h.key].entry;
        && !Contradicts(e.profile.value, q)
        && (h.stale <==> e.state == Stale || w.now - e.profile.value.capturedAt >= e.ttl)
        && (e.ttl == 1800 || e.ttl == 3600)
  {
    var w := Run(EMPTY_WORLD, events);
    LookupAnswers(w, q);
    RunLasts(events);
    assert Lasts(w.cells[DoLookup(w, q).1.key].entry);
  }

  /**
    A lookup that may use the cache and finds nothing has met no entry in use that contradicts
    nothing. Conversely, where all contradict, there is no L1 answer, and an L2 answer only from a
    profile of another protocol version, which the dial-free path does not look at.
   */
  lemma MissMeans(w: World, q: Query)
    requires q.mode != ModeL0
    ensures var h := DoLookup(w, q).1;
      var all := forall k :: k in Candidates(q) && k in w.cells && Serviceable(w.cells[k].entry) ==>
        Contradicts(w.cells[k].entry.profile.value, q);
      && (h.path == L0 ==> all)
      && (all ==> h.path != L1)
      && (all && h.path == L2 ==>
            && h.key in w.cells && w.cells[h.key].entry.profile.Some?
            && w.cells[h.key].entry.profile.value.version != q.fields.version)
  {
    LookupAnswers(w, q);
    forall k | k in Candidates(q) && k in w.cells && Serviceable(w.cells[k].entry) && AnswerOf(w, k, q) == None
      ensures Contradicts(w.cells[k].entry.profile.value, q)
    {
      assert Usable(w.cells[k].entry);
    }
  }

  // ---------------------------------------------------------------- failures

  /** A key in quarantine is not answered from. */
  lemma QuarantinedIsSilent(w: World, key: string, q: Query)
    requires key in w.cells && w.cells[key].entry.state == Quarantined
    ensures DoLookup(w, q).1.key != key || DoLookup(w, q).1.path == L0
  {
    LookupAnswers(w, q);
  }

  /** A key under suspicion does not give L2 answers. */
  lemma SuspectIsNotL2(w: World, key: string, q: Query)
    requires key in w.cells && w.cells[key].entry.state == Suspect && DoLookup(w, q).1.path == L2
    ensures DoLookup(w, q).1.key != key
  {
    LookupAnswers(w, q);
  }

  /**
    A key in good standing: the first failure of a handshake that used the cache makes it suspect,
    the second quarantines it for five minutes.
   */
  lemma TwoFailuresQuarantine(w: World, key: string, p1: Path, p2: Path, q: Query)
    requires key != "" && key in w.cells && w.cells[key].entry.state == Valid && w.cells[key].entry.failCount == 0
    requires p1 != L0 && p2 != L0
    ensures var w1 := Run(w, [Fail(key, p1)]);
      && key in w1.cells && w1.cells[key].entry.state == Suspect
        && w1.cells[key].entry.profile == w.cells[key].entry.profile
      && (DoLookup(w1, q).1.path == L2 ==> DoLookup(w1, q).1.key != key)
    ensures var w2 := Run(w, [Fail(key, p1), Fail(key, p2)]);
      && key in w2.cells && w2.cells[key].entry.state == Quarantined && w2.cells[key].entry.nextRetry == w.now + 300
      && (DoLookup(w2, q).1.key != key || DoLookup(w2, q).1.path == L0)
  {
    RunTwo(w, Fail(key, p1), Fail(key, p2));
    var w1 := Run(w, [Fail(key, p1)]);
    var w2 := Run(w, [Fail(key, p1), Fail(key, p2)]);
    assert w1.cells[key].entry.state == Suspect && w1.cells[key].entry.failCount == 1 && w1.now == w.now;
    if DoLookup(w1, q).1.path == L2 { SuspectIsNotL2(w1, key, q); }
    QuarantinedIsSilent(w2, key, q);
  }

  /** A failure counts only against a key of the cache, and not on the path without it. */
  lemma OtherFailuresIgnored(w: World, key: string, path: Path)
    requires key == "" || path == L0 || key !in w.cells
    ensures Run(w, [Fail(key, path)]) == w
  {
    RunOne(w, Fail(key, path));
  }

  /** An observation that matches, between two failures, starts the count again. */
  lemma ObservationForgives(w: World, key: string, p1: Path, p2: Path, obs: Profile)
    requires key != "" && key in w.cells && w.cells[key].entry.state == Valid && w.cells[key].entry.failCount == 0
    requires p1 != L0 && p2 != L0 && w.cells[key].entry.profile.Some? && ValidLens(obs.lens)
    requires Matches(w.cells[key].entry.profile.value, Normal(obs))
    ensures var w3 := Run(w, [Fail(key, p1), Observe(key, obs), Fail(key, p2)]);
      key in w3.cells && w3.cells[key].entry.state == Suspect && w3.cells[key].entry.failCount == 1
  {
    RunThree(w, Fail(key, p1), Observe(key, obs), Fail(key, p2));
  }

  /** A mismatch counts as one failure: the next failure quarantines. */
  lemma MismatchCountsAsFailure(w: World, key: string, path: Path, obs: Profile)
    requires key != "" && path != L0 && key in w.cells && w.cells[key].entry.state != Quarantined && ValidLens(obs.lens)
    requires !Continues(w.cells[key].entry, obs)
    ensures var w2 := Run(w, [Observe(key, obs), Fail(key, path)]);
      key in w2.cells && w2.cells[key].entry.state == Quarantined && w2.cells[key].entry.nextRetry == w.now + 300
  {
    RunTwo(w, Observe(key, obs), Fail(key, path));
  }

  // ---------------------------------------------------------------- failed probes

  function Failures(key: string, n: nat): seq<Event> {
    if n == 0 then [] else Failures(key, n - 1) + [ProbeFailed(key)]
  }

  function Doubled(n: nat): nat { if n == 0 then 1 else 2 * Doubled(n - 1) }

  lemma BackoffIs(n: nat)
    requires n > 0
    ensures Backoff(n) == 60 * Doubled(if n <= 5 then n - 1 else 4)
  {
    assert Doubled(0) == 1 && Doubled(1) == 2 && Doubled(2) == 4;
    assert Doubled(3) == 8 && Doubled(4) == 16;
  }

  lemma ProbeStep(w: World, key: string, n: nat)
    requires if n == 0 then key !in w.cells else key in w.cells && w.cells[key].entry.failCount == n
    ensures var w' := Step(w, ProbeFailed(key));
      && key in w'.cells && w'.now == w.now && w'.cells[key].entry.state == Negative
      && w'.cells[key].entry.failCount == n + 1 && w'.cells[key].entry.nextRetry == w.now + Backoff(n + 1)
  {
  }

  /** The n-th failed probe in a row puts the next one off by a minute, doubled each time up to sixteen minutes. */
  lemma {:induction false} ProbesBackOff(w: World, key: string, n: nat)
    requires key !in w.cells && n > 0
    ensures var w' := Run(w, Failures(key, n));
      && key in w'.cells && w'.now == w.now && w'.cells[key].entry.state == Negative
      && w'.cells[key].entry.failCount == n
      && w'.cells[key].entry.nextRetry == w.now + 60 * Doubled(if n <= 5 then n - 1 else 4)
  {
    var before := Run(w, Failures(key, n - 1));
    if n > 1 { ProbesBackOff(w, key, n - 1); }
    ProbeStep(before, key, n - 1);
    BackoffIs(n);
    RunSnoc(w, Failures(key, n - 1), ProbeFailed(key));
  }

  /** Until then the key is not answered from, nor read; after that reading it drops it. */
  lemma FailedProbeWaits(w: World, key: string, q: Query)
    requires key in w.cells && w.cells[key].entry.state == Negative
    ensures DoLookup(w, q).1.key != key || DoLookup(w, q).1.path == L0
    ensures key in DoGet(w, key).cells <==> w.now < w.cells[key].entry.nextRetry
  {
    LookupAnswers(w, q);
  }
}
