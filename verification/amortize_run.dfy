/** Every run of the profile cache: what an answer of the dial-free path L2 rests on. */
module AmortizeRun {
  import opened Wire
  import opened CacheKeys
  import opened Amortize

  /** An entry with the observations since its ladder last started. */
  datatype Cell = Cell(entry: Entry, seen: seq<Profile>)

  datatype World = World(cells: map<string, Cell>, disk: map<string, Profile>, now: nat)
  {
    function Put(key: string, c: Cell): World { this.(cells := cells[key := c]) }
  }

  /** Removal stands for invalidation and eviction; a restart keeps any part of what the file offers. */
  datatype Event =
    | Observe(key: string, obs: Profile)
    | Fail(key: string, path: Path)
    | QuarantineKey(key: string)
    | Lookup(q: Query)
    | Get(key: string)
    | Refresh(key: string)
    | HotSwap(key: string, profile: Profile)
    | ProbeFailed(key: string)
    | Remove(key: string)
    | Save
    | Restart(kept: set<string>)
    | Tick(seconds: nat)

  // ---------------------------------------------------------------- one step

  function DoObserve(w: World, key: string, obs: Profile): World {
    if !ValidLens(obs.lens) then w
    else if key !in w.cells then w.Put(key, Cell(NewEntry(Created(Normal(obs))), [Normal(obs)]))
    else
      var c := w.cells[key];
      w.Put(key, Cell(ObserveOn(c.entry, w.now, obs),
                      if Cooling(c.entry, w.now) then c.seen
                      else if Continues(c.entry, obs) then c.seen + [Normal(obs)] else [Normal(obs)]))
  }

  function DoFail(w: World, key: string, path: Path): World {
    if key == "" || path == L0 || key !in w.cells then w else
    var e := Failed(w.cells[key].entry, w.now);
    w.Put(key, Cell(e, if e.state == Quarantined then [] else w.cells[key].seen))
  }

  function DoQuarantine(w: World, key: string): World {
    w.Put(key, Cell(QuarantineNow(if key in w.cells then Some(w.cells[key].entry) else None, w.now), []))
  }

  function Visit(w: World, key: string): World {
    if key in w.cells then w.Put(key, w.cells[key].(entry := Touched(w.cells[key].entry, w.now))) else w
  }

  /** The keys in order, until one answers. */
  function Search(w: World, keys: seq<string>, q: Query): (World, Hit)
    decreases |keys|
  {
    if keys == [] then (w, Hit(L0, "", false)) else
    var w1 := Visit(w, keys[0]);
    var a := if keys[0] in w.cells then Answer(keys[0], w.cells[keys[0]].entry, w.now, q) else None;
    if a.Some? then (w1, a.value) else Search(w1, keys[1..], q)
  }

  function DoLookup(w: World, q: Query): (World, Hit) {
    if Resolve(q.mode) == ModeL0 then (w, Hit(L0, "", false)) else Search(w, Candidates(q), q)
  }

  /** Reading a profile marks it when it has expired, and drops a failed probe whose time has come. */
  function DoGet(w: World, key: string): World {
    if key !in w.cells then w else
    var c := w.cells[key];
    if c.entry.state == Negative && w.now >= c.entry.nextRetry then w.(cells := w.cells - {key})
    else if c.entry.state == Valid && c.entry.profile.Some? && Expired(c.entry, w.now)
    then w.Put(key, c.(entry := c.entry.To(Stale)))
    else w
  }

  function DoRefresh(w: World, key: string): World {
    if key in w.cells then w.Put(key, w.cells[key].(entry := MarkStale(w.cells[key].entry))) else w
  }

  function DoHotSwap(w: World, key: string, p: Profile): World { w.Put(key, Cell(NewEntry(p), [])) }

  function DoProbeFailed(w: World, key: string): World {
    w.Put(key, Cell(MarkNegative(if key in w.cells then Some(w.cells[key].entry) else None, w.now), []))
  }

  function DoRemove(w: World, key: string): World { w.(cells := w.cells - {key}) }

  function OnDisk(w: World): map<string, Profile> {
    map k | k in w.cells && Saved(w.cells[k].entry, w.now) :: w.cells[k].entry.profile.value
  }

  function FromDisk(w: World, kept: set<string>): map<string, Cell> {
    map k | k in w.disk && k in kept && w.now - w.disk[k].capturedAt <= BASE_TTL
        :: Cell(NewEntry(Reloaded(w.disk[k])), [])
  }

  function Step(w: World, e: Event): World {
    match e
    case Observe(key, obs) => DoObserve(w, key, obs)
    case Fail(key, path) => DoFail(w, key, path)
    case QuarantineKey(key) => DoQuarantine(w, key)
    case Lookup(q) => DoLookup(w, q).0
    case Get(key) => DoGet(w, key)
    case Refresh(key) => DoRefresh(w, key)
    case HotSwap(key, p) => DoHotSwap(w, key, p)
    case ProbeFailed(key) => DoProbeFailed(w, key)
    case Remove(key) => DoRemove(w, key)
    case Save => w.(disk := OnDisk(w))
    case Restart(kept) => w.(cells := FromDisk(w, kept))
    case Tick(d) => w.(now := w.now + d)
  }

  function Run(w: World, events: seq<Event>): World {
    if events == [] then w else Step(Run(w, events[..|events| - 1]), events[|events| - 1])
  }

  // ---------------------------------------------------------------- what the program feeds in

  /** Live observations carry one piece of evidence, probes none and no group. */
  predicate Genuine(obs: Profile) {
    (obs.source == Live && obs.evidence == 1 && obs.live == 1) || (obs.source == Probe && obs.group == 0)
  }

  /** Background refresh overwrites entries, under legacy keys only. */
  predicate Allowed(e: Event) {
    match e
    case Observe(_, obs) => Genuine(obs)
    case HotSwap(key, _) => IsLegacy(key)
    case ProbeFailed(key) => IsLegacy(key)
    case _ => true
  }

  predicate AllAllowed(events: seq<Event>) { forall i :: 0 <= i < |events| ==> Allowed(events[i]) }

  // ---------------------------------------------------------------- the ladder

  function Lives(seen: seq<Profile>): nat {
    if seen == [] then 0 else Lives(seen[..|seen| - 1]) + (if seen[|seen| - 1].source == Live then 1 else 0)
  }

  predicate Chain(seen: seq<Profile>) { forall i :: 0 < i < |seen| ==> Matches(seen[i - 1], seen[i]) }

  predicate SameLook(a: Profile, b: Profile) {
    a.cipher == b.cipher && a.group == b.group && a.hrr == b.hrr && a.mode == b.mode && a.lens == b.lens
      && a.shape == b.shape
  }

  /** The profile of an entry in use is its last observation, and its live evidence is what was seen live. */
  predicate Ladder(c: Cell) {
    && c.entry.profile.Some?
    && c.entry.profile.value.live == Lives(c.seen)
    && (c.entry.profile.value.live == 0 ==> c.entry.profile.value.group == 0)
    && Chain(c.seen)
    && (c.seen != [] ==> SameLook(c.entry.profile.value, c.seen[|c.seen| - 1]))
  }

  /** A key of the exact kind is in quarantine or on the ladder. */
  predicate CellOk(key: string, c: Cell) {
    && c.entry.state == c.entry.atomicState
    && (IsLegacy(key)
        || if c.entry.state == Quarantined
           then c.seen == [] && (c.entry.profile.Some? ==> c.entry.profile.value.live >= 0)
           else c.entry.state != Negative && Ladder(c))
  }

  predicate Inv(w: World) {
    && (forall k :: k in w.cells ==> CellOk(k, w.cells[k]))
    && (forall k :: k in w.disk ==> w.disk[k].live >= 0 || IsLegacy(k))
  }

  lemma LivesAppend(seen: seq<Profile>, p: Profile)
    ensures Lives(seen + [p]) == Lives(seen) + (if p.source == Live then 1 else 0)
  {
    assert (seen + [p])[..|seen|] == seen;
  }

  lemma ChainAppend(seen: seq<Profile>, p: Profile)
    requires Chain(seen) && (seen != [] ==> Matches(seen[|seen| - 1], p))
    ensures Chain(seen + [p])
  {
  }

  lemma OneIsLadder(e: Entry, obs: Profile)
    requires Genuine(obs) && e.profile.Some? && e.profile.value.live == (if obs.source == Live then 1 else 0)
    requires SameLook(e.profile.value, Normal(obs))
    ensures Ladder(Cell(e, [Normal(obs)]))
  {
    LivesAppend([], Normal(obs));
    assert [] + [Normal(obs)] == [Normal(obs)];
  }

  lemma SameLookMatches(a: Profile, b: Profile, p: Profile)
    requires SameLook(a, b)
    ensures Matches(a, p) == Matches(b, p)
  {
  }

  lemma ContinuesLadder(c: Cell, now: nat, obs: Profile)
    requires Genuine(obs) && Ladder(c) && Continues(c.entry, obs)
    ensures Ladder(Cell(ObserveOn(c.entry, now, obs), c.seen + [Normal(obs)]))
  {
    LivesAppend(c.seen, Normal(obs));
    if c.seen != [] { SameLookMatches(c.entry.profile.value, c.seen[|c.seen| - 1], Normal(obs)); }
    ChainAppend(c.seen, Normal(obs));
  }

  lemma PutKeeps(w: World, key: string, c: Cell)
    requires Inv(w) && CellOk(key, c)
    ensures Inv(w.Put(key, c))
  {
  }

  lemma ObservedOk(key: string, c: Cell, now: nat, obs: Profile)
    requires CellOk(key, c) && Genuine(obs) && !Cooling(c.entry, now)
    ensures CellOk(key,
      Cell(ObserveOn(c.entry, now, obs), if Continues(c.entry, obs) then c.seen + [Normal(obs)] else [Normal(obs)]))
  {
    if !IsLegacy(key) {
      if Continues(c.entry, obs) {
        ContinuesLadder(c, now, obs);
      } else {
        OneIsLadder(ObserveOn(c.entry, now, obs), obs);
      }
    }
  }

  lemma ObserveKeeps(w: World, key: string, obs: Profile)
    requires Inv(w) && Genuine(obs)
    ensures Inv(DoObserve(w, key, obs))
  {
    if ValidLens(obs.lens) {
      if key !in w.cells {
        OneIsLadder(NewEntry(Created(Normal(obs))), obs);
        PutKeeps(w, key, Cell(NewEntry(Created(Normal(obs))), [Normal(obs)]));
      } else {
        var c := w.cells[key];
        assert CellOk(key, c);
        if Cooling(c.entry, w.now) {
          PutKeeps(w, key, c);
        } else {
          ObservedOk(key, c, w.now, obs);
          PutKeeps(w, key, DoObserve(w, key, obs).cells[key]);
        }
      }
    }
  }

  lemma FailKeeps(w: World, key: string, path: Path)
    requires Inv(w)
    ensures Inv(DoFail(w, key, path))
  {
    if key in w.cells {
      assert CellOk(key, w.cells[key]);
      var e := Failed(w.cells[key].entry, w.now);
      PutKeeps(w, key, Cell(e, if e.state == Quarantined then [] else w.cells[key].seen));
    }
  }

  lemma QuarantineKeeps(w: World, key: string)
    requires Inv(w)
    ensures Inv(DoQuarantine(w, key))
  {
    if key in w.cells { assert CellOk(key, w.cells[key]); }
    PutKeeps(w, key, DoQuarantine(w, key).cells[key]);
  }

  /** All a lookup can do to a key is mark its profile as expired. */
  predicate SameCell(c: Cell, d: Cell) { c == d || (d.entry.state == Valid && c == d.(entry := d.entry.To(Stale))) }

  lemma VisitKeeps(w: World, key: string)
    requires Inv(w)
    ensures Inv(Visit(w, key)) && Visit(w, key).cells.Keys == w.cells.Keys && Visit(w, key).now == w.now
    ensures forall k :: k in w.cells ==> SameCell(Visit(w, key).cells[k], w.cells[k])
  {
    if key in w.cells {
      assert CellOk(key, w.cells[key]);
      PutKeeps(w, key, Visit(w, key).cells[key]);
    }
  }

  lemma {:induction false} SearchKeeps(w: World, keys: seq<string>, q: Query)
    requires Inv(w)
    ensures var r := Search(w, keys, q);
      Inv(r.0) && r.0.cells.Keys == w.cells.Keys && r.0.now == w.now && forall k :: k in w.cells ==>
        SameCell(r.0.cells[k], w.cells[k])
    decreases |keys|
  {
    if keys != [] {
      VisitKeeps(w, keys[0]);
      SearchKeeps(Visit(w, keys[0]), keys[1..], q);
    }
  }

  lemma GetKeeps(w: World, key: string)
    requires Inv(w)
    ensures Inv(DoGet(w, key))
  {
    if key in w.cells {
      var c := w.cells[key];
      assert CellOk(key, c);
      if c.entry.state == Valid { PutKeeps(w, key, c.(entry := c.entry.To(Stale))); }
    }
  }

  lemma StepKeeps(w: World, e: Event)
    requires Inv(w) && Allowed(e)
    ensures Inv(Step(w, e))
  {
    match e
    case Observe(key, obs) => ObserveKeeps(w, key, obs);
    case Fail(key, path) => FailKeeps(w, key, path);
    case QuarantineKey(key) => QuarantineKeeps(w, key);
    case Lookup(q) => SearchKeeps(w, Candidates(q), q);
    case Get(key) => GetKeeps(w, key);
    case Refresh(key) =>
      if key in w.cells {
        assert CellOk(key, w.cells[key]);
        PutKeeps(w, key, w.cells[key].(entry := MarkStale(w.cells[key].entry)));
      }
    case HotSwap(key, p) => PutKeeps(w, key, Cell(NewEntry(p), []));
    case ProbeFailed(key) => PutKeeps(w, key, Step(w, e).cells[key]);
    case Remove(key) =>
    case Save => SaveKeeps(w);
    case Restart(kept) => RestartKeeps(w, kept);
    case Tick(d) =>
  }

  lemma SaveKeeps(w: World)
    requires Inv(w)
    ensures Inv(w.(disk := OnDisk(w)))
  {
    forall k | k in OnDisk(w) ensures OnDisk(w)[k].live >= 0 || IsLegacy(k) {
      assert CellOk(k, w.cells[k]);
    }
  }

  lemma RestartKeeps(w: World, kept: set<string>)
    requires Inv(w)
    ensures Inv(w.(cells := FromDisk(w, kept)))
  {
    forall k | k in FromDisk(w, kept) ensures CellOk(k, FromDisk(w, kept)[k]) {
      assert Lives([]) == 0;
    }
  }

  lemma {:induction false} RunKeeps(w: World, events: seq<Event>)
    requires Inv(w) && AllAllowed(events)
    ensures Inv(Run(w, events))
    decreases |events|
  {
    if events != [] {
      RunKeeps(w, events[..|events| - 1]);
      StepKeeps(Run(w, events[..|events| - 1]), events[|events| - 1]);
    }
  }

  // ---------------------------------------------------------------- which observations count

  /** One event more: what is remembered of the observations under a key. */
  function Extended(all: seq<Profile>, e: Event, key: string): seq<Profile> {
    match e
    case Observe(k, obs) => if k == key && ValidLens(obs.lens) then all + [Normal(obs)] else all
    case Remove(k) => if k == key then [] else all
    case Restart(_) => []
    case _ => all
  }

  /** The observations with sane lengths under a key since it was last removed or the program restarted. */
  function Observed(events: seq<Event>, key: string): seq<Profile> {
    if events == [] then [] else Extended(Observed(events[..|events| - 1], key), events[|events| - 1], key)
  }

  predicate Suffix(s: seq<Profile>, all: seq<Profile>) { |s| <= |all| && s == all[|all| - |s|..] }

  predicate Recent(w: World, all: seq<Profile>, key: string) {
    key in w.cells && w.cells[key].entry.state != Quarantined ==> Suffix(w.cells[key].seen, all)
  }

  lemma SuffixAppend(s: seq<Profile>, all: seq<Profile>, p: Profile)
    requires Suffix(s, all)
    ensures Suffix(s + [p], all + [p]) && Suffix([p], all + [p])
  {
  }

  /** What a run has seen under a key is the tail of what it was given. */
  lemma {:induction false} SeenIsRecent(w: World, events: seq<Event>, key: string)
    requires !IsLegacy(key) && Inv(w) && AllAllowed(events) && (key in w.cells ==> w.cells[key].seen == [])
    ensures Recent(Run(w, events), Observed(events, key), key)
    decreases |events|
  {
    if events != [] {
      var before, e := events[..|events| - 1], events[|events| - 1];
      SeenIsRecent(w, before, key);
      RunKeeps(w, before);
      RecentStep(Run(w, before), Observed(before, key), e, key);
    }
  }

  lemma RecentObserve(w: World, all: seq<Profile>, key: string, obs: Profile)
    requires Recent(w, all, key) && ValidLens(obs.lens)
    ensures Recent(DoObserve(w, key, obs), all + [Normal(obs)], key)
  {
    SuffixAppend([], all, Normal(obs));
    if key in w.cells && w.cells[key].entry.state != Quarantined { SuffixAppend(w.cells[key].seen, all, Normal(obs)); }
  }

  lemma RecentLookup(w: World, all: seq<Profile>, q: Query, key: string)
    requires Inv(w) && Recent(w, all, key)
    ensures Recent(DoLookup(w, q).0, all, key)
  {
    SearchKeeps(w, Candidates(q), q);
  }

  /** Events on an entry other than observations keep what was seen, or leave it in quarantine. */
  lemma RecentEntry(w: World, all: seq<Profile>, e: Event, key: string)
    requires Recent(w, all, key) && (e.Fail? || e.QuarantineKey? || e.Get? || e.Refresh?)
    ensures Recent(Step(w, e), all, key)
  {
  }

  lemma RecentRest(w: World, all: seq<Profile>, e: Event, key: string)
    requires !IsLegacy(key) && Allowed(e) && Recent(w, all, key)
    requires e.HotSwap? || e.ProbeFailed? || e.Remove? || e.Save? || e.Restart? || e.Tick?
    ensures Recent(Step(w, e), Extended(all, e, key), key)
  {
  }

  lemma RecentStep(w: World, all: seq<Profile>, e: Event, key: string)
    requires !IsLegacy(key) && Inv(w) && Allowed(e) && Recent(w, all, key)
    ensures Recent(Step(w, e), Extended(all, e, key), key)
  {
    if e.Observe? {
      if e.key == key && ValidLens(e.obs.lens) { RecentObserve(w, all, key, e.obs); }
    } else if e.Lookup? {
      RecentLookup(w, all, e.q, key);
    } else if e.Fail? || e.QuarantineKey? || e.Get? || e.Refresh? {
      RecentEntry(w, all, e, key);
    } else {
      RecentRest(w, all, e, key);
    }
  }

  // ---------------------------------------------------------------- L2

  lemma {:induction false} SearchAnswers(w: World, keys: seq<string>, q: Query)
    requires Inv(w) && Search(w, keys, q).1.path == L2
    ensures var key := Search(w, keys, q).1.key; key in w.cells && AnswersL2(key, w.cells[key].entry, w.now, q)
    decreases |keys|
  {
    if keys != [] && !(keys[0] in w.cells && Answer(keys[0], w.cells[keys[0]].entry, w.now, q).Some?) {
      VisitKeeps(w, keys[0]);
      SearchAnswers(Visit(w, keys[0]), keys[1..], q);
    }
  }

  /** An L2 answer comes from an exact key, on at least two live observations that each match the one before. */
  lemma L2Evidence(w: World, q: Query)
    requires Inv(w) && DoLookup(w, q).1.path == L2
    ensures var key := DoLookup(w, q).1.key;
      && !IsLegacy(key) && !IsSoft(key) && key in w.cells && w.cells[key].entry.state == Valid
      && Lives(w.cells[key].seen) >= MIN_L2_EVIDENCE && Chain(w.cells[key].seen)
  {
    SearchAnswers(w, Candidates(q), q);
    var key := DoLookup(w, q).1.key;
    assert CellOk(key, w.cells[key]);
  }

  const EMPTY_WORLD := World(map[], map[], 0)

  /**
    In every run, an L2 answer rests on the latest observations of its key since it was last removed
    and the program last restarted: at least two of them live, each matching the one before.
   */
  lemma L2NeedsTwoLive(events: seq<Event>, q: Query)
    requires AllAllowed(events) && DoLookup(Run(EMPTY_WORLD, events), q).1.path == L2
    ensures var w := Run(EMPTY_WORLD, events);
      var key := DoLookup(w, q).1.key;
      && !IsLegacy(key) && !IsSoft(key) && key in w.cells
      && Suffix(w.cells[key].seen, Observed(events, key))
      && Lives(w.cells[key].seen) >= 2 && Chain(w.cells[key].seen)
  {
    RunKeeps(EMPTY_WORLD, events);
    L2Evidence(Run(EMPTY_WORLD, events), q);
    SeenIsRecent(EMPTY_WORLD, events, DoLookup(Run(EMPTY_WORLD, events), q).1.key);
  }

  predicate Complete(p: Profile) {
    p.source == Live && !p.hrr && p.group != 0 && p.cipher != 0 && p.template != [] && p.lens[0] != 0 && p.shape != 0
  }

  /** Two live observations are also enough, for a client they suit. */
  lemma TwoLiveSuffice(w: World, q: Query, a: Profile, b: Profile)
    requires var key := KeyV2(q.fields); key !in w.cells && !IsSoft(key) && q.fields.chClass != ""
    requires Genuine(a) && Genuine(b) && ValidLens(a.lens) && ValidLens(b.lens) && Matches(Normal(a), Normal(b))
      && Complete(b)
    requires a.source == Live && b.capturedAt == w.now != 0 && Compatible(b, q)
    requires Resolve(q.mode) == ModeL2 || Resolve(q.mode) == ModeAuto
    ensures DoLookup(DoObserve(DoObserve(w, KeyV2(q.fields), a), KeyV2(q.fields), b), q).1
      == Hit(L2, KeyV2(q.fields), false)
  {
    var key := KeyV2(q.fields);
    V2Bars(q.fields);
    var e := ObserveOn(NewEntry(Created(Normal(a))), w.now, b);
    assert DoObserve(DoObserve(w, key, a), key, b).cells[key].entry == e;
    assert e.profile.value.live == 2;
    assert AnswersL2(key, e, w.now, q);
    assert Candidates(q)[0] == key;
  }

  // ---------------------------------------------------------------- matching is not transitive

  /** A probe knows no group: it matches two observations that do not match each other. */
  lemma MatchesIsNotTransitive(a: Profile)
    requires a.group != 0 && a.group < 0xFFFF
    ensures var probe, b := a.(group := 0), a.(group := a.group + 1);
      Matches(a, probe) && Matches(probe, b) && !Matches(a, b)
  {
  }

  /** Live, probe, live: the probe stands between two observations that need not match. */
  lemma ProbeBridges(w: World, q: Query, a: Profile, p: Profile, b: Profile)
    requires var key := KeyV2(q.fields); key !in w.cells && !IsSoft(key) && q.fields.chClass != ""
    requires Genuine(a) && Genuine(p) && Genuine(b) && ValidLens(a.lens) && ValidLens(p.lens) && ValidLens(b.lens)
    requires a.source == Live && p.source == Probe && Complete(b)
    requires Matches(Normal(a), Normal(p)) && Matches(Normal(p), Normal(b))
    requires b.capturedAt == w.now != 0 && Compatible(b, q)
      && (Resolve(q.mode) == ModeL2 || Resolve(q.mode) == ModeAuto)
    ensures var key := KeyV2(q.fields);
      DoLookup(DoObserve(DoObserve(DoObserve(w, key, a), key, p), key, b), q).1 == Hit(L2, key, false)
  {
    var key := KeyV2(q.fields);
    V2Bars(q.fields);
    var e1 := ObserveOn(NewEntry(Created(Normal(a))), w.now, p);
    var e2 := ObserveOn(e1, w.now, b);
    assert SameLook(e1.profile.value, Normal(p)) && e1.state == Valid && e1.profile.value.live == 1;
    SameLookMatches(e1.profile.value, Normal(p), Normal(b));
    assert e2.profile.value.live == 2;
    assert DoObserve(DoObserve(DoObserve(w, key, a), key, p), key, b).cells[key].entry == e2;
    assert AnswersL2(key, e2, w.now, q);
    assert Candidates(q)[0] == key;
  }

  /** What a probe of the same target sees: no group, no shape, no template. */
  function ProbeOf(a: Profile): Profile {
    a.(source := Probe, group := 0, shape := 0, template := [], evidence := 0, live := 0)
  }

  function BridgedEvents(key: string, now: nat, a: Profile, b: Profile): seq<Event> {
    [Tick(now), Observe(key, a), Observe(key, ProbeOf(a)), Observe(key, b)]
  }

  lemma {:induction false} RunSnoc(w: World, events: seq<Event>, e: Event)
    ensures Run(w, events + [e]) == Step(Run(w, events), e)
  {
    assert (events + [e])[..|events|] == events;
  }

  lemma RunOne(w: World, e: Event)
    ensures Run(w, [e]) == Step(w, e)
  {
    RunSnoc(w, [], e);
    assert [] + [e] == [e];
  }

  lemma RunTwo(w: World, a: Event, b: Event)
    ensures Run(w, [a, b]) == Step(Step(w, a), b) && Run(w, [a]) == Step(w, a)
  {
    RunSnoc(w, [a], b);
    RunSnoc(w, [], a);
    assert [a] + [b] == [a, b] && [] + [a] == [a];
  }

  lemma RunThree(w: World, a: Event, b: Event, c: Event)
    ensures Run(w, [a, b, c]) == Step(Step(Step(w, a), b), c)
  {
    RunSnoc(w, [a, b], c);
    RunTwo(w, a, b);
    assert [a, b] + [c] == [a, b, c];
  }

  lemma RunFour(w: World, a: Event, b: Event, c: Event, d: Event)
    ensures Run(w, [a, b, c, d]) == Step(Step(Step(Step(w, a), b), c), d)
  {
    RunSnoc(w, [a, b, c], d);
    RunThree(w, a, b, c);
    assert [a, b, c] + [d] == [a, b, c, d];
  }

  lemma RunBridged(key: string, now: nat, a: Profile, b: Profile)
    ensures Run(EMPTY_WORLD, BridgedEvents(key, now, a, b)) ==
      DoObserve(DoObserve(DoObserve(EMPTY_WORLD.(now := now), key, a), key, ProbeOf(a)), key, b)
  {
    RunFour(EMPTY_WORLD, Tick(now), Observe(key, a), Observe(key, ProbeOf(a)), Observe(key, b));
  }

  lemma ProbeFits(a: Profile, b: Profile)
    requires SameFrame(a, b) && a.group != 0 && b.group != 0 && a.group != b.group
    ensures Matches(Normal(a), Normal(ProbeOf(a))) && Matches(Normal(ProbeOf(a)), Normal(b))
      && !Matches(Normal(a), Normal(b))
  {
  }

  /**
    So a whole run of what the program feeds in, with one probe in it, reaches L2 on two live
    observations that differ in group and in shape and do not match each other.
   */
  lemma BridgedRun(q: Query, a: Profile, b: Profile)
    requires var key := KeyV2(q.fields); !IsSoft(key) && q.fields.chClass != ""
    requires Genuine(a) && Genuine(b) && Complete(a) && Complete(b) && ValidLens(a.lens) && ValidLens(b.lens)
    requires SameFrame(a, b) && a.group != b.group && a.shape != b.shape && b.capturedAt != 0
    requires Compatible(b, q) && (Resolve(q.mode) == ModeL2 || Resolve(q.mode) == ModeAuto)
    ensures var events := BridgedEvents(KeyV2(q.fields), b.capturedAt, a, b);
      && AllAllowed(events) && !Matches(Normal(a), Normal(b))
      && DoLookup(Run(EMPTY_WORLD, events), q).1 == Hit(L2, KeyV2(q.fields), false)
  {
    ProbeFits(a, b);
    RunBridged(KeyV2(q.fields), b.capturedAt, a, b);
    ProbeBridges(EMPTY_WORLD.(now := b.capturedAt), q, a, ProbeOf(a), b);
  }

  /** What neighbours in a chain always share, whatever they leave open. */
  predicate SameFrame(a: Profile, b: Profile) {
    a.cipher == b.cipher && a.hrr == b.hrr && EffectiveMode(a) == EffectiveMode(b) && a.lens[..6] == b.lens[..6]
  }

  lemma {:induction false} ChainFrame(seen: seq<Profile>, i: nat, j: nat)
    requires Chain(seen) && i <= j < |seen|
    ensures SameFrame(seen[i], seen[j])
    decreases j - i
  {
    if i < j {
      ChainFrame(seen, i, j - 1);
      assert Matches(seen[j - 1], seen[j]);
    }
  }

  /** The known groups of the observations agree, and the known shapes. */
  predicate Agree(a: Profile, b: Profile) {
    (a.group != 0 && b.group != 0 ==> a.group == b.group) && (a.shape != 0 && b.shape != 0 ==> a.shape == b.shape)
  }

  /** All observations of a chain match one another if and only if their known groups and known shapes agree. */
  lemma ChainAgrees(seen: seq<Profile>)
    requires Chain(seen)
    ensures (forall i, j :: 0 <= i < |seen| && 0 <= j < |seen| ==> Matches(seen[i], seen[j]))
       <==> (forall i, j :: 0 <= i < |seen| && 0 <= j < |seen| ==> Agree(seen[i], seen[j]))
  {
    forall i, j | 0 <= i < |seen| && 0 <= j < |seen| ensures Matches(seen[i], seen[j]) <==> Agree(seen[i], seen[j]) {
      if i <= j { ChainFrame(seen, i, j); } else { ChainFrame(seen, j, i); }
    }
  }

  /** A mismatch replaces the profile at once, and the next observation that matches it makes it valid. */
  lemma MismatchReplacesAtOnce(e: Entry, now: nat, now': nat, a: Profile, b: Profile)
    requires e.state != Quarantined && e.profile.Some? && !Matches(e.profile.value, Normal(a))
      && Matches(Normal(a), Normal(b))
    ensures var e1 := ObserveOn(e, now, a);
      e1.state == Suspect && SameLook(e1.profile.value, Normal(a)) && ObserveOn(e1, now', b).state == Valid
  {
    SameLookMatches(ObserveOn(e, now, a).profile.value, Normal(a), Normal(b));
  }

  // ---------------------------------------------------------------- quarantine

  /** Events that leave a key's entry in place. */
  predicate Spares(e: Event, key: string) {
    match e
    case Remove(k) => k != key
    case HotSwap(k, _) => k != key
    case ProbeFailed(k) => k != key
    case Restart(_) => false
    case _ => true
  }

  predicate AllSpare(events: seq<Event>, key: string) { forall i :: 0 <= i < |events| ==> Spares(events[i], key) }

  /** In quarantine at least until t, with the profile it had but for the evidence. */
  predicate Held(w: World, key: string, t: nat, profile: Option<Profile>) {
    && key in w.cells && w.cells[key].entry.state == Quarantined && w.cells[key].entry.nextRetry >= t
    && match profile
       case None => w.cells[key].entry.profile.None?
       case Some(p) =>
         && w.cells[key].entry.profile.Some?
         && w.cells[key].entry.profile.value == p.(evidence := w.cells[key].entry.profile.value.evidence)
  }

  lemma {:induction false} SearchLeaves(w: World, keys: seq<string>, q: Query, key: string)
    requires key in w.cells && w.cells[key].entry.state == Quarantined
    ensures var r := Search(w, keys, q);
      r.0.now == w.now && key in r.0.cells && r.0.cells[key] == w.cells[key] && (r.1.path != L0 ==> r.1.key != key)
    decreases |keys|
  {
    if keys != [] { SearchLeaves(Visit(w, keys[0]), keys[1..], q, key); }
  }

  lemma HeldStep(w: World, e: Event, key: string, t: nat, profile: Option<Profile>)
    requires Held(w, key, t, profile) && w.now < t <= w.now + COOLDOWN && Spares(e, key)
    ensures Held(Step(w, e), key, t, profile)
  {
    match e
    case Lookup(q) => SearchLeaves(w, Candidates(q), q, key);
    case _ =>
  }

  predicate Bounded(c: Cell, now: nat) { c.entry.state == Quarantined ==> c.entry.nextRetry <= now + COOLDOWN }

  lemma {:induction false} SearchBounded(w: World, keys: seq<string>, q: Query, key: string)
    requires key in w.cells ==> Bounded(w.cells[key], w.now)
    ensures var v := Search(w, keys, q).0; key in v.cells ==> Bounded(v.cells[key], v.now)
    decreases |keys|
  {
    if keys != [] { SearchBounded(Visit(w, keys[0]), keys[1..], q, key); }
  }

  /** In every run a quarantine ends at most one cooldown from now. */
  lemma {:induction false} CooldownBounded(events: seq<Event>, key: string)
    ensures var w := Run(EMPTY_WORLD, events); key in w.cells ==> Bounded(w.cells[key], w.now)
    decreases |events|
  {
    if events != [] {
      var before, e := events[..|events| - 1], events[|events| - 1];
      CooldownBounded(before, key);
      BoundedStep(Run(EMPTY_WORLD, before), e, key);
    }
  }

  lemma BoundedStep(w: World, e: Event, key: string)
    requires key in w.cells ==> Bounded(w.cells[key], w.now)
    ensures var v := Step(w, e); key in v.cells ==> Bounded(v.cells[key], v.now)
  {
    match e
    case Lookup(q) => SearchBounded(w, Candidates(q), q, key);
    case _ =>
  }

  /** While the cooldown runs, whatever else happens, the entry stays as it is and no lookup returns it. */
  lemma {:induction false} QuarantineHolds(w: World, events: seq<Event>, key: string, q: Query)
    requires key in w.cells && w.cells[key].entry.state == Quarantined && Bounded(w.cells[key], w.now)
    requires AllSpare(events, key)
    ensures var v := Run(w, events);
      && v.now >= w.now
      && (v.now < w.cells[key].entry.nextRetry ==>
            && Held(v, key, w.cells[key].entry.nextRetry, w.cells[key].entry.profile)
            && (DoLookup(v, q).1.path != L0 ==> DoLookup(v, q).1.key != key)
            && forall obs :: Step(v, Observe(key, obs)) == v)
    decreases |events|
  {
    var v := Run(w, events);
    var e0 := w.cells[key].entry;
    if events != [] {
      var before, e := events[..|events| - 1], events[|events| - 1];
      QuarantineHolds(w, before, key, q);
      TimeMoves(Run(w, before), e);
      assert Spares(e, key);
      if v.now < e0.nextRetry { HeldStep(Run(w, before), e, key, e0.nextRetry, e0.profile); }
    }
    if v.now < e0.nextRetry {
      SearchLeaves(v, Candidates(q), q, key);
      assert v.cells[key := v.cells[key]] == v.cells;
    }
  }

  lemma TimeMoves(w: World, e: Event)
    ensures Step(w, e).now >= w.now
  {
    if e.Lookup? { SearchTime(w, Candidates(e.q), e.q); }
  }

  lemma {:induction false} SearchTime(w: World, keys: seq<string>, q: Query)
    ensures Search(w, keys, q).0.now == w.now
    decreases |keys|
  {
    if keys != [] { SearchTime(Visit(w, keys[0]), keys[1..], q); }
  }

  /**
    After a quarantine a key answers with L2 only on two live observations made since any moment
    before the cooldown ended.
   */
  lemma QuarantineRebuilds(w: World, before: seq<Event>, after: seq<Event>, key: string, q: Query)
    requires Inv(w) && key in w.cells && w.cells[key].entry.state == Quarantined && Bounded(w.cells[key], w.now)
    requires AllAllowed(before) && AllAllowed(after) && AllSpare(before, key)
    requires var v := Run(w, before);
      v.now < w.cells[key].entry.nextRetry && DoLookup(Run(v, after), q).1 == Hit(L2, key, false)
    ensures var u := Run(Run(w, before), after);
      && key in u.cells && Suffix(u.cells[key].seen, Observed(after, key))
      && Lives(u.cells[key].seen) >= 2 && Chain(u.cells[key].seen)
  {
    var v := Run(w, before);
    QuarantineHolds(w, before, key, q);
    RunKeeps(w, before);
    assert CellOk(key, v.cells[key]);
    RunKeeps(v, after);
    L2Evidence(Run(v, after), q);
    SeenIsRecent(v, after, key);
  }

  /** The state of an entry is not saved: a restart lifts a quarantine before its time, though not to L2. */
  lemma RestartLiftsQuarantine(w: World, key: string)
    requires Inv(w) && !IsLegacy(key) && key in w.cells && w.cells[key].entry.state == Quarantined
    requires Saved(w.cells[key].entry, w.now) && w.now - w.cells[key].entry.profile.value.capturedAt <= BASE_TTL
    ensures var v := Run(w, [Save, Restart({key})]);
      key in v.cells && v.cells[key].entry.state == Valid && !Eligible(v.cells[key].entry.profile.value, v.now)
  {
    var events := [Save, Restart({key})];
    assert events[..1] == [Save] && [Save][..0] == [];
    assert Run(w, [Save]) == Step(w, Save);
    assert Run(w, events) == Step(Step(w, Save), Restart({key}));
  }
}
