/**
  The profile cache's life of one key: observations climb an evidence ladder, failures quarantine,
  restarts forget, and a lookup answers with the dial-free path L2 only on enough live evidence.
 */
module Amortize {
  import opened Wire
  import opened CacheKeys
  import Record

  const MINUTE := 60
  const COOLDOWN := 5 * MINUTE
  const MAX_L2_AGE := 10 * MINUTE
  const MIN_L2_EVIDENCE := 2
  const MAX_FAILS := 2
  const BASE_TTL := 30 * MINUTE

  // ---------------------------------------------------------------- profiles

  /** Lengths of the target's seven handshake records; 0 where there was none. */
  type Lens = s: seq<int> | |s| == 7 witness [0, 0, 0, 0, 0, 0, 0]

  function InferMode(lens: Lens): byte { if lens[2] > 512 then Record.COALESCED else Record.SPLIT }

  predicate ValidLens(lens: Lens) {
    (forall i :: 0 <= i < 7 ==> lens[i] == 0 || 5 <= lens[i] <= 16384) && (lens[1] == 0 || lens[1] == 6)
  }

  datatype Source = Unset | Live | Probe | Persist

  /** The fields nothing is decided on. */
  datatype Details = Details(fingerprint: nat, alpn: string, recordCount: nat, dest: string, serverName: string,
      chClass: string)

  datatype Profile = Profile(lens: Lens, cipher: u16, version: u16, capturedAt: nat, mode: byte, group: u16, hrr: bool,
                             shape: nat, template: bytes, evidence: int, live: int, stability: int, source: Source,
                               details: Details)

  function EffectiveMode(p: Profile): byte { if p.mode == Record.SPLIT then InferMode(p.lens) else p.mode }

  /** Same cipher, mode and first six lengths; a group or shape of zero matches any. */
  predicate Matches(a: Profile, b: Profile) {
    && a.cipher == b.cipher
    && (a.group == 0 || b.group == 0 || a.group == b.group)
    && a.hrr == b.hrr
    && EffectiveMode(a) == EffectiveMode(b)
    && a.lens[..6] == b.lens[..6]
    && (a.shape == 0 || b.shape == 0 || a.shape == b.shape)
  }

  // ---------------------------------------------------------------- entries

  datatype State = Valid | Stale | Negative | Suspect | Quarantined

  /** A cache entry; the state is kept twice, once to be read without the lock. */
  datatype Entry = Entry(profile: Option<Profile>, state: State, atomicState: State, failCount: int, nextRetry: nat,
      ttl: nat, score: nat)
  {
    function To(s: State): Entry { this.(state := s, atomicState := s) }
  }

  function NewEntry(p: Profile): Entry { Entry(Some(p), Valid, Valid, 0, 0, BASE_TTL, 0) }

  function Normal(obs: Profile): Profile {
    obs.(mode := EffectiveMode(obs), live := if obs.source == Probe then 0 else obs.live)
  }

  /** The first profile of a key. */
  function Created(obs: Profile): Profile {
    if obs.source == Probe then obs.(evidence := 0, live := 0) else
    var e := if obs.evidence < 1 then 1 else obs.evidence;
    obs.(source := if obs.source == Unset then Live else obs.source, evidence := e,
         live := if obs.live < 1 then e else obs.live)
  }

  /** The profile that starts the ladder again. */
  function Restarted(obs: Profile): Profile {
    if obs.source == Probe then obs.(evidence := 0, live := 0) else obs.(evidence := 1, live := 1, source := Live)
  }

  function Calibrated(obs: Profile): Profile {
    var p := Restarted(obs);
    if p.stability < 1 then p.(stability := 1) else p
  }

  /** A matching observation: everything seen is taken over, and only live ones climb. */
  function Merged(cur: Profile, obs: Profile): Profile {
    var p := obs.(template := if obs.template != [] then obs.template else cur.template, stability := cur.stability);
    if obs.source == Probe then
      p.(source := if cur.source == Unset then Probe else cur.source, evidence := cur.evidence, live := cur.live)
    else
      p.(source := Live, evidence := cur.evidence + 1, live := cur.live + 1,
         stability := if cur.stability < 10 then cur.stability + 1 else cur.stability)
  }

  predicate Cooling(e: Entry, now: nat) { e.state == Quarantined && now < e.nextRetry }

  predicate Continues(e: Entry, obs: Profile) {
    e.state != Quarantined && e.profile.Some? && Matches(e.profile.value, Normal(obs))
  }

  /** An observation with sane lengths, on a present entry. */
  function ObserveOn(e: Entry, now: nat, obs0: Profile): Entry {
    var obs := Normal(obs0);
    if Cooling(e, now) then e
    else if e.state == Quarantined
      then e.(profile := Some(Calibrated(obs)), failCount := 0, nextRetry := 0, ttl := BASE_TTL).To(Valid)
    else if Continues(e, obs0)
      then e.(profile := Some(Merged(e.profile.value, obs)), failCount := 0, ttl := BASE_TTL).To(Valid)
    else e.(profile := Some(Restarted(obs)), failCount := 1).To(Suspect)
  }

  function Quarantine(e: Entry, now: nat): Entry {
    e.(nextRetry := now + COOLDOWN,
      profile := match e.profile case None => None case Some(p) => Some(p.(evidence := 0))).To(Quarantined)
  }

  /** Quarantine asked for directly, also for a key without entry. */
  function QuarantineNow(e: Option<Entry>, now: nat): Entry {
    match e
    case None => Entry(None, Quarantined, Quarantined, MAX_FAILS, now + COOLDOWN, BASE_TTL, 0)
    case Some(e) => Quarantine(e.(failCount := MAX_FAILS), now)
  }

  function Failed(e: Entry, now: nat): Entry {
    var e1 := e.(failCount := e.failCount + 1);
    if e1.failCount >= MAX_FAILS then Quarantine(e1, now)
    else if e.state == Valid then e1.To(Suspect)
    else e1
  }

  function MarkStale(e: Entry): Entry {
    if e.state != Valid && e.state != Stale then e
    else if e.score < 4 then e.(score := e.score + 1, ttl := 2 * BASE_TTL).To(Stale)
    else e.To(Stale)
  }

  function Backoff(failCount: int): nat {
    var k := failCount - 1;
    (if k <= 0 then 1 else if k == 1 then 2 else if k == 2 then 4 else if k == 3 then 8 else 16) * MINUTE
  }

  function MarkNegative(e: Option<Entry>, now: nat): Entry {
    match e
    case None => Entry(None, Negative, Negative, 1, now + MINUTE, BASE_TTL, 0)
    case Some(e) =>
      e.(failCount := e.failCount + 1, score := 0, nextRetry := now + Backoff(e.failCount + 1)).To(Negative)
  }

  // ---------------------------------------------------------------- lookups

  datatype Mode = ModeDefault | ModeL0 | ModeL1 | ModeL2 | ModeAuto | ModeUnknown

  function Resolve(m: Mode): Mode { if m == ModeDefault || m == ModeUnknown then ModeL2 else m }

  datatype Path = L0 | L1 | L2

  datatype Query = Query(mode: Mode, fields: Fields, softClass: string, cipher: u16, group: u16)

  predicate Eligible(p: Profile, now: nat) {
    && p.source != Probe
    && (if p.live <= 0 then p.evidence else p.live) >= MIN_L2_EVIDENCE
    && !p.hrr && p.group != 0 && p.cipher != 0 && p.template != []
    && ValidLens(p.lens) && p.lens[0] != 0 && p.shape != 0
    && p.capturedAt != 0 && now - p.capturedAt <= MAX_L2_AGE
  }

  predicate Usable(e: Entry) {
    e.state != Negative && e.state != Quarantined && e.profile.Some? && ValidLens(e.profile.value.lens)
  }

  predicate Expired(e: Entry, now: nat)
    requires e.profile.Some?
  {
    now - e.profile.value.capturedAt >= e.ttl
  }

  /** What a lookup leaves behind: an expired profile is marked. */
  function Touched(e: Entry, now: nat): Entry {
    if Usable(e) && Expired(e, now) && e.state == Valid then e.To(Stale) else e
  }

  predicate Compatible(p: Profile, q: Query) {
    (q.cipher == 0 || p.cipher == q.cipher) && (q.group == 0 || p.group == q.group)
  }

  predicate Acceptable(p: Profile, q: Query) {
    && (q.cipher == 0 || p.cipher == 0 || p.cipher == q.cipher)
    && (q.group == 0 || p.group == 0 || p.group == q.group)
    && (p.version == 0 || q.fields.version == 0 || p.version == q.fields.version)
  }

  predicate AnswersL2(key: string, e: Entry, now: nat, q: Query) {
    && Usable(e) && e.state != Suspect && e.state != Stale && !Expired(e, now)
    && !IsLegacy(key) && !IsSoft(key) && Eligible(e.profile.value, now)
    && (Resolve(q.mode) == ModeL2 || Resolve(q.mode) == ModeAuto) && Compatible(e.profile.value, q)
  }

  datatype Hit = Hit(path: Path, key: string, stale: bool)

  /** What one key answers; None sends the lookup on to the next key. */
  function Answer(key: string, e: Entry, now: nat, q: Query): Option<Hit> {
    if AnswersL2(key, e, now, q) then Some(Hit(L2, key, false))
    else if Usable(e) && Resolve(q.mode) != ModeL0 && Acceptable(e.profile.value, q)
    then Some(Hit(L1, key, e.state == Stale || Expired(e, now)))
    else None
  }

  /** The keys a lookup tries: exact class, soft class, legacy. */
  function Candidates(q: Query): seq<string> {
    (if q.fields.chClass != "" then [KeyV2(q.fields)] else [])
    + (if q.softClass != "" && q.softClass != q.fields.chClass then [KeyV2(q.fields.(chClass := q.softClass))] else [])
    + [LegacyKey(q.fields.serverName, q.fields.alpn, q.fields.version)]
  }

  // ---------------------------------------------------------------- the disk

  /** What a profile looks like after it was saved and loaded: group, shape and template are not kept. */
  function Reloaded(p: Profile): Profile {
    p.(mode := EffectiveMode(p), group := 0, hrr := false, shape := 0, template := [], stability := 0,
       live := if p.live > 0 then 0 else p.live, source := if p.source == Unset then Persist else p.source)
  }

  predicate Saved(e: Entry, now: nat) {
    e.state != Negative && e.profile.Some? && now - e.profile.value.capturedAt <= e.ttl
  }
}
