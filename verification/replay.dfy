/** The replay guard: prefixes of ClientHello randoms, remembered for a window of time in sixteen shards. */
module Replay {
  import opened Wire

  const SHARDS := 16
  const PREFIX_LEN := 20
  const STRIDE := 10

  /** When each prefix was accepted. */
  type Seen = map<bytes, nat>

  /** The shard of a prefix. */
  function ShardOf(p: bytes): (i: nat)
    ensures i < SHARDS
  {
    if |p| < 4 then 0 else p[3] % SHARDS
  }

  /** The code takes the first four bytes as a number; only the last of them decides. */
  method ShardFor(p: bytes) returns (i: nat)
    requires |p| == PREFIX_LEN
    ensures i == ShardOf(p)
  {
    var b0: nat, b1: nat, b2: nat, b3: nat := p[0], p[1], p[2], p[3];
    var h := b0 * 0x100_0000 + b1 * 0x1_0000 + b2 * 0x100 + b3;
    i := h % SHARDS;
  }

  predicate Expired(at: nat, now: nat, window: nat) { now - at > window }

  // ---------------------------------------------------------------- counting

  function Total(shards: seq<Seen>): nat {
    if shards == [] then 0 else Total(shards[..|shards| - 1]) + |shards[|shards| - 1]|
  }

  lemma {:induction false} TotalUpdate(shards: seq<Seen>, i: nat, s: Seen)
    requires i < |shards|
    ensures Total(shards[i := s]) == Total(shards) - |shards[i]| + |s|
  {
    var n := |shards| - 1;
    if i == n {
      assert shards[i := s][..n] == shards[..n];
    } else {
      TotalUpdate(shards[..n], i, s);
      assert shards[i := s][..n] == shards[..n][i := s];
    }
  }

  lemma {:induction false} TotalZero(shards: seq<Seen>)
    requires forall i :: 0 <= i < |shards| ==> shards[i] == map[]
    ensures Total(shards) == 0
  {
    if shards != [] { TotalZero(shards[..|shards| - 1]); }
  }

  lemma SizeAdd(s: Seen, p: bytes, t: nat)
    ensures |s[p := t]| == if p in s then |s| else |s| + 1
  {
    if p in s {
      assert s[p := t].Keys == s.Keys;
    } else {
      assert s[p := t].Keys == s.Keys + {p};
    }
  }

  lemma SizeRemove(s: Seen, p: bytes)
    requires p in s
    ensures |s - {p}| == |s| - 1
  {
    assert s.Keys == (s - {p}).Keys + {p};
  }

  /** Part of another, with the same times. */
  predicate Within(s: Seen, t: Seen) { forall p :: p in s ==> p in t && s[p] == t[p] }

  /** Removes what has expired, key by key in any order. */
  method Sweep(seen: Seen, now: nat, window: nat) returns (s: Seen, removed: nat)
    ensures s == map p | p in seen && !Expired(seen[p], now, window) :: seen[p]
    ensures |s| + removed == |seen|
  {
    s, removed := seen, 0;
    var rest := seen.Keys;
    while rest != {}
      invariant rest <= seen.Keys && Within(s, seen) && |s| + removed == |seen|
      invariant forall p :: p in seen ==> (p in s <==> p in rest || !Expired(seen[p], now, window))
      decreases |rest|
    {
      var k :| k in rest;
      rest := rest - {k};
      if now - seen[k] > window {
        SizeRemove(s, k);
        s, removed := s - {k}, removed + 1;
      }
    }
  }

  /** Whether the running hash picks the i-th key met. */
  predicate Picked(seed: nat, i: nat) { (seed + i * 0x85ebca6b) % TWO64 % STRIDE == 0 }

  /** How many of n keys it picks. */
  function Picks(seed: nat, n: nat): nat { if n == 0 then 0 else Picks(seed, n - 1) + if Picked(seed, n) then 1 else 0 }

  /** While the running hash does not wrap, it picks by the last decimal digit of seed plus seven times the place. */
  lemma PickedByDigit(seed: nat, i: nat)
    requires seed + i * 0x85ebca6b < TWO64
    ensures Picked(seed, i) <==> (seed + 7 * i) % 10 == 0
  {
    var tens := i * 224682250;
    assert seed + i * 0x85ebca6b == seed + 7 * i + 10 * tens;
    SameDigit(seed + 7 * i, tens);
  }

  lemma SameDigit(a: nat, tens: nat)
    ensures (a + 10 * tens) % 10 == a % 10
  {
  }

  /** How many of the first n it picks, by that rule. */
  function Digits(seed: nat, n: nat): nat {
    if n == 0 then 0 else Digits(seed, n - 1) + if (seed + 7 * n) % 10 == 0 then 1 else 0
  }

  lemma {:induction false} PicksAreDigits(seed: nat, n: nat)
    requires seed + n * 0x85ebca6b < TWO64
    ensures Picks(seed, n) == Digits(seed, n)
  {
    if n > 0 {
      PickedByDigit(seed, n);
      PicksAreDigits(seed, n - 1);
    }
  }

  /** Steps of seven from seed + 7 n to the next multiple of ten behind it, less one. */
  function StepsAhead(seed: nat, n: nat): nat { Ahead((seed + 7 * n) % 10) }

  function Ahead(digit: nat): nat { (7 * digit + 9) % 10 }

  lemma OneStep(t: nat)
    ensures Ahead((t + 7) % 10) == if (t + 7) % 10 == 0 then 9 else Ahead(t % 10) - 1
    ensures Ahead(t % 10) == 0 <==> (t + 7) % 10 == 0
  {
    var d := t % 10;
    SameDigit(d + 7, t / 10);
    assert t + 7 == d + 7 + 10 * (t / 10);
    DigitStep(d);
  }

  lemma DigitStep(d: nat)
    requires d < 10
    ensures Ahead((d + 7) % 10) == if d == 3 then 9 else Ahead(d) - 1
    ensures Ahead(d) == 0 <==> d == 3
    ensures (d + 7) % 10 == 0 <==> d == 3
  {
    assert d == 0 || d == 1 || d == 2 || d == 3 || d == 4 || d == 5 || d == 6 || d == 7 || d == 8 || d == 9;
  }

  lemma {:induction false} DigitsAre(seed: nat, n: nat)
    ensures 10 * Digits(seed, n) == n + StepsAhead(seed, n) - StepsAhead(seed, 0)
  {
    if n > 0 {
      DigitsAre(seed, n - 1);
      var t := seed + 7 * (n - 1);
      OneStep(t);
      assert seed + 7 * n == t + 7;
    }
  }

  /** So it picks a tenth of the keys, up to one, as long as it does not wrap. */
  lemma PicksATenth(seed: nat, n: nat)
    requires seed + n * 0x85ebca6b < 0x1_0000_0000_0000_0000
    ensures n / 10 <= Picks(seed, n) <= n / 10 + 1
  {
    PicksAreDigits(seed, n);
    DigitsAre(seed, n);
  }

  /**
    Drops the keys whose turn a running hash picks: as many as it picks, and which ones is up to the
    order of the map.
   */
  method DropSome(seen: Seen, seed: nat) returns (s: Seen, removed: nat)
    ensures Within(s, seen) && |s| + removed == |seen| && removed == Picks(seed, |seen|)
  {
    s, removed := seen, 0;
    var rest, i: nat := seen.Keys, 0;
    while rest != {}
      invariant rest <= s.Keys && Within(s, seen) && |s| + removed == |seen|
      invariant i + |rest| == |seen| && removed == Picks(seed, i)
      decreases |rest|
    {
      var k :| k in rest;
      rest := rest - {k};
      i := i + 1;
      var h := (seed + i * 0x85ebca6b) % TWO64;
      if h % STRIDE == 0 {
        SizeRemove(s, k);
        s, removed := s - {k}, removed + 1;
      }
    }
  }

  // ---------------------------------------------------------------- the guard

  datatype Accept = Accept(prefix: bytes, at: nat)

  /** Two accepts of one prefix lie more than the window apart. */
  predicate Spaced(log: seq<Accept>, window: nat) {
    forall i, j :: 0 <= i < j < |log| && log[i].prefix == log[j].prefix ==> log[j].at - log[i].at > window
  }

  /** Every accept is still on record, or too old to matter. */
  predicate Known(log: seq<Accept>, shards: seq<Seen>, now: nat, window: nat)
    requires |shards| == SHARDS
  {
    forall i :: 0 <= i < |log| ==> OnRecord(log[i], shards[ShardOf(log[i].prefix)], now, window)
  }

  predicate OnRecord(a: Accept, s: Seen, now: nat, window: nat) {
    (a.prefix in s && s[a.prefix] >= a.at) || Expired(a.at, now, window)
  }

  predicate InShard(s: Seen, i: nat, now: nat) { forall p :: p in s ==> ShardOf(p) == i && s[p] <= now }

  /** A guard between two calls; spilled says whether an entry was ever dropped to make room. */
  datatype State = State(shards: seq<Seen>, count: int, now: nat, log: seq<Accept>, spilled: bool)
  {
    /**
      The counter is exact and within bounds, keys are in their shards, and accepts are spaced
      unless some were dropped.
     */
    predicate Ok(window: nat, maxEntries: nat) {
      && |shards| == SHARDS && count == Total(shards) && count <= maxEntries
      && (forall i :: 0 <= i < SHARDS ==> InShard(shards[i], i, now))
      && (spilled || (Spaced(log, window) && Known(log, shards, now, window)))
    }

    function With(i: nat, s: Seen): State
      requires i < |shards|
    {
      this.(shards := shards[i := s], count := count - |shards[i]| + |s|)
    }
  }

  /** Dropping entries of one shard keeps the accounts; dropping only expired ones keeps the spacing as well. */
  lemma DropKeeps(st: State, i: nat, s: Seen, spilled: bool, window: nat, maxEntries: nat)
    requires st.Ok(window, maxEntries) && i < SHARDS && Within(s, st.shards[i]) && |s| <= |st.shards[i]|
    requires spilled
      || (!st.spilled && forall p :: p in st.shards[i] ==> p in s || Expired(st.shards[i][p], st.now, window))
    ensures st.With(i, s).(spilled := spilled).Ok(window, maxEntries)
  {
    TotalUpdate(st.shards, i, s);
    var shards := st.shards[i := s];
    if !spilled {
      forall k | 0 <= k < |st.log| ensures OnRecord(st.log[k], shards[ShardOf(st.log[k].prefix)], st.now, window) {
        assert OnRecord(st.log[k], st.shards[ShardOf(st.log[k].prefix)], st.now, window);
      }
    }
  }

  lemma SpacedAppend(log: seq<Accept>, a: Accept, window: nat)
    requires Spaced(log, window) && forall k :: 0 <= k < |log| && log[k].prefix == a.prefix ==>
      a.at - log[k].at > window
    ensures Spaced(log + [a], window)
  {
  }

  lemma KnownAppend(log: seq<Accept>, shards: seq<Seen>, p: bytes, now: nat, window: nat, s: Seen)
    requires |shards| == SHARDS && Known(log, shards, now, window)
    requires s == shards[ShardOf(p)][p := now] && (p in shards[ShardOf(p)] ==> shards[ShardOf(p)][p] <= now)
    ensures Known(log + [Accept(p, now)], shards[ShardOf(p) := s], now, window)
  {
    var log', shards' := log + [Accept(p, now)], shards[ShardOf(p) := s];
    forall k | 0 <= k < |log'| ensures OnRecord(log'[k], shards'[ShardOf(log'[k].prefix)], now, window) {
      if k < |log| {
        assert log'[k] == log[k] && OnRecord(log[k], shards[ShardOf(log[k].prefix)], now, window);
      }
    }
  }

  lemma LongAgo(log: seq<Accept>, shards: seq<Seen>, p: bytes, now: nat, window: nat, k: nat)
    requires |shards| == SHARDS && Known(log, shards, now, window) && k < |log| && log[k].prefix == p
    requires p in shards[ShardOf(p)] ==> Expired(shards[ShardOf(p)][p], now, window)
    ensures now - log[k].at > window
  {
    assert OnRecord(log[k], shards[ShardOf(p)], now, window);
  }

  predicate Admits(st: State, p: bytes, window: nat, maxEntries: nat)
    requires |st.shards| == SHARDS
  {
    var s := st.shards[ShardOf(p)];
    if p in s then Expired(s[p], st.now, window) else st.count < maxEntries
  }

  /** Accepting a prefix that is new or whose last accept has expired keeps everything, while there is room. */
  lemma AcceptKeeps(st: State, p: bytes, window: nat, maxEntries: nat, s: Seen)
    requires st.Ok(window, maxEntries) && Admits(st, p, window, maxEntries) && s == st.shards[ShardOf(p)][p := st.now]
    ensures st.With(ShardOf(p), s).(log := st.log + [Accept(p, st.now)]).Ok(window, maxEntries)
  {
    var i := ShardOf(p);
    assert InShard(st.shards[i], i, st.now);
    TotalUpdate(st.shards, i, s);
    SizeAdd(st.shards[i], p, st.now);
    if !st.spilled {
      KnownAppend(st.log, st.shards, p, st.now, window, s);
      forall k | 0 <= k < |st.log| && st.log[k].prefix == p ensures st.now - st.log[k].at > window {
        LongAgo(st.log, st.shards, p, st.now, window, k);
      }
      SpacedAppend(st.log, Accept(p, st.now), window);
    }
  }

  lemma TimeKeeps(st: State, d: nat, window: nat, maxEntries: nat)
    requires st.Ok(window, maxEntries)
    ensures st.(now := st.now + d).Ok(window, maxEntries)
  {
    if !st.spilled {
      forall k | 0 <= k < |st.log|
        ensures OnRecord(st.log[k], st.shards[ShardOf(st.log[k].prefix)], st.now + d, window) {
        assert OnRecord(st.log[k], st.shards[ShardOf(st.log[k].prefix)], st.now, window);
      }
    }
  }

  function Fresh(s: Seen, now: nat, window: nat): Seen {
    map p | p in s && !Expired(s[p], now, window) :: s[p]
  }

  lemma FreshKeeps(st: State, i: nat, window: nat, maxEntries: nat)
    requires st.Ok(window, maxEntries) && i < SHARDS
    ensures st.With(i, Fresh(st.shards[i], st.now, window)).Ok(window, maxEntries)
  {
    var s := Fresh(st.shards[i], st.now, window);
    assert s.Keys <= st.shards[i].Keys;
    SubsetSize(s.Keys, st.shards[i].Keys);
    DropKeeps(st, i, s, st.spilled, window, maxEntries);
  }

  lemma SubsetSize(a: set<bytes>, b: set<bytes>)
    requires a <= b
    ensures |a| <= |b|
  {
    assert b == a + (b - a);
  }

  // ---------------------------------------------------------------- whole runs

  /** An arrival names the shard whose turn it would be to be cleared, and what would be dropped from it. */
  datatype Event = Arrive(prefix: bytes, shard: nat, dropped: set<bytes>) | Gc(shard: nat) | Wait(d: nat)

  function MakeRoom(st: State, i: nat, dropped: set<bytes>, window: nat, maxEntries: nat): State
    requires |st.shards| == SHARDS && i < SHARDS
  {
    var swept := st.With(i, Fresh(st.shards[i], st.now, window));
    if swept.count < maxEntries then swept else swept.With(i, swept.shards[i] - dropped).(spilled := true)
  }

  function Checked(st: State, p: bytes, window: nat, maxEntries: nat): (r: State)
    requires |st.shards| == SHARDS
    ensures |r.shards| == SHARDS && r.spilled == st.spilled
  {
    if st.count >= maxEntries || !Admits(st, p, window, maxEntries) then st
    else st.With(ShardOf(p), st.shards[ShardOf(p)][p := st.now]).(log := st.log + [Accept(p, st.now)])
  }

  function Step(st: State, e: Event, window: nat, maxEntries: nat): (r: State)
    requires |st.shards| == SHARDS
    ensures |r.shards| == SHARDS
  {
    match e
    case Wait(d) => st.(now := st.now + d)
    case Gc(i) => if i < SHARDS then st.With(i, Fresh(st.shards[i], st.now, window)) else st
    case Arrive(p, i, dropped) =>
      if i >= SHARDS then st else
      Checked(if st.count >= maxEntries then MakeRoom(st, i, dropped, window, maxEntries) else st,
              p, window, maxEntries)
  }

  function Run(events: seq<Event>, window: nat, maxEntries: nat): (r: State)
    ensures |r.shards| == SHARDS
  {
    if events == [] then State(seq(SHARDS, _ => map[]), 0, 0, [], false)
    else Step(Run(events[..|events| - 1], window, maxEntries), events[|events| - 1], window, maxEntries)
  }

  lemma StepKeeps(st: State, e: Event, window: nat, maxEntries: nat)
    requires st.Ok(window, maxEntries)
    ensures Step(st, e, window, maxEntries).Ok(window, maxEntries)
    ensures st.count < maxEntries ==> Step(st, e, window, maxEntries).spilled == st.spilled
  {
    match e
    case Wait(d) => TimeKeeps(st, d, window, maxEntries);
    case Gc(i) => if i < SHARDS { FreshKeeps(st, i, window, maxEntries); }
    case Arrive(p, i, dropped) =>
      if i < SHARDS {
        if st.count >= maxEntries { RoomKeeps(st, i, dropped, window, maxEntries); }
        CheckKeeps(if st.count >= maxEntries then MakeRoom(st, i, dropped, window, maxEntries) else st,
                   p, window, maxEntries);
      }
  }

  lemma CheckKeeps(st: State, p: bytes, window: nat, maxEntries: nat)
    requires st.Ok(window, maxEntries)
    ensures Checked(st, p, window, maxEntries).Ok(window, maxEntries)
  {
    if st.count < maxEntries && Admits(st, p, window, maxEntries) {
      AcceptKeeps(st, p, window, maxEntries, st.shards[ShardOf(p)][p := st.now]);
    }
  }

  lemma RoomKeeps(st: State, i: nat, dropped: set<bytes>, window: nat, maxEntries: nat)
    requires st.Ok(window, maxEntries) && i < SHARDS
    ensures MakeRoom(st, i, dropped, window, maxEntries).Ok(window, maxEntries)
  {
    FreshKeeps(st, i, window, maxEntries);
    var swept := st.With(i, Fresh(st.shards[i], st.now, window));
    if swept.count >= maxEntries {
      SubsetSize((swept.shards[i] - dropped).Keys, swept.shards[i].Keys);
      DropKeeps(swept, i, swept.shards[i] - dropped, true, window, maxEntries);
    }
  }

  /** In every run the counter is exact and bounded and every key is in its own shard. */
  lemma {:induction false} RunKeeps(events: seq<Event>, window: nat, maxEntries: nat)
    ensures Run(events, window, maxEntries).Ok(window, maxEntries)
  {
    if events == [] {
      TotalZero(Run(events, window, maxEntries).shards);
    } else {
      RunKeeps(events[..|events| - 1], window, maxEntries);
      StepKeeps(Run(events[..|events| - 1], window, maxEntries), events[|events| - 1], window, maxEntries);
    }
  }

  predicate BelowCapacity(events: seq<Event>, window: nat, maxEntries: nat) {
    forall n :: 0 <= n < |events| ==> Run(events[..n], window, maxEntries).count < maxEntries
  }

  lemma {:induction false} NeverSpilled(events: seq<Event>, window: nat, maxEntries: nat)
    requires BelowCapacity(events, window, maxEntries)
    ensures !Run(events, window, maxEntries).spilled
  {
    if events != [] {
      var before := events[..|events| - 1];
      forall n | 0 <= n < |before| ensures Run(before[..n], window, maxEntries).count < maxEntries {
        assert before[..n] == events[..n];
      }
      NeverSpilled(before, window, maxEntries);
      RunKeeps(before, window, maxEntries);
      assert before == events[..|before|];
      StepKeeps(Run(before, window, maxEntries), events[|events| - 1], window, maxEntries);
    }
  }

  /** In every run that stays below capacity, two accepts of one prefix lie more than the window apart. */
  lemma NoReplayWithinWindow(events: seq<Event>, window: nat, maxEntries: nat)
    requires BelowCapacity(events, window, maxEntries)
    ensures Spaced(Run(events, window, maxEntries).log, window)
  {
    RunKeeps(events, window, maxEntries);
    NeverSpilled(events, window, maxEntries);
  }

  // What is on record was accepted.

  predicate Backed(log: seq<Accept>, s: Seen) { forall p :: p in s ==> Accept(p, s[p]) in log }

  predicate AllBacked(st: State) { forall i :: 0 <= i < |st.shards| ==> Backed(st.log, st.shards[i]) }

  lemma FewerBacked(st: State, i: nat, s: Seen)
    requires |st.shards| == SHARDS && i < SHARDS && AllBacked(st) && Within(s, st.shards[i])
    ensures AllBacked(st.With(i, s)) && AllBacked(st.With(i, s).(spilled := true))
  {
    assert Backed(st.log, st.shards[i]);
    assert Backed(st.log, s);
  }

  lemma AcceptBacked(st: State, p: bytes)
    requires |st.shards| == SHARDS && AllBacked(st)
    ensures AllBacked(st.With(ShardOf(p), st.shards[ShardOf(p)][p := st.now]).(log := st.log + [Accept(p, st.now)]))
  {
    var log, i := st.log + [Accept(p, st.now)], ShardOf(p);
    var s: Seen := st.shards[i][p := st.now];
    var shards := st.shards[i := s];
    forall j | 0 <= j < SHARDS ensures Backed(log, shards[j]) {
      assert Backed(st.log, st.shards[j]);
      assert forall q :: q in st.shards[j] ==> Accept(q, st.shards[j][q]) in log;
    }
  }

  lemma RoomBacked(st: State, i: nat, dropped: set<bytes>, window: nat, maxEntries: nat)
    requires |st.shards| == SHARDS && AllBacked(st) && i < SHARDS
    ensures var room := MakeRoom(st, i, dropped, window, maxEntries);
      |room.shards| == SHARDS && AllBacked(room)
  {
    var s := Fresh(st.shards[i], st.now, window);
    FewerBacked(st, i, s);
    FewerBacked(st.With(i, s), i, s - dropped);
  }

  lemma StepBacked(st: State, e: Event, window: nat, maxEntries: nat)
    requires |st.shards| == SHARDS && AllBacked(st)
    ensures AllBacked(Step(st, e, window, maxEntries))
  {
    match e
    case Wait(d) =>
    case Gc(i) => if i < SHARDS { FewerBacked(st, i, Fresh(st.shards[i], st.now, window)); }
    case Arrive(p, i, dropped) =>
      if i < SHARDS {
        RoomBacked(st, i, dropped, window, maxEntries);
        AcceptBacked(if st.count >= maxEntries then MakeRoom(st, i, dropped, window, maxEntries) else st, p);
      }
  }

  lemma {:induction false} RunBacked(events: seq<Event>, window: nat, maxEntries: nat)
    ensures AllBacked(Run(events, window, maxEntries))
  {
    if events != [] {
      RunBacked(events[..|events| - 1], window, maxEntries);
      StepBacked(Run(events[..|events| - 1], window, maxEntries), events[|events| - 1], window, maxEntries);
    }
  }

  predicate AcceptedWithin(log: seq<Accept>, p: bytes, now: nat, window: nat) {
    exists k :: 0 <= k < |log| && log[k].prefix == p && now - log[k].at <= window
  }

  /** In every run below capacity a prefix is accepted if and only if it was not accepted within the window. */
  lemma AcceptsExactly(events: seq<Event>, p: bytes, i: nat, dropped: set<bytes>, window: nat, maxEntries: nat)
    requires BelowCapacity(events, window, maxEntries) && Run(events, window, maxEntries).count < maxEntries
      && i < SHARDS
    ensures var st := Run(events, window, maxEntries);
      Step(st, Arrive(p, i, dropped), window, maxEntries).log ==
        if AcceptedWithin(st.log, p, st.now, window) then st.log else st.log + [Accept(p, st.now)]
  {
    RunKeeps(events, window, maxEntries);
    NeverSpilled(events, window, maxEntries);
    RunBacked(events, window, maxEntries);
    AdmitsExactly(Run(events, window, maxEntries), p, window, maxEntries);
  }

  lemma AdmitsExactly(st: State, p: bytes, window: nat, maxEntries: nat)
    requires st.Ok(window, maxEntries) && !st.spilled && AllBacked(st) && st.count < maxEntries
    ensures Admits(st, p, window, maxEntries) <==> !AcceptedWithin(st.log, p, st.now, window)
  {
    var s := st.shards[ShardOf(p)];
    if AcceptedWithin(st.log, p, st.now, window) {
      var k :| 0 <= k < |st.log| && st.log[k].prefix == p && st.now - st.log[k].at <= window;
      assert OnRecord(st.log[k], s, st.now, window);
    } else if p in s {
      assert Backed(st.log, s);
      var k :| 0 <= k < |st.log| && st.log[k] == Accept(p, s[p]);
    }
  }

  /** At capacity the guard can forget: a prefix dropped to make room is accepted again at once. */
  lemma ForgetsAtCapacity(st: State, p: bytes, i: nat, window: nat, maxEntries: nat)
    requires st.Ok(window, maxEntries) && 0 < maxEntries == st.count && i == ShardOf(p)
    requires p in st.shards[i] && Fresh(st.shards[i], st.now, window) == st.shards[i]
    ensures Step(st, Arrive(p, i, {p}), window, maxEntries).log == st.log + [Accept(p, st.now)]
  {
    assert st.shards[i := st.shards[i]] == st.shards;
    SizeRemove(st.shards[i], p);
  }

  /** Calls one after the other, on a clock that does not run backwards; the ghost log lists every accept. */
  class Guard {
    const window: nat
    const maxEntries: nat
    const shards: array<Seen>
    var count: int
    var evictCursor: nat
    var evictSeed: nat
    var gcCursor: nat
    var now: nat
    ghost var log: seq<Accept>
    ghost var spilled: bool

    ghost function View(): State
      reads this, shards
    {
      State(shards[..], count, now, log, spilled)
    }

    ghost predicate Valid()
      reads this, shards
    {
      0 < maxEntries && shards.Length == SHARDS && View().Ok(window, maxEntries)
    }

    constructor (window: nat, maxEntries: int, seed: nat)
      ensures Valid() && fresh(shards) && this.window == window
      ensures this.maxEntries == (if maxEntries <= 0 then 100000 else maxEntries) && log == [] && !spilled && count == 0
    {
      this.window := window;
      this.maxEntries := if maxEntries <= 0 then 100000 else maxEntries;
      shards := new Seen[SHARDS](_ => map[]);
      count, evictCursor, evictSeed, gcCursor, now := 0, 0, seed, 0, 0;
      log, spilled := [], false;
      new;
      TotalZero(shards[..]);
    }

    method Tick(d: nat)
      requires Valid()
      modifies this`now
      ensures Valid() && View() == old(View()).(now := old(now) + d)
    {
      TimeKeeps(View(), d, window, maxEntries);
      now := now + d;
    }

    /** Stores a shard that lost entries. */
    method Store(i: nat, s: Seen, removed: nat)
      requires shards.Length == SHARDS && i < SHARDS && |s| + removed == |shards[i]|
      modifies this`count, shards
      ensures View() == old(View()).With(i, s) && shards[i] == s
      ensures forall j :: 0 <= j < SHARDS && j != i ==> shards[j] == old(shards[j])
    {
      ghost var before := shards[..];
      shards[i] := s;
      assert shards[..] == before[i := s];
      count := count - removed;
    }

    /** Removes the expired entries of one shard. */
    method SweepShard(i: nat)
      requires Valid() && i < SHARDS
      modifies this`count, shards
      ensures Valid() && View() == old(View()).With(i, Fresh(old(shards[i]), now, window)) && count <= old(count)
      ensures shards[i] == Fresh(old(shards[i]), now, window) && count == old(count) - |old(shards[i])| + |shards[i]|
      ensures forall j :: 0 <= j < SHARDS && j != i ==> shards[j] == old(shards[j])
    {
      var s, removed := Sweep(shards[i], now, window);
      DropKeeps(View(), i, s, spilled, window, maxEntries);
      Store(i, s, removed);
    }

    /** One shard per tick, in turn. */
    method GcTick()
      requires Valid()
      modifies this`count, this`gcCursor, shards
      ensures Valid() && View() == Step(old(View()), Gc(old(gcCursor) % SHARDS), window, maxEntries)
      ensures gcCursor == (old(gcCursor) + 1) % TWO64
    {
      var i := gcCursor % SHARDS;
      gcCursor := (gcCursor + 1) % TWO64;
      SweepShard(i);
    }

    /** Makes room in the next shard: what has expired goes, and if that freed nothing, some that has not. */
    method EvictOneShard() returns (ghost dropped: set<bytes>)
      requires Valid()
      modifies this`count, this`evictCursor, this`evictSeed, this`spilled, shards
      ensures Valid() && count <= old(count)
      ensures View() == MakeRoom(old(View()), evictCursor % SHARDS, dropped, window, maxEntries)
      ensures spilled != old(spilled) ==> old(count) >= maxEntries
      ensures evictCursor == (old(evictCursor) + 1) % TWO64
      ensures var i := evictCursor % SHARDS;
        var kept := Fresh(old(shards[i]), now, window);
        if old(count) - |old(shards[i])| + |kept| < maxEntries then shards[i] == kept
        else Within(shards[i], kept) && |shards[i]| + Picks(evictSeed, |kept|) == |kept|
    {
      evictCursor := (evictCursor + 1) % TWO64;
      var i := evictCursor % SHARDS;
      SweepShard(i);
      dropped := {};
      if count < maxEntries { return; }
      evictSeed := (evictSeed + 0x9e3779b97f4a7c15) % TWO64;
      dropped := Spill(i);
    }

    /** Drops some entries of one shard. */
    method Spill(i: nat) returns (ghost dropped: set<bytes>)
      requires Valid() && i < SHARDS
      modifies this`count, this`spilled, shards
      ensures Valid() && count <= old(count)
      ensures View() == old(View()).With(i, old(shards[i]) - dropped).(spilled := true)
      ensures Within(shards[i], old(shards[i])) && |shards[i]| + Picks(evictSeed, |old(shards[i])|) == |old(shards[i])|
    {
      var s, removed := DropSome(shards[i], evictSeed);
      dropped := shards[i].Keys - s.Keys;
      assert s == shards[i] - dropped;
      DropKeeps(View(), i, s, true, window, maxEntries);
      spilled := true;
      Store(i, s, removed);
    }

    /** Whether a prefix is seen for the first time within the window; it is refused when there is no room. */
    method CheckAndMark(p: bytes) returns (ok: bool, ghost dropped: set<bytes>)
      requires Valid() && |p| == PREFIX_LEN
      modifies this`count, this`evictCursor, this`evictSeed, this`spilled, this`log, shards
      ensures Valid() && now == old(now)
      ensures View() == Step(old(View()), Arrive(p, evictCursor % SHARDS, dropped), window, maxEntries)
      ensures log == if ok then old(log) + [Accept(p, now)] else old(log)
      ensures old(count) < maxEntries ==> spilled == old(spilled)
      ensures old(count) < maxEntries ==>
        ok == (p !in old(shards[ShardOf(p)]) || Expired(old(shards[ShardOf(p)])[p], now, window))
    {
      dropped := {};
      if count >= maxEntries {
        dropped := EvictOneShard();
        if count >= maxEntries { return false, dropped; }
      }
      ok := MarkIfNew(p);
    }

    /** The decision itself, while there is room. */
    method MarkIfNew(p: bytes) returns (ok: bool)
      requires Valid() && |p| == PREFIX_LEN && count < maxEntries
      modifies this`count, this`log, shards
      ensures Valid() && View() == Checked(old(View()), p, window, maxEntries)
      ensures log == if ok then old(log) + [Accept(p, now)] else old(log)
      ensures ok == (p !in old(shards[ShardOf(p)]) || Expired(old(shards[ShardOf(p)])[p], now, window))
    {
      var i := ShardFor(p);
      var s := shards[i];
      if p in s && now - s[p] <= window { return false; }
      Remember(i, p);
      ok := true;
    }

    /** Puts a prefix on record. */
    method Remember(i: nat, p: bytes)
      requires Valid() && i == ShardOf(p) && Admits(View(), p, window, maxEntries)
      modifies this`count, this`log, shards
      ensures Valid() && log == old(log) + [Accept(p, now)]
      ensures View() == old(View()).With(i, old(shards[i])[p := now]).(log := log)
    {
      ghost var before := View();
      var s: Seen := shards[i][p := now];
      AcceptKeeps(View(), p, window, maxEntries, s);
      SizeAdd(shards[i], p, now);
      if p !in shards[i] { count := count + 1; }
      shards[i] := s;
      log := log + [Accept(p, now)];
      assert shards[..] == before.shards[i := s];
      assert View() == before.With(i, s).(log := log);
    }
  }
}
