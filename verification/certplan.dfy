/** Certificate plans: how long a camouflage certificate message may get so that its record can still be padded. */
module CertPlan {
  import opened Wire
  import opened Extensions
  import opened ClientHello
  import opened Session
  import Record

  const SAFETY := 32
  const MLDSA_LEN := 3309
  const MAC_LEN := 64
  const CACHE_MAX := 512

  // ---------------------------------------------------------------- lengths

  /** Every entry is a 3-byte length, the certificate and an empty extension list. */
  function EntriesLen(certs: seq<bytes>): nat {
    if certs == [] then 0 else 5 + |certs[0]| + EntriesLen(certs[1..])
  }

  function MsgLen(leaf: bytes, chain: seq<bytes>): nat { 8 + EntriesLen([leaf] + chain) }

  method EstimateCertMsgLen(leaf: bytes, chain: seq<bytes>) returns (n: nat)
    ensures n == MsgLen(leaf, chain)
  {
    n := 1 + 3 + 1 + 3;
    n := n + 3 + |leaf| + 2;
    assert ([leaf] + chain)[1..] == chain;
    var i := 0;
    while i < |chain|
      invariant 0 <= i <= |chain| && n + EntriesLen(chain[i..]) == MsgLen(leaf, chain)
    {
      assert chain[i..][1..] == chain[i + 1..];
      n := n + 3 + |chain[i]| + 2;
      i := i + 1;
    }
  }

  /** The TLS 1.3 Certificate message: type, length, empty context, list. */
  function CertificateMsg(certs: seq<bytes>): Builder {
    var list := MarshalCerts(CertList(certs, None, None));
    Of([Record.CERTIFICATE]).AddLP(3, Builder([0] + list.result, list.err))
  }

  lemma {:induction false} EntriesLength(c: CertList, i: nat)
    requires i <= |c.certs| && c.ocsp == None && c.scts == None
    ensures |EntriesFrom(c, i).result| == EntriesLen(c.certs[i..])
    decreases |c.certs| - i
  {
    if i < |c.certs| {
      EntriesLength(c, i + 1);
      assert c.certs[i..][1..] == c.certs[i + 1..];
      NoExts(c, i);
    }
  }

  lemma NoExts(c: CertList, i: nat)
    requires c.ocsp == None && c.scts == None
    ensures Items(EncExt, FitsExt, EntryExts(c, i)).result == []
  {
    var ocsp, sct := OcspRow(c), Session.SctRow(c);
    assert !ocsp.on && !sct.on;
    assert [ocsp, sct][1..] == [sct] && [sct][1..] == [];
    assert Present([sct][1..]) == [];
    assert Present([sct]) == [];
    assert Present([ocsp, sct]) == [];
  }

  /** The message: type 11, its length, an empty context, and the list of certificates. */
  lemma MessageIs(certs: seq<bytes>)
    ensures var list := MarshalCerts(CertList(certs, None, None)).result;
      CertificateMsg(certs).result == [11] + Put(3, 1 + |list|) + ([0] + list)
  {
  }

  /** The estimate is the length of the marshalled message. */
  lemma EstimateIsExact(leaf: bytes, chain: seq<bytes>)
    ensures |CertificateMsg([leaf] + chain).result| == MsgLen(leaf, chain)
    ensures CertificateMsg([leaf] + chain).result[0] == Record.CERTIFICATE
  {
    var c := CertList([leaf] + chain, None, None);
    EntriesLength(c, 0);
    assert c.certs[0..] == c.certs;
  }

  // ---------------------------------------------------------------- budgets

  /** A plan: leaf, fillers, and the length of the message they make. */
  datatype Plan = Plan(leaf: bytes, chain: seq<bytes>, hmacAt: int, mldsaAt: int, inner: nat)
  {
    predicate Exact() { inner == MsgLen(leaf, chain) }

    /** The leaf has room for the authenticator. */
    predicate Roomy() { |leaf| >= MAC_LEN }

    predicate Sound() { Exact() && Roomy() }
  }

  /** Record header, content type and tag. */
  const RECORD_OVERHEAD := Record.HEADER_LEN + 1 + 16

  predicate Fits(mode: byte, p: Plan, budget: int) {
    budget <= 0 || (if mode == Record.SPLIT then RECORD_OVERHEAD + p.inner <= budget
                    else mode == Record.COALESCED ==> p.inner <= budget)
  }

  /**
    What fits, in numbers: 22 bytes of record around the message where it has its own, and the
    message alone where not.
   */
  lemma FitsNumbers(p: Plan, budget: int)
    requires budget > 0
    ensures Fits(Record.SPLIT, p, budget) <==> p.inner <= budget - 22
    ensures Fits(Record.COALESCED, p, budget) <==> p.inner <= budget
  {
  }

  function MaxInner(mode: byte, budget: int): int {
    if mode == Record.COALESCED then budget
    else if mode != Record.SPLIT || budget <= 0 || budget - RECORD_OVERHEAD < 0 then 0
    else budget - RECORD_OVERHEAD
  }

  const EE_TYPICAL := 40
  const CV_LEN := 72
  const FINISHED_LEN := 36
  const EE_HEADROOM := 40
  const FLIGHT_OVERHEAD := EE_TYPICAL + CV_LEN + FINISHED_LEN + EE_HEADROOM
  const FLIGHT_SAFETY := 48

  /** What a flight of one record leaves for the certificate message. */
  function CoalescedBudget(outer: int): int {
    if outer <= 512 then 0 else
    var rest := outer - RECORD_OVERHEAD - FLIGHT_OVERHEAD - FLIGHT_SAFETY;
    if rest < 0 then 0 else rest
  }

  /** The reserve for the other messages: more than usual only where larger ones were seen. */
  function Reserve(p90: Option<int>): int {
    if p90.None? || p90.value <= EE_TYPICAL then FLIGHT_OVERHEAD else p90.value + CV_LEN + FINISHED_LEN + EE_HEADROOM
  }

  function CoalescedBudgetFor(outer: int, p90: Option<int>): int {
    var base := CoalescedBudget(outer);
    if base <= 0 || p90.None? || p90.value <= EE_TYPICAL then base else
    var rest := outer - RECORD_OVERHEAD - Reserve(p90) - FLIGHT_SAFETY;
    if rest < 0 then 0 else if rest > base then base else rest
  }

  /** A message that fits a split budget is padded to its slot: the padding is not negative, and exactly then. */
  lemma SplitPadding(slots: Record.Slots, p: Plan)
    requires Record.Armed(slots, Record.HANDSHAKE) && p.Exact() && slots[3] > 0
    ensures var msg := CertificateMsg([p.leaf] + p.chain).result;
      Fits(Record.SPLIT, p, slots[3]) <==> Record.Padding(slots, Record.HANDSHAKE, msg) >= 0
  {
    EstimateIsExact(p.leaf, p.chain);
  }

  /**
    A flight of one record: with a certificate message within the budget, the padding is not negative
    as long as the other messages stay within reserve and safety.
   */
  lemma CoalescedPadding(slots: Record.Slots, p: Plan, p90: Option<int>, ee: bytes, cv: bytes, finished: bytes)
    requires Record.Armed(slots, Record.HANDSHAKE) && p.Exact()
    requires ee != [] && ee[0] == Record.ENCRYPTED_EXTENSIONS
    requires CoalescedBudgetFor(slots[2], p90) > 0 && Fits(Record.COALESCED, p, CoalescedBudgetFor(slots[2], p90))
    requires |ee| + |cv| + |finished| <= Reserve(p90) + FLIGHT_SAFETY
    ensures var flight := ee + CertificateMsg([p.leaf] + p.chain).result + cv + finished;
      Record.Padding(slots, Record.HANDSHAKE, flight) >= 0
  {
    EstimateIsExact(p.leaf, p.chain);
    var flight := ee + CertificateMsg([p.leaf] + p.chain).result + cv + finished;
    assert flight[0] == ee[0];
  }

  /** And the bound is sharp: one byte more next to a message that uses up its budget, and the flight is not sent. */
  lemma CoalescedBoundIsSharp(slots: Record.Slots, p: Plan, p90: Option<int>, ee: bytes, cv: bytes, finished: bytes)
    requires Record.Armed(slots, Record.HANDSHAKE) && p.Exact()
    requires ee != [] && ee[0] == Record.ENCRYPTED_EXTENSIONS
    requires CoalescedBudgetFor(slots[2], p90) == p.inner
      && |ee| + |cv| + |finished| == Reserve(p90) + FLIGHT_SAFETY + 1
    ensures var flight := ee + CertificateMsg([p.leaf] + p.chain).result + cv + finished;
      Record.Padding(slots, Record.HANDSHAKE, flight) < 0
  {
    EstimateIsExact(p.leaf, p.chain);
    var flight := ee + CertificateMsg([p.leaf] + p.chain).result + cv + finished;
    assert flight[0] == ee[0];
  }

  /**
    Whatever the plan and the budget: the flight is not refused for its length exactly when all of
    it fits the slot.
   */
  lemma FlightPadding(slots: Record.Slots, p: Plan, ee: bytes, cv: bytes, finished: bytes)
    requires Record.Armed(slots, Record.HANDSHAKE) && p.Exact() && ee != [] && ee[0] == Record.ENCRYPTED_EXTENSIONS
    ensures var flight := ee + CertificateMsg([p.leaf] + p.chain).result + cv + finished;
      Record.Padding(slots, Record.HANDSHAKE, flight) ==
        slots[2] - (RECORD_OVERHEAD + |ee| + p.inner + |cv| + |finished|)
  {
    EstimateIsExact(p.leaf, p.chain);
    var flight := ee + CertificateMsg([p.leaf] + p.chain).result + cv + finished;
    assert flight[0] == ee[0];
  }

  /**
    The budget comes out as nothing exactly when the slot is no coalesced one or the reserve alone
    fills it; it then limits no plan. What decides is the slot: with a plan whose message is longer
    than the slot leaves, the flight is refused.
   */
  lemma NoBudget(slots: Record.Slots, p: Plan, p90: Option<int>, ee: bytes, cv: bytes, finished: bytes)
    requires Record.Armed(slots, Record.HANDSHAKE) && p.Exact() && ee != [] && ee[0] == Record.ENCRYPTED_EXTENSIONS
    ensures var budget := CoalescedBudgetFor(slots[2], p90);
      && budget >= 0
      && (budget == 0 <==> slots[2] <= 512 || slots[2] <= RECORD_OVERHEAD + Reserve(p90) + FLIGHT_SAFETY)
      && (budget == 0 ==> Fits(Record.COALESCED, p, budget))
    ensures var flight := ee + CertificateMsg([p.leaf] + p.chain).result + cv + finished;
      Record.Padding(slots, Record.HANDSHAKE, flight) < 0 <==>
        p.inner > slots[2] - RECORD_OVERHEAD - |ee| - |cv| - |finished|
  {
    FlightPadding(slots, p, ee, cv, finished);
  }

  /**
    The budget of a coalesced slot in numbers: 258 bytes less than the slot, and less again for
    samples above 40 bytes.
   */
  lemma BudgetNumbers(outer: int, p90: Option<int>)
    ensures CoalescedBudgetFor(outer, p90) ==
      if outer <= 512 then 0
      else if p90.None? || p90.value <= 40 then outer - 258
      else if outer <= p90.value + 218 then 0
      else outer - (p90.value + 218)
  {
  }

  // ---------------------------------------------------------------- the place of the authenticator

  /** The last place, from i down, where the signature stands; the end of the certificate if it stands nowhere. */
  function SearchDown(der: bytes, sig: bytes, i: int): (at: int)
    requires |sig| == MAC_LEN <= |der| && i <= |der| - MAC_LEN
    ensures 0 <= at <= |der| - MAC_LEN
    decreases i + 1
  {
    if i < 0 then |der| - MAC_LEN else if der[i..i + MAC_LEN] == sig then i else SearchDown(der, sig, i - 1)
  }

  /** Where the authenticator goes; `sig` is the signature a parser finds, None where it finds no certificate. */
  function HmacAt(der: bytes, sig: Option<bytes>): int {
    if |der| < MAC_LEN then -1
    else if sig.None? || |sig.value| != MAC_LEN then |der| - MAC_LEN
    else SearchDown(der, sig.value, |der| - MAC_LEN)
  }

  predicate StandsAt(der: bytes, sig: bytes, i: int) { 0 <= i && i + |sig| <= |der| && der[i..i + |sig|] == sig }

  lemma {:induction false} SearchFinds(der: bytes, sig: bytes, i: int, j: int)
    requires |sig| == MAC_LEN <= |der| && j <= i <= |der| - MAC_LEN && StandsAt(der, sig, j)
    ensures StandsAt(der, sig, SearchDown(der, sig, i)) && j <= SearchDown(der, sig, i)
    decreases i - j
  {
    if j < i { SearchFinds(der, sig, i - 1, j); }
  }

  /** It always fits where there is room at all, and it is the last place of a signature that can be found. */
  lemma HmacPlace(der: bytes, sig: Option<bytes>, j: int)
    ensures HmacAt(der, sig) >= 0 <==> |der| >= MAC_LEN
    ensures HmacAt(der, sig) + MAC_LEN <= |der| || |der| < MAC_LEN
    ensures sig.Some? && |sig.value| == MAC_LEN && StandsAt(der, sig.value, j) ==>
      StandsAt(der, sig.value, HmacAt(der, sig)) && j <= HmacAt(der, sig)
  {
    if sig.Some? && |sig.value| == MAC_LEN && StandsAt(der, sig.value, j) {
      SearchFinds(der, sig.value, |der| - MAC_LEN, j);
    }
  }

  method SameBytes(der: bytes, i: nat, sig: bytes) returns (r: bool)
    requires i + |sig| <= |der|
    ensures r == (der[i..i + |sig|] == sig)
  {
    for j := 0 to |sig|
      invariant forall k :: 0 <= k < j ==> der[i + k] == sig[k]
    {
      if der[i + j] != sig[j] {
        assert der[i..i + |sig|][j] != sig[j];
        return false;
      }
    }
    return true;
  }

  method LocateHmac(der: bytes, sig: Option<bytes>) returns (at: int)
    ensures at == HmacAt(der, sig)
  {
    if |der| < MAC_LEN { return -1; }
    if sig.None? || |sig.value| != MAC_LEN { return |der| - MAC_LEN; }
    var i := |der| - MAC_LEN;
    while i >= 0
      invariant -1 <= i <= |der| - MAC_LEN && SearchDown(der, sig.value, i) == HmacAt(der, sig)
    {
      var same := SameBytes(der, i, sig.value);
      if same { return i; }
      i := i - 1;
    }
    return |der| - MAC_LEN;
  }

  // ---------------------------------------------------------------- growing

  /**
    Certificate creation: a leaf by the lengths of its extension and of its subject padding, a filler
    by its padding and place; and what a parser finds in a leaf.
   */
  datatype Maker = Maker(
    leaf: (nat, nat) -> Option<bytes>,
    filler: (nat, nat) -> Option<bytes>,
    signature: bytes -> Option<bytes>,
    mldsaAt: bytes -> int,
    hasMeta: bool)

  /** What is known of the target's chain: its depth and lengths. */
  datatype Shape = Shape(depth: int, lens: seq<int>)

  /** The result keeps to the target unless nothing was changed. */
  predicate Grown(leaf0: bytes, leaf: bytes, chain: seq<bytes>, target: int) {
    MsgLen(leaf, chain) <= target || (leaf == leaf0 && chain == [])
  }

  /** Whether a leaf with this much subject padding keeps to the target. */
  predicate SubjectFits(mk: Maker, ext: nat, target: int, pad: nat) {
    mk.leaf(ext, pad).Some? && MsgLen(mk.leaf(ext, pad).value, []) <= target
  }

  /**
    The subject padded by `pad` bytes, a multiple of 32: all steps up to it keep to the target, and
    the next one does not, or the target is met, or it was the last step.
   */
  predicate SubjectDone(mk: Maker, ext: nat, leaf0: bytes, target: int, leaf: bytes, pad: nat) {
    && pad % 32 == 0 && pad <= 256 && (if pad == 0 then leaf == leaf0 else mk.leaf(ext, pad) == Some(leaf))
    && (forall k :: 0 < k <= 8 && k * 32 <= pad ==> SubjectFits(mk, ext, target, k * 32))
    && (pad == 256 || MsgLen(leaf, []) >= target || !SubjectFits(mk, ext, target, pad + 32))
  }

  /** Longer subjects, in steps of 32, until one cannot be used, the target is met or the last step is reached. */
  method PadSubject(mk: Maker, ext: nat, leaf0: bytes, target: int) returns (leaf: bytes, cur: nat, pad: nat)
    ensures cur == MsgLen(leaf, []) && Grown(leaf0, leaf, [], target) && SubjectDone(mk, ext, leaf0, target, leaf, pad)
  {
    leaf, pad := leaf0, 0;
    cur := EstimateCertMsgLen(leaf, []);
    while pad + 32 <= 256 && cur < target
      invariant cur == MsgLen(leaf, []) && Grown(leaf0, leaf, [], target)
      invariant pad % 32 == 0 && pad <= 256 && if pad == 0 then leaf == leaf0 else mk.leaf(ext, pad) == Some(leaf)
      invariant forall k :: 0 < k <= 8 && k * 32 <= pad ==> SubjectFits(mk, ext, target, k * 32)
      decreases 256 - pad
    {
      var made := mk.leaf(ext, pad + 32);
      if made.None? { break; }
      var n := EstimateCertMsgLen(made.value, []);
      if n > target { break; }
      leaf, cur, pad := made.value, n, pad + 32;
    }
  }

  function FillerLen(mk: Maker, place: nat, pad: nat): nat {
    if mk.filler(pad, place).Some? then |mk.filler(pad, place).value| else 0
  }

  /** More padding makes no shorter filler. */
  ghost predicate Growing(mk: Maker, place: nat, most: int) {
    forall p: nat, q: nat :: p <= q <= most ==>
      mk.filler(p, place).Some? && FillerLen(mk, place, p) <= FillerLen(mk, place, q)
  }

  predicate FillerFits(mk: Maker, place: nat, maxEntry: int, pad: nat) { 0 < FillerLen(mk, place, pad) <= maxEntry }

  /** The shortest filler that reaches what is wanted, where one does and fits; otherwise the longest that fits. */
  ghost predicate Closest(mk: Maker, place: nat, want: int, maxEntry: int, most: int, r: Option<bytes>) {
    forall p: nat :: p <= most && FillerFits(mk, place, maxEntry, p) ==>
      r.Some? && if |r.value| >= want then FillerLen(mk, place, p) < want || |r.value| <= FillerLen(mk, place, p)
                 else FillerLen(mk, place, p) <= |r.value|
  }

  /** What is asked for, brought within the bounds, and the most padding tried for it. */
  function Want(want: int, maxEntry: int): int {
    var w := if want > maxEntry then maxEntry else want;
    if w < 64 then 64 else w
  }

  function MostPad(want: int, maxEntry: int): int { if Want(want, maxEntry) > 1800 then 1800 else Want(want, maxEntry) }

  /**
    Between two probes: what lies below lo is too short, what lies above hi reaches, and r is the
    best of both ends.
   */
  ghost predicate Bracket(mk: Maker, place: nat, want: int, maxEntry: int, most: int, lo: nat, hi: int,
      r: Option<bytes>) {
    && (forall p: nat :: p < lo ==> FillerLen(mk, place, p) < want)
    && (forall p: nat :: hi < p <= most ==> FillerLen(mk, place, p) >= want)
    && if -1 <= hi < most && FillerLen(mk, place, hi + 1) <= maxEntry then r == mk.filler(hi + 1, place)
       else if lo > 0 then r == mk.filler(lo - 1, place) else r == None
  }

  lemma BracketShort(mk: Maker, place: nat, want: int, maxEntry: int, most: int, lo: nat, hi: int, r: Option<bytes>,
      mid: nat)
    requires Growing(mk, place, most) && Bracket(mk, place, want, maxEntry, most, lo, hi, r)
    requires lo <= mid <= hi <= most && FillerLen(mk, place, mid) < want <= maxEntry
    ensures var made := mk.filler(mid, place);
      Bracket(mk, place, want, maxEntry, most, mid + 1, hi, if r.None? || |made.value| >= |r.value| then made else r)
  {
    forall p: nat | p < mid + 1 ensures FillerLen(mk, place, p) < want {
      assert FillerLen(mk, place, p) <= FillerLen(mk, place, mid);
    }
    if lo > 0 { assert FillerLen(mk, place, lo - 1) <= FillerLen(mk, place, mid); }
  }

  lemma BracketReaches(mk: Maker, place: nat, want: int, maxEntry: int, most: int, lo: nat, hi: int, r: Option<bytes>,
      mid: nat)
    requires Growing(mk, place, most) && Bracket(mk, place, want, maxEntry, most, lo, hi, r)
    requires lo <= mid <= hi <= most && FillerLen(mk, place, mid) >= want
    ensures Bracket(mk, place, want, maxEntry, most, lo, mid - 1,
                    if FillerLen(mk, place, mid) <= maxEntry then mk.filler(mid, place) else r)
  {
    forall p: nat | mid - 1 < p <= most ensures FillerLen(mk, place, p) >= want {
      assert FillerLen(mk, place, mid) <= FillerLen(mk, place, p);
    }
    if hi < most { assert FillerLen(mk, place, mid) <= FillerLen(mk, place, hi + 1); }
  }

  lemma BracketCloses(mk: Maker, place: nat, want: int, maxEntry: int, most: int, lo: nat, hi: int, r: Option<bytes>)
    requires Growing(mk, place, most) && Bracket(mk, place, want, maxEntry, most, lo, hi, r)
    requires want > 0 && lo == hi + 1 && lo <= most + 1
    ensures Closest(mk, place, want, maxEntry, most, if r.Some? && r.value == [] then None else r)
  {
    forall p: nat | p <= most && FillerFits(mk, place, maxEntry, p)
      ensures r.Some? && if |r.value| >= want
                         then FillerLen(mk, place, p) < want || |r.value| <= FillerLen(mk, place, p)
                         else FillerLen(mk, place, p) <= |r.value|
    {
      if p < lo {
        assert FillerLen(mk, place, p) <= FillerLen(mk, place, lo - 1);
      } else {
        assert FillerLen(mk, place, lo) <= FillerLen(mk, place, p);
      }
    }
  }

  predicate MadeFor(mk: Maker, place: nat, filler: bytes) {
    filler != [] && exists pad :: 0 <= pad <= 1800 && mk.filler(pad, place) == Some(filler)
  }

  /** A filler of the search, within what is allowed. */
  predicate Allowed(mk: Maker, place: nat, maxEntry: int, r: Option<bytes>) {
    r.Some? ==> |r.value| <= maxEntry && exists pad :: 0 <= pad <= 1800 && mk.filler(pad, place) == r
  }

  /** What a probe of padding mid makes of the bracket. */
  lemma BracketNext(mk: Maker, place: nat, want: int, maxEntry: int, most: int, lo: nat, hi: int, r: Option<bytes>,
      mid: nat)
    requires lo <= mid <= hi <= most && want <= maxEntry
    ensures Growing(mk, place, most) && Bracket(mk, place, want, maxEntry, most, lo, hi, r) ==>
      var made := mk.filler(mid, place);
      made.Some? && if |made.value| < want
          then Bracket(mk, place, want, maxEntry, most, mid + 1, hi,
                       if r.None? || |made.value| >= |r.value| then made else r)
          else Bracket(mk, place, want, maxEntry, most, lo, mid - 1, if |made.value| <= maxEntry then made else r)
  {
    if Growing(mk, place, most) && Bracket(mk, place, want, maxEntry, most, lo, hi, r) {
      if FillerLen(mk, place, mid) < want {
        BracketShort(mk, place, want, maxEntry, most, lo, hi, r, mid);
      } else {
        BracketReaches(mk, place, want, maxEntry, most, lo, hi, r, mid);
      }
    }
  }

  /** One probe of the bisection. */
  method Probe(mk: Maker, place: nat, want: int, maxEntry: int, ghost most: int, lo: nat, hi: int, r: Option<bytes>)
    returns (lo': nat, hi': int, r': Option<bytes>)
    requires lo <= hi <= most <= 1800 && want <= maxEntry && Allowed(mk, place, maxEntry, r)
    ensures lo <= lo' <= hi' + 1 && hi' <= hi && hi' - lo' < hi - lo && Allowed(mk, place, maxEntry, r')
    ensures Growing(mk, place, most) && Bracket(mk, place, want, maxEntry, most, lo, hi, r) ==>
      Bracket(mk, place, want, maxEntry, most, lo', hi', r')
  {
    lo', hi', r' := lo, hi, r;
    var mid: nat := (lo + hi) / 2;
    var made := mk.filler(mid, place);
    BracketNext(mk, place, want, maxEntry, most, lo, hi, r, mid);
    if made.None? { hi' := mid - 1; return; }
    var n := |made.value|;
    assert Allowed(mk, place, maxEntry, made) || n > maxEntry;
    if n <= maxEntry {
      if r.None? || n >= |r.value| { r' := made; }
      if n < want { lo' := mid + 1; } else { r' := made; hi' := mid - 1; }
    } else {
      hi' := mid - 1;
    }
  }

  /**
    A filler no longer than allowed, by bisection on its padding; where more padding makes no
    shorter filler, the closest one.
   */
  method FitFiller(mk: Maker, want0: int, maxEntry: int, place: nat) returns (r: Option<bytes>)
    ensures r.Some? ==> 0 < |r.value| <= maxEntry && MadeFor(mk, place, r.value)
    ensures maxEntry < 64 ==> r == None
    ensures maxEntry >= 64 && Growing(mk, place, MostPad(want0, maxEntry)) ==>
      Closest(mk, place, Want(want0, maxEntry), maxEntry, MostPad(want0, maxEntry), r)
  {
    if maxEntry < 64 { return None; }
    var want := Want(want0, maxEntry);
    var lo: nat, hi := 0, if want > 1800 then 1800 else want;
    ghost var most := hi;
    r := None;
    while lo <= hi
      invariant lo <= hi + 1 && hi <= most <= 1800 && Allowed(mk, place, maxEntry, r)
      invariant Growing(mk, place, most) ==> Bracket(mk, place, want, maxEntry, most, lo, hi, r)
      decreases hi - lo
    {
      lo, hi, r := Probe(mk, place, want, maxEntry, most, lo, hi, r);
    }
    if Growing(mk, place, most) { BracketCloses(mk, place, want, maxEntry, most, lo, hi, r); }
    if r.Some? && r.value == [] { r := None; }
  }

  lemma MsgLenAppend(leaf: bytes, chain: seq<bytes>, c: bytes)
    ensures MsgLen(leaf, chain + [c]) == MsgLen(leaf, chain) + 5 + |c|
  {
    EntriesLenAppend([leaf] + chain, c);
    assert [leaf] + (chain + [c]) == [leaf] + chain + [c];
  }

  lemma {:induction false} EntriesLenAppend(certs: seq<bytes>, c: bytes)
    ensures EntriesLen(certs + [c]) == EntriesLen(certs) + 5 + |c|
  {
    if certs == [] {
      assert certs + [c] == [c] && [c][1..] == [];
    } else {
      EntriesLenAppend(certs[1..], c);
      assert (certs + [c])[1..] == certs[1..] + [c];
    }
  }

  /** Three, or as many as stand above the leaf in the target's chain if that is known and less. */
  function MostFillers(shape: Option<Shape>): (n: nat)
    ensures n <= 3
  {
    if shape.None? || shape.value.depth <= 0 || shape.value.depth > 3 then 3 else shape.value.depth - 1
  }

  /**
    How long the filler at a place should be when `need` bytes are missing: like the target's own,
    if known and short enough.
   */
  function FillerWanted(shape: Option<Shape>, place: nat, need: int): int {
    if shape.Some? && |shape.value.lens| > place + 1 && 64 < shape.value.lens[place + 1] < need - 8
    then shape.value.lens[place + 1] else need - 8
  }

  /** Filler i is the one closest to what is wanted at its place, and adds at least 48 bytes. */
  ghost predicate Chosen(mk: Maker, leaf: bytes, chain: seq<bytes>, target: int, shape: Option<Shape>, i: nat)
    requires i < |chain|
  {
    var need := target - MsgLen(leaf, chain[..i]);
    var want := FillerWanted(shape, i, need);
    && need >= 96 && 43 <= |chain[i]| <= need - 5 && MadeFor(mk, i, chain[i])
    && (Growing(mk, i, MostPad(want, need - 5)) ==>
          Closest(mk, i, Want(want, need - 5), need - 5, MostPad(want, need - 5), Some(chain[i])))
  }

  /**
    Why there is no further filler: the chain is as deep as the target's, the room is too small, or
    none worth adding fits.
   */
  ghost predicate NoFurther(mk: Maker, leaf: bytes, chain: seq<bytes>, target: int, shape: Option<Shape>) {
    var need := target - MsgLen(leaf, chain);
    var want := FillerWanted(shape, |chain|, need);
    || |chain| == MostFillers(shape)
    || need < 96
    || (Growing(mk, |chain|, MostPad(want, need - 5)) ==>
          forall p: nat :: p <= MostPad(want, need - 5) && FillerFits(mk, |chain|, need - 5, p) ==>
            FillerLen(mk, |chain|, p) < 43)
  }

  ghost predicate FillersDone(mk: Maker, leaf: bytes, chain: seq<bytes>, target: int, shape: Option<Shape>) {
    && |chain| <= MostFillers(shape) && NoFurther(mk, leaf, chain, target, shape)
    && forall i :: 0 <= i < |chain| ==> Chosen(mk, leaf, chain, target, shape, i)
  }

  /**
    The numbers of the search, where at least 96 bytes are missing: a filler is wanted 8 bytes shorter
    than that, or as long as the target's own at that place if that is known, above 64 and shorter
    still; its padding goes up to that many bytes, at most 1800. The bounds 64 and `maxEntry` of the
    search never come into it.
   */
  lemma FillerNumbers(shape: Option<Shape>, place: nat, need: int)
    requires need >= 96
    ensures var want := FillerWanted(shape, place, need);
      && (match shape
          case None => want == need - 8
          case Some(s) =>
            var known := place + 1 < |s.lens| && s.lens[place + 1] > 64 && s.lens[place + 1] < need - 8;
            want == if known then s.lens[place + 1] else need - 8)
      && Want(want, need - 5) == want && MostPad(want, need - 5) == (if want <= 1800 then want else 1800)
  {
  }

  /** The depth in numbers: the target's certificates above its leaf, at most three; three where it is not known. */
  lemma DepthNumbers(shape: Option<Shape>)
    ensures MostFillers(shape) ==
      match shape
      case None => 3
      case Some(s) => if s.depth == 1 then 0 else if s.depth == 2 then 1 else if s.depth == 3 then 2 else 3
  {
  }

  /** Fillers up to the depth of the target's chain, while they fit and still add something. */
  method AddFillers(mk: Maker, leaf: bytes, cur0: nat, target: int, shape: Option<Shape>)
    returns (chain: seq<bytes>, cur: nat)
    requires cur0 == MsgLen(leaf, [])
    ensures cur == MsgLen(leaf, chain) && (chain != [] ==> cur <= target) && FillersDone(mk, leaf, chain, target, shape)
  {
    var most := 3;
    if shape.Some? && shape.value.depth > 0 && shape.value.depth - 1 < most { most := shape.value.depth - 1; }
    chain, cur := [], cur0;
    while |chain| < most && cur < target
      invariant most == MostFillers(shape) && |chain| <= most && cur == MsgLen(leaf, chain)
        && (chain != [] ==> cur <= target)
      invariant forall i :: 0 <= i < |chain| ==> Chosen(mk, leaf, chain, target, shape, i)
      decreases most - |chain|
    {
      var made := NextFiller(mk, leaf, chain, cur, target, shape);
      if made.None? { break; }
      MsgLenAppend(leaf, chain, made.value);
      ChosenStay(mk, leaf, chain, target, shape, made.value);
      var n := EstimateCertMsgLen(leaf, chain + [made.value]);
      chain, cur := chain + [made.value], n;
    }
  }

  /** The next filler, if one is worth adding. */
  method NextFiller(mk: Maker, leaf: bytes, chain: seq<bytes>, cur: nat, target: int, shape: Option<Shape>)
    returns (r: Option<bytes>)
    requires cur == MsgLen(leaf, chain) && cur < target
    ensures r.None? ==> NoFurther(mk, leaf, chain, target, shape)
    ensures r.Some? ==> Chosen(mk, leaf, chain + [r.value], target, shape, |chain|) && cur + 5 + |r.value| <= target
  {
    var need := target - cur;
    if need < 96 { return None; }
    var want := need - 8;
    if shape.Some? && |shape.value.lens| > |chain| + 1 {
      var hint := shape.value.lens[|chain| + 1];
      if 64 < hint < want { want := hint; }
    }
    r := FitFiller(mk, want, need - 5, |chain|);
    if r.None? { return; }
    MsgLenAppend(leaf, chain, r.value);
    var n := EstimateCertMsgLen(leaf, chain + [r.value]);
    if n - cur < 48 { return None; }
    assert (chain + [r.value])[..|chain|] == chain;
  }

  lemma ChosenStay(mk: Maker, leaf: bytes, chain: seq<bytes>, target: int, shape: Option<Shape>, c: bytes)
    requires forall i :: 0 <= i < |chain| ==> Chosen(mk, leaf, chain, target, shape, i)
    ensures forall i :: 0 <= i < |chain| ==> Chosen(mk, leaf, chain + [c], target, shape, i)
  {
    forall i | 0 <= i < |chain| ensures Chosen(mk, leaf, chain + [c], target, shape, i) {
      assert Chosen(mk, leaf, chain, target, shape, i);
      assert (chain + [c])[..i] == chain[..i] && (chain + [c])[i] == chain[i];
    }
  }

  /** Whether a leaf with an extension of this length can be used. */
  predicate LeafFits(mk: Maker, mldsa: bool, chain: seq<bytes>, target: int, ext: nat) {
    mk.leaf(ext, 0).Some? && (mldsa ==> mk.mldsaAt(mk.leaf(ext, 0).value) >= 0)
      && MsgLen(mk.leaf(ext, 0).value, chain) <= target
  }

  /** A leaf that makes the message exactly as long as the target can be used; a byte less of target, and it cannot. */
  lemma LeafFitsExactly(mk: Maker, mldsa: bool, chain: seq<bytes>, ext: nat)
    requires mk.leaf(ext, 0).Some? && (mldsa ==> mk.mldsaAt(mk.leaf(ext, 0).value) >= 0)
    ensures var n := MsgLen(mk.leaf(ext, 0).value, chain);
      LeafFits(mk, mldsa, chain, n, ext) && !LeafFits(mk, mldsa, chain, n - 1, ext)
  {
  }

  /** The lengths that can be used come before those that cannot. */
  ghost predicate Ordered(mk: Maker, mldsa: bool, chain: seq<bytes>, target: int, lo: int, hi: int) {
    forall a: nat, b: nat :: lo <= a < b <= hi && LeafFits(mk, mldsa, chain, target, b) ==>
      LeafFits(mk, mldsa, chain, target, a)
  }

  lemma NoneAbove(mk: Maker, mldsa: bool, chain: seq<bytes>, target: int, lo: int, hi: int, mid: nat)
    requires Ordered(mk, mldsa, chain, target, lo, hi) && lo <= mid <= hi && !LeafFits(mk, mldsa, chain, target, mid)
    ensures forall e: nat :: mid <= e <= hi ==> !LeafFits(mk, mldsa, chain, target, e)
  {
    forall e: nat | mid <= e <= hi ensures !LeafFits(mk, mldsa, chain, target, e) {
      assert e > mid ==> (LeafFits(mk, mldsa, chain, target, e) ==> LeafFits(mk, mldsa, chain, target, mid));
    }
  }

  /** Bisection for the longest extension that fits. */
  method LongestExtension(mk: Maker, mldsa: bool, chain: seq<bytes>, target: int, lo0: nat, hi0: int)
    returns (best: Option<nat>)
    ensures best.Some? ==> lo0 <= best.value <= hi0 && LeafFits(mk, mldsa, chain, target, best.value)
    ensures Ordered(mk, mldsa, chain, target, lo0, hi0) ==>
      forall e: nat :: lo0 <= e <= hi0 && LeafFits(mk, mldsa, chain, target, e) ==> best.Some? && e <= best.value
  {
    best := None;
    var lo: nat, hi := lo0, hi0;
    while lo <= hi
      invariant lo0 <= lo && hi <= hi0
      invariant best.Some? ==>
        lo0 <= best.value <= hi0 && best.value < lo && LeafFits(mk, mldsa, chain, target, best.value)
      invariant best.Some? ==> lo == best.value + 1
      invariant best.None? ==> lo == lo0
      invariant Ordered(mk, mldsa, chain, target, lo0, hi0) ==>
        forall e: nat :: hi < e <= hi0 ==> !LeafFits(mk, mldsa, chain, target, e)
      decreases hi - lo
    {
      var mid: nat := (lo + hi) / 2;
      var made := mk.leaf(mid, 0);
      if Ordered(mk, mldsa, chain, target, lo0, hi0) && !LeafFits(mk, mldsa, chain, target, mid) {
        NoneAbove(mk, mldsa, chain, target, lo0, hi0, mid);
      }
      if made.None? || (mldsa && mk.mldsaAt(made.value) < 0) { hi := mid - 1; continue; }
      var n := EstimateCertMsgLen(made.value, chain);
      if n <= target {
        best := Some(mid);
        lo := mid + 1;
      } else {
        hi := mid - 1;
      }
    }
  }

  /**
    The lengths tried for the extension, when `need` bytes are missing; with a signature in it, its
    slot comes on top.
   */
  function ExtRange(mldsa: bool, need: int): (nat, int) {
    var most := if need - 8 > 4000 then 4000 else need - 8;
    if !mldsa then (8, most) else (MLDSA_LEN + 8, MLDSA_LEN + if most < 8 then 8 else most)
  }

  /**
    The leaf with an extension of `best` bytes, or as it was: the range of lengths depends on how many
    bytes are missing, and where the lengths that fit come first the longest of them is taken.
   */
  ghost predicate ExtensionDone(mk: Maker, mldsa: bool, leaf0: bytes, chain: seq<bytes>, target: int, leaf: bytes,
                                best: Option<nat>)
  {
    var need := target - MsgLen(leaf0, chain);
    var (lo, hi) := ExtRange(mldsa, need);
    && (best.None? ==> leaf == leaf0)
    && (best.Some? ==>
          mk.leaf(best.value, 0) == Some(leaf) && LeafFits(mk, mldsa, chain, target, best.value)
            && lo <= best.value <= hi)
    && (need <= 16 ==> best == None)
    && (need > 16 && Ordered(mk, mldsa, chain, target, lo, hi) ==>
          forall e: nat :: lo <= e <= hi && LeafFits(mk, mldsa, chain, target, e) ==> best.Some? && e <= best.value)
  }

  /** The extension as long as the rest of the target allows; the slot of a signature in it is kept. */
  method PadExtension(mk: Maker, mldsa: bool, leaf0: bytes, chain: seq<bytes>, cur: nat, target: int)
    returns (leaf: bytes, best: Option<nat>)
    requires cur == MsgLen(leaf0, chain)
    ensures leaf == leaf0 || MsgLen(leaf, chain) <= target
    ensures ExtensionDone(mk, mldsa, leaf0, chain, target, leaf, best)
  {
    leaf, best := leaf0, None;
    if cur >= target { return; }
    var need := target - cur;
    if need <= 16 { return; }
    var lo: nat, hi := 8, need - 8;
    if hi > 4000 { hi := 4000; }
    if mldsa {
      lo, hi := MLDSA_LEN + 8, MLDSA_LEN + (need - 8);
      if hi > MLDSA_LEN + 4000 { hi := MLDSA_LEN + 4000; }
      if hi < lo { hi := lo; }
    }
    best := LongestExtension(mk, mldsa, chain, target, lo, hi);
    if best.Some? { leaf := mk.leaf(best.value, 0).value; }
  }

  /** The range of extensions in numbers; a signature's 3309 bytes come on top. */
  lemma RangeNumbers(mldsa: bool, need: int)
    requires need > 16
    ensures var (lo, hi) := ExtRange(mldsa, need);
      var base := if mldsa then 3309 else 0;
      lo == base + 8 && hi == base + (if need <= 4008 then need - 8 else 4000) && lo <= hi
  {
  }

  /** A leaf with a longer extension keeps its place for a signature, and keeps to the target. */
  lemma ExtensionKeeps(mk: Maker, mldsa: bool, leaf0: bytes, chain: seq<bytes>, target: int, leaf: bytes,
      best: Option<nat>)
    requires ExtensionDone(mk, mldsa, leaf0, chain, target, leaf, best) && best.Some?
    ensures MsgLen(leaf, chain) <= target && (mldsa ==> mk.mldsaAt(leaf) >= 0)
  {
  }

  /** The three stages: subject, unless the target's own is imitated, then fillers, then extension. */
  ghost predicate Stages(mk: Maker, mldsa: bool, leaf0: bytes, target: int, shape: Option<Shape>, leaf1: bytes,
      pad: nat,
                         best: Option<nat>, leaf: bytes, chain: seq<bytes>)
  {
    && (if mk.hasMeta then leaf1 == leaf0
        else SubjectDone(mk, if mldsa then MLDSA_LEN else 0, leaf0, target, leaf1, pad))
    && FillersDone(mk, leaf1, chain, target, shape)
    && ExtensionDone(mk, mldsa, leaf1, chain, target, leaf, best)
  }

  /** A certificate below its target goes through the stages, one that reaches it stays as it is. */
  ghost predicate GrownFully(mk: Maker, mldsa: bool, leaf0: bytes, target: int, shape: Option<Shape>, leaf: bytes,
                             chain: seq<bytes>)
  {
    if MsgLen(leaf0, []) >= target then leaf == leaf0 && chain == []
    else exists leaf1, pad, best :: Stages(mk, mldsa, leaf0, target, shape, leaf1, pad, best, leaf, chain)
  }

  method GrowCertsToward(mk: Maker, mldsa: bool, leaf0: bytes, target: int, shape: Option<Shape>)
    returns (leaf: bytes, chain: seq<bytes>)
    ensures Grown(leaf0, leaf, chain, target) && |chain| <= MostFillers(shape)
    ensures GrownFully(mk, mldsa, leaf0, target, shape, leaf, chain)
  {
    leaf, chain := leaf0, [];
    var cur := EstimateCertMsgLen(leaf, chain);
    if cur >= target { return; }
    var pad: nat := 0;
    if !mk.hasMeta { leaf, cur, pad := PadSubject(mk, if mldsa then MLDSA_LEN else 0, leaf, target); }
    ghost var leaf1 := leaf;
    chain, cur := AddFillers(mk, leaf, cur, target, shape);
    var best;
    leaf, best := PadExtension(mk, mldsa, leaf, chain, cur, target);
    assert Stages(mk, mldsa, leaf0, target, shape, leaf1, pad, best, leaf, chain);
  }

  /**
    So where a certificate comes out of growth as it went in, there was no room: it had reached its
    target, or neither a filler nor an extension of any length tried could be used, nor the first
    step of subject padding.
   */
  lemma NothingLeftToGrow(mk: Maker, mldsa: bool, leaf0: bytes, target: int, shape: Option<Shape>, leaf: bytes,
      chain: seq<bytes>)
    requires GrownFully(mk, mldsa, leaf0, target, shape, leaf, chain) && chain == []
    requires MsgLen(leaf0, []) < target && mk.hasMeta
    ensures NoFurther(mk, leaf0, [], target, shape)
    ensures var need := target - MsgLen(leaf0, []);
      var (lo, hi) := ExtRange(mldsa, need);
      need > 16 && Ordered(mk, mldsa, [], target, lo, hi) ==>
        forall e: nat :: lo <= e <= hi && LeafFits(mk, mldsa, [], target, e) ==>
          exists best: nat :: e <= best && mk.leaf(best, 0) == Some(leaf)
  {
  }

  /** Leaves whose length is the sum of what goes into them, and no fillers. */
  function PlainMaker(base: nat): Maker {
    Maker((ext: nat, pad: nat) => Some(Zeros(base + ext + pad)), (pad: nat, place: nat) => None, der => None, der => -1,
      false)
  }

  lemma LoneLeaf(leaf: bytes)
    ensures MsgLen(leaf, []) == 13 + |leaf|
  {
    assert [leaf] + [] == [leaf] && [leaf][1..] == [];
    assert EntriesLen([leaf][1..]) == 0;
  }

  /**
    The last stage makes its leaf without the subject padding of the first, so it can end with a
    shorter certificate than it was given, further from the target.
   */
  lemma ExtensionCanShrink(base: nat, need: nat, leaf: bytes, best: Option<nat>)
    requires 16 < need < 256
    requires ExtensionDone(PlainMaker(base), false, Zeros(base + 256), [], 13 + base + 256 + need, leaf, best)
    ensures MsgLen(leaf, []) < MsgLen(Zeros(base + 256), [])
  {
    var mk, target := PlainMaker(base), 13 + base + 256 + need;
    forall n: nat ensures MsgLen(Zeros(n), []) == 13 + n { LoneLeaf(Zeros(n)); }
    assert forall e: nat :: e <= need - 8 ==> LeafFits(mk, false, [], target, e);
    assert Ordered(mk, false, [], target, 8, need - 8);
    assert LeafFits(mk, false, [], target, need - 8);
  }

  /** What growth aims at, some bytes below the most; 0 when there is no room worth using. */
  function Target(mode: byte, budget: int): int {
    if MaxInner(mode, budget) > 256 + SAFETY then MaxInner(mode, budget) - SAFETY else 0
  }

  /** What growth aims at in numbers. */
  lemma TargetNumbers(budget: int)
    ensures Target(Record.SPLIT, budget) == if budget > 310 then budget - 54 else 0
    ensures Target(Record.COALESCED, budget) == if budget > 288 then budget - 32 else 0
  {
  }

  /** A plan is grown within its budget, or it is the minimal leaf. */
  method BuildCertPlan(mk: Maker, budget: int, mldsa: bool, mode: byte, shape: Option<Shape>) returns (r: Option<Plan>)
    ensures r.Some? ==> r.value.Sound() && r.value.hmacAt == HmacAt(r.value.leaf, mk.signature(r.value.leaf))
    ensures r.Some? ==> |r.value.chain| <= MostFillers(shape)
    ensures r.Some? ==>
      (Target(mode, budget) > 0 && r.value.inner <= MaxInner(mode, budget))
      || (r.value.chain == [] && mk.leaf(if mldsa then MLDSA_LEN else 0, 0) == Some(r.value.leaf))
    ensures r.Some? ==>
      && mk.leaf(if mldsa then MLDSA_LEN else 0, 0).Some?
      && var leaf0, target := mk.leaf(if mldsa then MLDSA_LEN else 0, 0).value, Target(mode, budget);
        if target == 0 then r.value.leaf == leaf0 && r.value.chain == []
        else GrownFully(mk, mldsa, leaf0, target, shape, r.value.leaf, r.value.chain)
  {
    var ext := if mldsa then MLDSA_LEN else 0;
    var made := mk.leaf(ext, 0);
    if made.None? { return None; }
    var leaf, chain: seq<bytes> := made.value, [];
    var target := Target(mode, budget);
    if target > 0 {
      leaf, chain := GrowCertsToward(mk, mldsa, leaf, target, shape);
      var inner := EstimateCertMsgLen(leaf, chain);
      if inner > MaxInner(mode, budget) {
        made := mk.leaf(ext, 0);
        leaf, chain := made.value, [];
      }
    }
    var hmacAt := LocateHmac(leaf, mk.signature(leaf));
    if hmacAt < 0 { return None; }
    HmacPlace(leaf, mk.signature(leaf), 0);
    var mldsaAt := if mldsa && mk.mldsaAt(leaf) >= 0 then mk.mldsaAt(leaf) else -1;
    var inner := EstimateCertMsgLen(leaf, chain);
    return Some(Plan(leaf, chain, hmacAt, mldsaAt, inner));
  }

  /** Part of a string replaced by another of the same length. */
  function Overwrite(s: bytes, at: nat, b: bytes): (r: bytes)
    requires at + |b| <= |s|
    ensures |r| == |s|
  {
    s[..at] + b + s[at + |b|..]
  }

  /** The plan with its leaf filled in: a leaf of the same length ahead of the same fillers. */
  predicate Filled(p: Plan, certs: seq<bytes>) { certs != [] && |certs[0]| == |p.leaf| && certs[1..] == p.chain }

  /** So the Certificate message is as long as planned. */
  lemma FilledLength(p: Plan, certs: seq<bytes>)
    requires p.Exact() && Filled(p, certs)
    ensures |CertificateMsg(certs).result| == p.inner && CertificateMsg(certs).result[0] == Record.CERTIFICATE
  {
    assert certs == [certs[0]] + p.chain;
    EstimateIsExact(certs[0], p.chain);
    assert ([certs[0]] + p.chain)[1..] == p.chain == ([p.leaf] + p.chain)[1..];
  }

  /** Where the authenticator is written: the last bytes of the leaf when the planned place is none. */
  function MacPlace(p: Plan): int {
    if p.hmacAt < 0 || p.hmacAt + MAC_LEN > |p.leaf| then |p.leaf| - MAC_LEN else p.hmacAt
  }

  /**
    The authenticator always lies within the leaf: at the planned place if it fits there, in the
    last 64 bytes otherwise.
   */
  lemma MacFits(p: Plan)
    requires p.Roomy()
    ensures 0 <= MacPlace(p) && MacPlace(p) + 64 <= |p.leaf|
    ensures 0 <= p.hmacAt && p.hmacAt + 64 <= |p.leaf| ==> MacPlace(p) == p.hmacAt
    ensures p.hmacAt < 0 || p.hmacAt + 64 > |p.leaf| ==> MacPlace(p) == |p.leaf| - 64
  {
  }

  /** For a plan as it is built that is where its signature stands. */
  lemma MacReplacesSignature(p: Plan, sig: bytes, j: int)
    requires p.Roomy() && |sig| == 64 && p.hmacAt == HmacAt(p.leaf, Some(sig)) && StandsAt(p.leaf, sig, j)
    ensures StandsAt(p.leaf, sig, MacPlace(p)) && j <= MacPlace(p)
  {
    HmacPlace(p.leaf, Some(sig), j);
    MacFits(p);
  }

  /** Nothing outside n bytes from `at` on differs. */
  predicate SameOutside(s: bytes, t: bytes, at: int, n: nat) {
    |s| == |t| && forall i :: 0 <= i < |s| && !(at <= i < at + n) ==> s[i] == t[i]
  }

  lemma Overwritten(s: bytes, at: nat, b: bytes)
    requires at + |b| <= |s|
    ensures StandsAt(Overwrite(s, at, b), b, at) && SameOutside(s, Overwrite(s, at, b), at, |b|)
  {
  }

  /** Whether a signature is written as well. */
  predicate Signs(p: Plan, signature: Option<bytes>) { signature.Some? && p.mldsaAt >= 0 }

  /** Authenticator and signature are written into the leaf at their places, nothing else changes, and no length. */
  method Materialize(p: Plan, mac: bytes, signature: Option<bytes>) returns (r: Option<seq<bytes>>)
    requires |mac| == MAC_LEN && (signature.Some? ==> |signature.value| == MLDSA_LEN) && (p.leaf == [] || p.Roomy())
    ensures r.None? <==> p.leaf == [] || (Signs(p, signature) && p.mldsaAt + MLDSA_LEN > |p.leaf|)
    ensures r.Some? ==> Filled(p, r.value) && (p.Exact() ==> |CertificateMsg(r.value).result| == p.inner)
    ensures r.Some? && !Signs(p, signature) ==>
      StandsAt(r.value[0], mac, MacPlace(p)) && SameOutside(p.leaf, r.value[0], MacPlace(p), MAC_LEN)
    ensures r.Some? && Signs(p, signature) ==>
      && StandsAt(r.value[0], signature.value, p.mldsaAt)
      && exists leaf :: StandsAt(leaf, mac, MacPlace(p)) && SameOutside(p.leaf, leaf, MacPlace(p), MAC_LEN)
                     && SameOutside(leaf, r.value[0], p.mldsaAt, MLDSA_LEN)
  {
    if p.leaf == [] { return None; }
    var off := if p.hmacAt < 0 || p.hmacAt + MAC_LEN > |p.leaf| then |p.leaf| - MAC_LEN else p.hmacAt;
    var leaf := Overwrite(p.leaf, off, mac);
    Overwritten(p.leaf, off, mac);
    if signature.Some? && p.mldsaAt >= 0 {
      if p.mldsaAt + MLDSA_LEN > |leaf| { return None; }
      Overwritten(leaf, p.mldsaAt, signature.value);
      leaf := Overwrite(leaf, p.mldsaAt, signature.value);
    }
    r := Some([leaf] + p.chain);
    assert r.value[1..] == p.chain;
    if p.Exact() { FilledLength(p, r.value); }
  }

  // ---------------------------------------------------------------- the cache of plans

  datatype PlanKey = PlanKey(budget: int, mldsa: bool, mode: byte, meta: nat)

  /** The historical certificate, one per kind; none if the program failed to start up. */
  datatype Fallback = Fallback(plain: Option<Plan>, pq: Option<Plan>)
  {
    function Of(mldsa: bool): Option<Plan> { if plain.None? then None else if mldsa && pq.Some? then pq else plain }
  }

  /**
    Without a plain certificate there is no fallback; the one with a signature serves only where a
    signature is asked for.
   */
  lemma FallbackKinds(f: Fallback, mldsa: bool)
    ensures f.plain.None? ==> f.Of(mldsa) == None
    ensures f.plain.Some? ==>
      f.Of(false) == f.plain && f.Of(true) == (match f.pq case None => f.plain case Some(p) => Some(p))
  {
  }

  lemma OneLess(m: map<PlanKey, Plan>, k: PlanKey)
    requires k in m
    ensures |m - {k}| == |m| - 1
  {
    assert m.Keys == (m - {k}).Keys + {k};
  }

  lemma OneMore(m: map<PlanKey, Plan>, k: PlanKey, p: Plan)
    ensures |m[k := p]| <= |m| + 1
  {
    assert m[k := p].Keys == m.Keys + {k};
  }

  class PlanCache {
    var plans: map<PlanKey, Plan>
    const fallback: Fallback

    /** A cached plan has the length it says, room for the authenticator, and fits the budget it is cached under. */
    ghost predicate Valid()
      reads this
    {
      |plans| <= CACHE_MAX && forall k :: k in plans ==> plans[k].Sound() && Fits(k.mode, plans[k], k.budget)
    }

    constructor (fallback: Fallback)
      ensures Valid() && plans == map[] && this.fallback == fallback
    {
      plans := map[];
      this.fallback := fallback;
    }

    method Remember(key: PlanKey, p: Plan)
      requires Valid() && p.Sound() && Fits(key.mode, p, key.budget)
      modifies this
      ensures Valid() && key in plans && plans[key] == p
    {
      if |plans| >= CACHE_MAX {
        var stale :| stale in plans;
        OneLess(plans, stale);
        plans := plans - {stale};
      }
      OneMore(plans, key, p);
      plans := plans[key := p];
    }

    /** A plan for a budget: cached, built, or the historical one where that is shorter. */
    method GetCertPlan(mk: Maker, budget0: int, mldsa: bool, mode: byte, meta: nat, shape: Option<Shape>)
      returns (p: Option<Plan>)
      requires Valid()
      modifies this
      ensures Valid()
      ensures p.Some? && (fallback.Of(mldsa).Some? ==> fallback.Of(mldsa).value.Sound()) ==> p.value.Sound()
      ensures fallback.Of(mldsa).Some? ==>
        p.Some? && (Fits(mode, p.value, budget0) || p.value.inner <= fallback.Of(mldsa).value.inner)
    {
      var budget := if budget0 < 0 then 0 else budget0;
      var key := PlanKey(budget, mldsa, mode, meta);
      if key in plans { return Some(plans[key]); }
      var built := BuildCertPlan(mk, budget, mldsa, mode, shape);
      if built.None? { return fallback.Of(mldsa); }
      p := built;
      if !Fits(mode, p.value, budget) {
        var least := fallback.Of(mldsa);
        if least.Some? && least.value.inner < p.value.inner { p := least; }
        return;
      }
      Remember(key, p.value);
    }

    /** The plan the server sends: whatever fits, else the historical one. */
    method ServerPlan(mk: Maker, budget: int, mldsa: bool, mode: byte, meta: nat, shape: Option<Shape>)
      returns (p: Option<Plan>)
      requires Valid()
      modifies this
      ensures Valid()
      ensures fallback.Of(mldsa).Some? ==> p.Some?
      ensures p.Some? && budget > 0 ==> Fits(mode, p.value, budget) || p == fallback.Of(mldsa)
      ensures fallback.Of(mldsa).Some? && Fits(mode, fallback.Of(mldsa).value, budget) ==>
        p.Some? && Fits(mode, p.value, budget)
      ensures p.Some? && (fallback.Of(mldsa).Some? ==> fallback.Of(mldsa).value.Sound()) ==> p.value.Sound()
    {
      p := GetCertPlan(mk, budget, mldsa, mode, meta, shape);
      if p.Some? && budget > 0 && !Fits(mode, p.value, budget) { p := fallback.Of(mldsa); }
    }
  }
}
