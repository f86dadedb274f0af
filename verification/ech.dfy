/**
  Encrypted ClientHello: the inner hello is sent without its session id and with the extensions it
  shares with the outer hello replaced by their types (section 5.1 of draft-ietf-tls-esni-18).
  Decoding restores exactly the message the client hashed.
 */
module Ech {
  import opened Wire
  import opened Extensions
  import opened ClientHello
  import opened ClientHelloRoundTrip
  import opened PskBinders

  const VERSION_TLS13: u16 := 0x0304
  const INNER_ECH_EXT: byte := 1

  datatype EchError = InvalidInner | MalformedOuter | InvalidOuterExtensions | TooLong
                    | InvalidReconstructed | InvalidEchExt | UnsupportedVersions | NoTls13

  datatype Result<+T> = Ok(value: T) | Err(error: EchError)

  // ---------------------------------------------------------------- encoding

  /** What the draft asks to add so that the name's length stays hidden. */
  function NamePadding(nameLen: nat, maxNameLength: nat): nat {
    if nameLen != 0 then (if maxNameLength > nameLen then maxNameLength - nameLen else 0) else maxNameLength + 9
  }

  /** The padding actually written behind a hello of n > 0 bytes. */
  function PaddingLen(n: nat, nameLen: nat, maxNameLength: nat): nat
    requires n > 0
  {
    31 - (n + NamePadding(nameLen, maxNameLength) - 1) % 32
  }

  function EncodeInner(inner: Hello, maxNameLength: nat): Option<bytes> {
    PadMessage(MarshalMsg(inner, true), |inner.serverName|, maxNameLength)
  }

  /** The message without its header, padded. */
  function PadMessage(h: Option<bytes>, nameLen: nat, maxNameLength: nat): Option<bytes> {
    if h.None? || |h.value| <= 4 then None
      else Some(h.value[4..] + Zeros(PaddingLen(|h.value| - 4, nameLen, maxNameLength)))
  }

  /**
    The encoding is a multiple of 32 bytes, as section 6.1.3 of the draft asks, exactly when what is
    to hide the name is: what is missing from the name to the longest allowed, and 9 more than that
    when there is no name. The code drops it instead of adding it.
   */
  lemma EncodedLength(inner: Hello, maxNameLength: nat)
    requires EncodeInner(inner, maxNameLength).Some?
    ensures |EncodeInner(inner, maxNameLength).value| % 32 == 0 <==> NameHidden(|inner.serverName|, maxNameLength, 0)
  {
    NamePaddingIs(|inner.serverName|, maxNameLength, 0);
    PaddedLength(MarshalMsg(inner, true), |inner.serverName|, maxNameLength);
  }

  /** What hides the name would bring n bytes to a multiple of 32. */
  predicate NameHidden(nameLen: nat, maxNameLength: nat, n: nat) {
    if nameLen == 0 then (n + maxNameLength + 9) % 32 == 0
    else if nameLen >= maxNameLength then n % 32 == 0
    else (n + (maxNameLength - nameLen)) % 32 == 0
  }

  lemma NamePaddingIs(nameLen: nat, maxNameLength: nat, n: nat)
    ensures NameHidden(nameLen, maxNameLength, n) <==> (n + NamePadding(nameLen, maxNameLength)) % 32 == 0
  {
  }

  /**
    What is encoded is the message without its header and fewer than 32 zeros, which the padding for
    the name would complete.
   */
  lemma EncodedIs(inner: Hello, maxNameLength: nat)
    requires EncodeInner(inner, maxNameLength).Some?
    ensures var h := MarshalMsg(inner, true);
      && h.Some? && |h.value| > 4
      && var n := |EncodeInner(inner, maxNameLength).value|;
        && |h.value| - 4 <= n < |h.value| + 28 && NameHidden(|inner.serverName|, maxNameLength, n)
        && EncodeInner(inner, maxNameLength).value == h.value[4..] + Zeros(n - (|h.value| - 4))
  {
    PaddedIs(MarshalMsg(inner, true), |inner.serverName|, maxNameLength);
  }

  lemma PaddedIs(h: Option<bytes>, nameLen: nat, maxNameLength: nat)
    requires PadMessage(h, nameLen, maxNameLength).Some?
    ensures h.Some? && |h.value| > 4
    ensures var n := |PadMessage(h, nameLen, maxNameLength).value|;
      && |h.value| - 4 <= n < |h.value| + 28 && NameHidden(nameLen, maxNameLength, n)
      && PadMessage(h, nameLen, maxNameLength).value == h.value[4..] + Zeros(n - (|h.value| - 4))
  {
    RoundedUp(|h.value| - 4, NamePadding(nameLen, maxNameLength));
    NamePaddingIs(nameLen, maxNameLength, |PadMessage(h, nameLen, maxNameLength).value|);
  }

  lemma RoundedUp(n: nat, l: nat)
    requires n > 0
    ensures (n + (31 - (n + l - 1) % 32) + l) % 32 == 0
  {
    var q := (n + l - 1) / 32;
    assert n + (31 - (n + l - 1) % 32) + l == 32 * (q + 1);
  }

  lemma PaddedLength(h: Option<bytes>, nameLen: nat, maxNameLength: nat)
    requires PadMessage(h, nameLen, maxNameLength).Some?
    ensures |PadMessage(h, nameLen, maxNameLength).value| % 32 == 0 <==> NamePadding(nameLen, maxNameLength) % 32 == 0
  {
    RoundingUp(|h.value| - 4, NamePadding(nameLen, maxNameLength));
  }

  lemma RoundingUp(n: nat, l: nat)
    requires n > 0
    ensures (n + (31 - (n + l - 1) % 32)) % 32 == 0 <==> l % 32 == 0
  {
    var q := (n + l - 1) / 32;
    assert n + (31 - (n + l - 1) % 32) == 32 * (q + 1) - l;
    BelowMultiple(q + 1, l);
  }

  lemma BelowMultiple(k: int, l: nat)
    ensures (32 * k - l) % 32 == 0 <==> l % 32 == 0
  {
    var a, r := l / 32, l % 32;
    assert 32 * k - l == 32 * (k - a) - r;
  }

  // ---------------------------------------------------------------- decoding

  /** The extensions of the outer hello as they stand in its bytes. */
  function RawExtensions(outer: Hello): Result<seq<RawExt>> {
    if outer.original.None? || |outer.original.value| < 4 then Err(MalformedOuter) else
    match ReadFixed(outer.original.value[4..])
    case None => Err(MalformedOuter)
    case Some((_, s)) =>
      match ReadLP(2, s)
      case None => Err(MalformedOuter)
      case Some((x, _)) =>
        match DecList(DecExt, x)
        case None => Err(InvalidInner)
        case Some(es) => Ok(es)
  }

  /** The first place at or behind i whose extension has type t. */
  function Find(outer: seq<RawExt>, t: u16, i: nat): (j: nat)
    requires i <= |outer|
    ensures i <= j <= |outer|
    ensures j < |outer| ==> outer[j].typ == t
    ensures forall k :: i <= k < j ==> outer[k].typ != t
    decreases |outer| - i
  {
    if i == |outer| || outer[i].typ == t then i else Find(outer, t, i + 1)
  }

  /** Replaces a list of types by the outer extensions of those types, which must come in that order. */
  function Pick(s: bytes, outer: seq<RawExt>, i: nat): Result<seq<RawExt>>
    requires i <= |outer|
    decreases |s|
  {
    if s == [] then Ok([]) else
    match ReadU16(s)
    case None => Err(InvalidInner)
    case Some((t, rest)) =>
      if t == EXT_ECH then Err(InvalidOuterExtensions) else
      var j := Find(outer, t, i);
      if j == |outer| then Err(InvalidOuterExtensions) else
      match Pick(rest, outer, j)
      case Err(e) => Err(e)
      case Ok(es) => Ok([outer[j]] + es)
  }

  /** The extensions of the inner hello with the compressed ones put back. */
  function Expand(s: bytes, outer: seq<RawExt>): Result<seq<RawExt>>
    decreases |s|
  {
    if s == [] then Ok([]) else
    match DecExt(s)
    case None => Err(InvalidInner)
    case Some((e, rest)) =>
      match ExpandOne(e, outer)
      case Err(err) => Err(err)
      case Ok(es) =>
        match Expand(rest, outer)
        case Err(err) => Err(err)
        case Ok(es') => Ok(es + es')
  }

  function ExpandOne(e: RawExt, outer: seq<RawExt>): Result<seq<RawExt>> {
    if e.typ != EXT_ECH_OUTER_EXTENSIONS then Ok([e]) else
    match ReadLP(1, e.data)
    case None => Err(InvalidInner)
    case Some((ts, _)) => Pick(ts, outer, 0)
  }

  /** An extension copied from bytes. */
  function Copied(e: RawExt): Ext { Ext(e.typ, Of(e.data)) }

  function CopiedAll(es: seq<RawExt>): (r: seq<Ext>)
    ensures |r| == |es|
  {
    seq(|es|, i requires 0 <= i < |es| => Copied(es[i]))
  }

  /** The encoded hello: its fixed fields, its extensions and its padding. */
  datatype Parts = Parts(fixed: Fixed, extensions: bytes, padding: bytes)

  function ReadParts(encoded: bytes): Option<Parts> {
    match ReadFixed(encoded)
    case None => None
    case Some((f, s)) =>
      if f.sessionId != [] then None else
      match ReadLP(2, s)
      case None => None
      case Some((x, pad)) => Some(Parts(f, x, pad))
  }

  /** The inner hello in full, with the outer session id. */
  function Reconstruct(f: Fixed, sid: bytes, es: seq<RawExt>): Option<bytes> {
    Of([TYPE_CLIENT_HELLO]).AddLP(3,
      Of(f.versionAndRandom).AddLP(1, Of(sid)).AddLP(2, Of(f.suites)).AddLP(1, Of(f.compression))
      .AddLP(2, Items(EncExt, FitsExt, CopiedAll(es)))).Bytes()
  }

  /** Only TLS 1.3 and later may be offered, and TLS 1.3 must be; GREASE values do not count. */
  function CheckVersions(vs: seq<u16>, has13: bool): Option<EchError> {
    if vs == [] then (if has13 then None else Some(NoTls13))
    else if IsGrease(vs[0]) then CheckVersions(vs[1..], has13)
    else if vs[0] < VERSION_TLS13 then Some(UnsupportedVersions)
    else CheckVersions(vs[1..], has13 || vs[0] == VERSION_TLS13)
  }

  function Check(inner: Hello): Result<Hello> {
    if inner.ech != [INNER_ECH_EXT] then Err(InvalidEchExt) else
    match CheckVersions(inner.supportedVersions, false)
    case Some(e) => Err(e)
    case None => Ok(inner)
  }

  function DecodeInner(outer: Hello, encoded: bytes): Result<Hello> {
    match ReadParts(encoded)
    case None => Err(InvalidInner)
    case Some(p) =>
      if !AllZero(p.padding) then Err(InvalidInner) else DecodeParts(outer, p)
  }

  predicate AllZero(s: bytes) { forall i :: 0 <= i < |s| ==> s[i] == 0 }

  function DecodeParts(outer: Hello, p: Parts): Result<Hello> {
    match RawExtensions(outer)
    case Err(e) => Err(e)
    case Ok(raw) =>
      match Expand(p.extensions, raw)
      case Err(e) => Err(e)
      case Ok(es) => Finish(p.fixed, outer.sessionId, es)
  }

  /** Writes the inner hello out in full and reads it as any other. */
  function Finish(f: Fixed, sid: bytes, es: seq<RawExt>): Result<Hello> {
    match Reconstruct(f, sid, es)
    case None => Err(TooLong)
    case Some(data) =>
      match Parse(data)
      case None => Err(InvalidReconstructed)
      case Some(inner) => Check(inner)
  }

  // ---------------------------------------------------------------- compression loses nothing

  /** The two hellos agree on the nine fields whose extensions are compressed. */
  predicate SameBlock(a: Hello, b: Hello) {
    && a.ocspStapling == b.ocspStapling && a.supportedCurves == b.supportedCurves
    && a.sigAlgs == b.sigAlgs && a.sigAlgsCert == b.sigAlgsCert && a.alpn == b.alpn
    && a.supportedVersions == b.supportedVersions && a.cookie == b.cookie
    && a.keyShares == b.keyShares && a.pskModes == b.pskModes
  }

  /** No TLS 1.2 extension, as section 5.1 of the draft demands of an inner hello. */
  predicate NoTls12(m: Hello) {
    m.supportedPoints == [] && !m.ticketSupported && !m.renegotiationSupported && !m.extendedMasterSecret
  }

  lemma {:induction false} DecodeRaw(es: seq<Ext>)
    requires All(FitsExt, es)
    ensures DecList(DecExt, EncList(EncExt, es)) == Some(Raw(es))
  {
    if es != [] {
      FitsRest(es);
      DecodeRaw(es[1..]);
      DecodeNext(es[0], EncList(EncExt, es[1..]), Raw(es[1..]));
      RawCons(es);
    } else {
      assert Raw(es) == [];
    }
  }

  lemma FitsRest(es: seq<Ext>)
    requires es != [] && All(FitsExt, es)
    ensures FitsExt(es[0]) && All(FitsExt, es[1..])
  {
    assert forall i :: 0 < i < |es| ==> es[i] == es[1..][i - 1];
  }

  lemma RawCons(es: seq<Ext>)
    requires es != []
    ensures Raw(es) == [RawExt(es[0].typ, es[0].body.result)] + Raw(es[1..])
  {
  }

  lemma DecodeNext(e: Ext, rest: bytes, es: seq<RawExt>)
    requires FitsExt(e) && DecList(DecExt, rest) == Some(es)
    ensures DecList(DecExt, EncExt(e) + rest) == Some([RawExt(e.typ, e.body.result)] + es)
  {
    DecEncExt(e, rest);
  }

  ghost predicate DistinctRaw(es: seq<RawExt>) {
    forall i, j :: 0 <= i < j < |es| ==> es[i].typ != es[j].typ
  }

  /** Picking the types of a stretch of the outer extensions gives that stretch. */
  lemma {:induction false} PickStretch(outer: seq<RawExt>, i: nat, lo: nat, hi: nat)
    requires DistinctRaw(outer) && i <= lo <= hi <= |outer|
    requires forall k :: lo <= k < hi ==> outer[k].typ != EXT_ECH
    ensures Pick(EncList(EncU16, TypesOf(outer[lo..hi])), outer, i) == Ok(outer[lo..hi])
    decreases hi - lo
  {
    var ts := TypesOf(outer[lo..hi]);
    if lo < hi {
      assert ts[1..] == TypesOf(outer[lo + 1..hi]);
      ReadU16Put(ts[0], EncList(EncU16, ts[1..]));
      assert Find(outer, ts[0], i) == lo;
      PickStretch(outer, lo, lo + 1, hi);
      assert outer[lo..hi] == [outer[lo]] + outer[lo + 1..hi];
    } else {
      assert ts == [];
    }
  }

  // What the sections of an inner and an outer hello have in common.

  function Shared(m: Hello): seq<Ext> { Present(BlockRows(m)) }

  lemma SameShared(a: Hello, b: Hello)
    requires SameBlock(a, b)
    ensures Shared(a) == Shared(b)
  {
    assert BlockRows(a) == BlockRows(b);
  }

  lemma NoTls12Ext(m: Hello)
    requires NoTls12(m)
    ensures Present(Tls12Rows(m)) == []
  {
    var rows := Tls12Rows(m);
    assert Present(rows[4..]) == [];
    assert rows[3..][1..] == rows[4..] && rows[2..][1..] == rows[3..] && rows[1..][1..] == rows[2..];
    assert Present(rows[3..]) == [];
    assert Present(rows[2..]) == [];
    assert Present(rows[1..]) == [];
  }

  /** No type of these extensions is t. */
  ghost predicate Avoids(es: seq<Ext>, t: u16) { forall i :: 0 <= i < |es| ==> es[i].typ != t }

  /** What is known of the types: the shared block avoids the two ECH types, and no type comes twice. */
  lemma TypeFacts(m: Hello)
    ensures DistinctRaw(Raw(Exts(m, false)))
    ensures Avoids(Exts(m, false), EXT_ECH_OUTER_EXTENSIONS)
    ensures Avoids(Shared(m), EXT_ECH)
  {
    AlongTable(m, []);
    AlongBlock(m, []);
    RanksAlong(m, Table(m), 0, true);
    RanksAlong(m, BlockRows(m), 9, false);
    RankFacts(Exts(m, false), 0, 19, EXT_ECH_OUTER_EXTENSIONS);
    RankFacts(Shared(m), 9, 18, EXT_ECH);
  }

  lemma AvoidsOuter(m: Hello)
    ensures Avoids(Exts(m, false), EXT_ECH_OUTER_EXTENSIONS)
  {
    TypeFacts(m);
  }

  lemma RanksAlong(m: Hello, rows: seq<Row>, k: nat, final: bool)
    requires HelloPath(m, []).Along(rows, k, final)
    ensures Ranked(Rank, Present(rows), k, k + |rows|)
  {
    forall i | 0 <= i < |rows| ensures Rank(rows[i].typ) == k + i {
      assert HelloPath(m, []).Step(rows[i], k + i, final && i == |rows| - 1);
    }
    PresentRanked(Rank, rows, k);
  }

  lemma RankFacts(es: seq<Ext>, lo: nat, hi: nat, t: u16)
    requires Ranked(Rank, es, lo, hi) && !(lo <= Rank(t) < hi)
    ensures DistinctRaw(Raw(es)) && Avoids(es, t)
  {
    forall i, j | 0 <= i < j < |es| ensures Raw(es)[i].typ != Raw(es)[j].typ {
      assert Rank(es[i].typ) < Rank(es[j].typ);
    }
  }

  // Expanding a list of extensions.

  function ExpandSeq(es: seq<RawExt>, outer: seq<RawExt>): Result<seq<RawExt>> {
    if es == [] then Ok([]) else
    match ExpandOne(es[0], outer)
    case Err(err) => Err(err)
    case Ok(r) =>
      match ExpandSeq(es[1..], outer)
      case Err(err) => Err(err)
      case Ok(r') => Ok(r + r')
  }

  lemma {:induction false} ExpandIsSeq(s: bytes, es: seq<RawExt>, outer: seq<RawExt>)
    requires DecList(DecExt, s) == Some(es)
    ensures Expand(s, outer) == ExpandSeq(es, outer)
    decreases |s|
  {
    if s != [] {
      var rest := DecExt(s).value.1;
      ExpandIsSeq(rest, DecList(DecExt, rest).value, outer);
      assert es[1..] == DecList(DecExt, rest).value;
    }
  }

  lemma ExpandCons(e: RawExt, rest: seq<RawExt>, outer: seq<RawExt>)
    requires ExpandOne(e, outer).Ok? && ExpandSeq(rest, outer).Ok?
    ensures ExpandSeq([e] + rest, outer) == Ok(ExpandOne(e, outer).value + ExpandSeq(rest, outer).value)
  {
    assert ([e] + rest)[1..] == rest;
  }

  lemma RawAssociates(a: seq<RawExt>, b: seq<RawExt>, c: seq<RawExt>)
    ensures a + b + c == a + (b + c)
  {
  }

  lemma {:induction false} ExpandAppend(a: seq<RawExt>, b: seq<RawExt>, outer: seq<RawExt>)
    requires ExpandSeq(a, outer).Ok? && ExpandSeq(b, outer).Ok?
    ensures ExpandSeq(a + b, outer) == Ok(ExpandSeq(a, outer).value + ExpandSeq(b, outer).value)
  {
    if a == [] {
      assert a + b == b;
      assert [] + ExpandSeq(b, outer).value == ExpandSeq(b, outer).value;
    } else {
      ExpandAppend(a[1..], b, outer);
      ExpandCons(a[0], a[1..] + b, outer);
      RawAssociates([a[0]], a[1..], b);
      assert a == [a[0]] + a[1..];
      RawAssociates(ExpandOne(a[0], outer).value, ExpandSeq(a[1..], outer).value, ExpandSeq(b, outer).value);
    }
  }

  lemma ExpandSingle(e: RawExt, outer: seq<RawExt>)
    ensures ExpandSeq([e], outer) == ExpandOne(e, outer)
  {
    var r := ExpandOne(e, outer);
    assert r.Ok? ==> r.value + [] == r.value;
    assert [e][1..] == [];
  }

  lemma {:induction false} ExpandPlain(es: seq<RawExt>, outer: seq<RawExt>)
    requires forall i :: 0 <= i < |es| ==> es[i].typ != EXT_ECH_OUTER_EXTENSIONS
    ensures ExpandSeq(es, outer) == Ok(es)
  {
    if es != [] {
      ExpandPlain(es[1..], outer);
      assert es == [es[0]] + es[1..];
    }
  }

  /** The stand-in expands to the stretch of the outer hello it stands for. */
  lemma ExpandStandIn(es: seq<Ext>, outer: seq<RawExt>, lo: nat)
    requires DistinctRaw(outer) && lo + |es| <= |outer| && outer[lo..lo + |es|] == Raw(es)
    requires All(FitsExt, StandIn(es)) && Avoids(es, EXT_ECH)
    ensures ExpandSeq(Raw(StandIn(es)), outer) == Ok(Raw(es))
  {
    if es == [] {
      assert Raw(StandIn(es)) == [];
    } else {
      var e := StandIn(es)[0];
      assert FitsExt(e);
      ExpandTypes(es, outer, lo, e.body.result);
      var r := RawExt(e.typ, e.body.result);
      assert Raw(StandIn(es)) == [r];
      ExpandSingle(r, outer);
    }
  }

  lemma ExpandTypes(es: seq<Ext>, outer: seq<RawExt>, lo: nat, d: bytes)
    requires d == LP(1, U16s(ExtTypes(es))).result && !LP(1, U16s(ExtTypes(es))).err
    requires DistinctRaw(outer) && lo + |es| <= |outer| && outer[lo..lo + |es|] == Raw(es)
    requires Avoids(es, EXT_ECH)
    ensures ExpandOne(RawExt(EXT_ECH_OUTER_EXTENSIONS, d), outer) == Ok(Raw(es))
  {
    var ts := EncList(EncU16, ExtTypes(es));
    ReadLPPut(1, ts, []);
    assert d == Put(1, |ts|) + ts + [];
    forall k | lo <= k < lo + |es| ensures outer[k].typ != EXT_ECH {
      assert outer[k] == outer[lo..lo + |es|][k - lo];
    }
    PickStretch(outer, 0, lo, lo + |es|);
  }

  // Putting it together.

  /** The inner hello as the client hashed it: with the session id of the outer one. */
  function FullInner(inner: Hello, outer: Hello): Hello { inner.(sessionId := outer.sessionId) }

  lemma RawAppend(a: seq<Ext>, b: seq<Ext>)
    ensures Raw(a + b) == Raw(a) + Raw(b)
  {
  }

  lemma RawAppend3(a: seq<Ext>, b: seq<Ext>, c: seq<Ext>)
    ensures Raw(a + b + c) == Raw(a) + Raw(b) + Raw(c)
  {
    RawAppend(a + b, c);
    RawAppend(a, b);
  }

  lemma FitsMiddle(a: seq<Ext>, b: seq<Ext>, c: seq<Ext>)
    requires All(FitsExt, a + b + c)
    ensures All(FitsExt, b)
  {
    assert forall i :: 0 <= i < |b| ==> b[i] == (a + b + c)[|a| + i];
  }

  /** Expanding the extensions of the encoded inner hello gives those of the full one. */
  lemma ExpandInner(a: seq<Ext>, shared: seq<Ext>, c: seq<Ext>, outer: seq<RawExt>, lo: nat)
    requires Avoids(a, EXT_ECH_OUTER_EXTENSIONS) && Avoids(c, EXT_ECH_OUTER_EXTENSIONS)
    requires DistinctRaw(outer) && lo + |shared| <= |outer| && outer[lo..lo + |shared|] == Raw(shared)
    requires All(FitsExt, a + StandIn(shared) + c) && Avoids(shared, EXT_ECH)
    ensures Expand(EncList(EncExt, a + StandIn(shared) + c), outer) == Ok(Raw(a + shared + c))
  {
    var es := a + StandIn(shared) + c;
    DecodeRaw(es);
    ExpandIsSeq(EncList(EncExt, es), Raw(es), outer);
    RawAppend3(a, StandIn(shared), c);
    RawAppend3(a, shared, c);
    FitsMiddle(a, StandIn(shared), c);
    ExpandStandIn(shared, outer, lo);
    ExpandPlain(Raw(a), outer);
    ExpandPlain(Raw(c), outer);
    ExpandAppend(Raw(a), Raw(StandIn(shared)), outer);
    ExpandAppend(Raw(a) + Raw(StandIn(shared)), Raw(c), outer);
  }

  /** What an outer hello's bytes give back. */
  lemma RawOfOuter(o: Hello, data: bytes)
    requires MarshalMsg(o, false) == Some(data) && Exts(o, false) != []
    ensures RawExtensions(Received(o, data)) == Ok(Raw(Exts(o, false))) && All(FitsExt, Exts(o, false))
  {
    RawOfBody(o, data, Exts(o, false), Received(o, data));
  }

  lemma RawOfBody(o: Hello, data: bytes, es: seq<Ext>, m: Hello)
    requires Of([TYPE_CLIENT_HELLO]).AddLP(3, Body(o, o.sessionId, es)).Bytes() == Some(data) && es != []
      && m.original == Some(data)
    ensures All(FitsExt, es) && RawExtensions(m) == Ok(Raw(es))
  {
    MessageBytes(Body(o, o.sessionId, es), data);
    BodyShape(o, o.sessionId, es);
    var x := EncList(EncExt, es);
    LPBytes(x);
    AfterHeader([TYPE_CLIENT_HELLO] + Put(3, |Body(o, o.sessionId, es).result|), FixedBytes(o, o.sessionId),
                Put(2, |x|) + x, []);
    assert data[4..] + [] == data[4..];
    ReadFixedOf(o, o.sessionId, Put(2, |x|) + x + []);
    Limits();
    ReadLPPut(2, x, []);
    DecodeRaw(es);
    RawFrom(m, data, Put(2, |x|) + x + [], x, Raw(es));
  }

  lemma RawFrom(m: Hello, data: bytes, s: bytes, x: bytes, raw: seq<RawExt>)
    requires m.original == Some(data) && |data| >= 4 && ReadFixed(data[4..]).Some? && ReadFixed(data[4..]).value.1 == s
    requires ReadLP(2, s) == Some((x, [])) && DecList(DecExt, x) == Some(raw)
    ensures RawExtensions(m) == Ok(raw)
  {
  }

  /** What an encoded inner hello's bytes give back, whatever the padding. */
  lemma PartsOfInner(inner: Hello, h: bytes, es: seq<Ext>, pad: bytes)
    requires Of([TYPE_CLIENT_HELLO]).AddLP(3, Body(inner, [], es)).Bytes() == Some(h) && es != []
    ensures |h| >= 4 && |inner.random| == 32 && All(FitsExt, es)
    ensures ReadParts(h[4..] + pad) == Some(PartsAre(inner, EncList(EncExt, es), pad))
  {
    MessageBytes(Body(inner, [], es), h);
    BodyShape(inner, [], es);
    var x := EncList(EncExt, es);
    LPBytes(x);
    AfterHeader([TYPE_CLIENT_HELLO] + Put(3, |Body(inner, [], es).result|), FixedBytes(inner, []), Put(2, |x|) + x,
      pad);
    PartsRead(inner, x, pad);
  }

  function PartsAre(inner: Hello, x: bytes, pad: bytes): Parts {
    Parts(Fixed(Put(2, inner.vers) + inner.random, [], EncList(EncU16, inner.cipherSuites), inner.compressionMethods),
      x, pad)
  }

  lemma PartsRead(inner: Hello, x: bytes, pad: bytes)
    requires |inner.random| == 32 && 2 * |inner.cipherSuites| < 0x1_0000 && |inner.compressionMethods| < 0x100
      && |x| < 0x1_0000
    ensures ReadParts(FixedBytes(inner, []) + (Put(2, |x|) + x + pad)) == Some(PartsAre(inner, x, pad))
  {
    ReadFixedOf(inner, [], Put(2, |x|) + x + pad);
    Limits();
    ReadLPPut(2, x, pad);
  }

  lemma MessageBytes(b: Builder, h: bytes)
    requires Of([TYPE_CLIENT_HELLO]).AddLP(3, b).Bytes() == Some(h)
    ensures !b.err && h == [TYPE_CLIENT_HELLO] + Put(3, |b.result|) + b.result
  {
  }

  lemma AfterHeader(header: bytes, fixed: bytes, x: bytes, pad: bytes)
    requires |header| == 4
    ensures (header + (fixed + x))[4..] + pad == fixed + (x + pad)
  {
    assert (header + (fixed + x))[4..] == fixed + x;
  }

  /** Copying extensions from bytes writes the same as building them. */
  lemma {:induction false} CopiedSame(es: seq<Ext>)
    requires forall i :: 0 <= i < |es| ==> !es[i].body.err
    ensures Items(EncExt, FitsExt, CopiedAll(Raw(es))) == Items(EncExt, FitsExt, es)
  {
    CopiedBytes(es);
    var c := CopiedAll(Raw(es));
    assert forall i :: 0 <= i < |es| ==> (FitsExt(c[i]) <==> FitsExt(es[i]));
  }

  lemma {:induction false} CopiedBytes(es: seq<Ext>)
    ensures EncList(EncExt, CopiedAll(Raw(es))) == EncList(EncExt, es)
  {
    if es != [] {
      CopiedBytes(es[1..]);
      assert CopiedAll(Raw(es))[1..] == CopiedAll(Raw(es[1..]));
    }
  }

  lemma ReconstructIs(full: Hello, es: seq<Ext>)
    requires |full.random| == 32 && es != [] && forall i :: 0 <= i < |es| ==> !es[i].body.err
    ensures var f := Fixed(Put(2, full.vers) + full.random, [], EncList(EncU16, full.cipherSuites),
      full.compressionMethods);
      Reconstruct(f, full.sessionId, Raw(es))
        == Of([TYPE_CLIENT_HELLO]).AddLP(3, Body(full, full.sessionId, es)).Bytes()
  {
    CopiedSame(es);
  }

  /** The extensions of a full inner hello, seen from its encoded form and from the outer hello. */
  lemma InnerSections(inner: Hello, o: Hello)
    requires SameBlock(inner, o) && NoTls12(inner)
    ensures var a, c := Present([NameRow(inner)]) + Present(PlainRows(inner)), Present([PskRow(inner)]);
      && Exts(inner, true) == a + StandIn(Shared(o)) + c
      && Exts(FullInner(inner, o), false) == a + Shared(o) + c
  {
    SameShared(inner, o);
    var full := FullInner(inner, o);
    SectionsOf(full);
    NoTls12Ext(full);
    SameShared(full, o);
    assert NameRow(full) == NameRow(inner) && PlainRows(full) == PlainRows(inner) && PskRow(full) == PskRow(inner);
    assert Present([NameRow(inner)]) + [] == Present([NameRow(inner)]);
  }

  /** The place of the shared block among the outer extensions. */
  lemma SharedStretch(o: Hello) returns (lo: nat)
    ensures lo + |Shared(o)| <= |Exts(o, false)| && Exts(o, false)[lo..lo + |Shared(o)|] == Shared(o)
    ensures Raw(Exts(o, false))[lo..lo + |Shared(o)|] == Raw(Shared(o))
  {
    SectionsOf(o);
    var a := Present([NameRow(o)]) + Present(Tls12Rows(o)) + Present(PlainRows(o));
    lo := |a|;
    Middle(a, Shared(o), Present([PskRow(o)]));
  }

  lemma Middle(a: seq<Ext>, b: seq<Ext>, c: seq<Ext>)
    ensures (a + b + c)[|a|..|a| + |b|] == b
    ensures Raw(a + b + c)[|a|..|a| + |b|] == Raw(b)
  {
  }

  /** What unmarshalling the client's own full inner hello gives, with the checks of an inner hello. */
  function Unpacked(inner: Hello, o: Hello): Result<Hello> {
    var full := FullInner(inner, o);
    match MarshalMsg(full, false)
    case None => Err(TooLong)
    case Some(data) => if WellFormed(full) then Check(Received(full, data)) else Err(InvalidReconstructed)
  }

  lemma DecodeSent(inner: Hello, o: Hello, h: bytes, outerBytes: bytes, k: nat)
    requires MarshalMsg(inner, true) == Some(h) && Exts(inner, true) != []
    requires MarshalMsg(o, false) == Some(outerBytes) && Exts(o, false) != []
    requires SameBlock(inner, o) && NoTls12(inner)
    ensures |h| >= 4 && DecodeInner(Received(o, outerBytes), h[4..] + Zeros(k)) == Unpacked(inner, o)
  {
    var full := FullInner(inner, o);
    PartsOfInner(inner, h, Exts(inner, true), Zeros(k));
    RawOfOuter(o, outerBytes);
    ExpandedInner(inner, o);
    ReconstructIs(full, Exts(full, false));
    DecodeSteps(Received(o, outerBytes), h[4..] + Zeros(k), Raw(Exts(o, false)), Raw(Exts(full, false)));
    var m := MarshalMsg(full, false);
    if m.Some? { RoundTrip(full, m.value); }
  }

  /** Both hellos can be written, with extensions. */
  predicate Sendable(inner: Hello, o: Hello) {
    MarshalMsg(inner, true).Some? && Exts(inner, true) != [] && MarshalMsg(o, false).Some? && Exts(o, false) != []
  }

  function Headless(m: Option<bytes>): bytes { if m.None? || |m.value| < 4 then [] else m.value[4..] }

  /**
    Decoding an encoded inner hello against the outer one yields what unmarshalling the client's own
    full inner hello would yield, for any amount of padding; it fails only where that message is too
    long, not well formed, not marked as inner, or does not offer TLS 1.3 alone.
   */
  lemma DecodeUndoesEncode(inner: Hello, o: Hello, k: nat)
    requires SameBlock(inner, o) && NoTls12(inner)
    ensures Sendable(inner, o) ==>
      DecodeInner(Received(o, MarshalMsg(o, false).value), Headless(MarshalMsg(inner, true)) + Zeros(k))
        == Unpacked(inner, o)
  {
    if Sendable(inner, o) { DecodeSent(inner, o, MarshalMsg(inner, true).value, MarshalMsg(o, false).value, k); }
  }

  /** Decoding when nothing is malformed: put the extensions back, then unmarshal. */
  lemma DecodeSteps(outer: Hello, encoded: bytes, raw: seq<RawExt>, es: seq<RawExt>)
    requires var p := ReadParts(encoded);
      && p.Some? && p.value.padding == Zeros(|p.value.padding|)
      && RawExtensions(outer) == Ok(raw) && Expand(p.value.extensions, raw) == Ok(es)
    ensures DecodeInner(outer, encoded) == Finish(ReadParts(encoded).value.fixed, outer.sessionId, es)
  {
  }

  /** An inner hello with anything but zeros behind it is refused, whatever the outer one. */
  lemma PaddingChecked(outer: Hello, inner: Hello, h: bytes, pad: bytes, i: nat)
    requires MarshalMsg(inner, true) == Some(h) && Exts(inner, true) != [] && i < |pad| && pad[i] != 0
    ensures |h| >= 4 && DecodeInner(outer, h[4..] + pad) == Err(InvalidInner)
  {
    PartsOfInner(inner, h, Exts(inner, true), pad);
  }

  /** What a server makes of an inner hello: the client's own message, unless that is refused. */
  function Recovered(inner: Hello, o: Hello): Result<Hello> {
    var full := FullInner(inner, o);
    match MarshalMsg(full, false)
    case None => Err(TooLong)
    case Some(data) =>
      if !WellFormed(full) then Err(InvalidReconstructed) else
      match CheckVersions(inner.supportedVersions, false)
      case Some(e) => Err(e)
      case None => Ok(Received(full, data))
  }

  /** An outer hello without any extension is refused. */
  predicate Recovers(inner: Hello, o: Hello, encoded: Option<bytes>, outerBytes: Option<bytes>) {
    encoded.Some? && outerBytes.Some? ==>
      DecodeInner(Received(o, outerBytes.value), encoded.value)
      == if Exts(o, false) == [] then Err(MalformedOuter) else Recovered(inner, o)
  }

  /**
    Encoding loses nothing: for every inner and outer hello that agree on the compressed fields,
    decoding what the client sends gives the client's own full inner hello, or the exact error.
   */
  lemma EchRoundTrip(inner: Hello, o: Hello, maxNameLength: nat)
    requires SameBlock(inner, o) && NoTls12(inner) && inner.ech == [INNER_ECH_EXT]
    ensures Recovers(inner, o, EncodeInner(inner, maxNameLength), MarshalMsg(o, false))
  {
    var encoded, outerBytes := EncodeInner(inner, maxNameLength), MarshalMsg(o, false);
    if encoded.Some? && outerBytes.Some? {
      var h, k := EncodeIs(inner, maxNameLength, encoded.value);
      if Exts(o, false) == [] {
        RefusedWithoutBlock(inner, o, h, outerBytes.value, k);
      } else {
        RecoveredWithBlock(inner, o, h, outerBytes.value, k);
      }
    }
  }

  lemma RefusedWithoutBlock(inner: Hello, o: Hello, h: bytes, outerBytes: bytes, k: nat)
    requires MarshalMsg(inner, true) == Some(h) && |h| > 4 && inner.ech == [INNER_ECH_EXT]
    requires MarshalMsg(o, false) == Some(outerBytes) && Exts(o, false) == []
    ensures DecodeInner(Received(o, outerBytes), h[4..] + Zeros(k)) == Err(MalformedOuter)
  {
    NoBlock(o, outerBytes);
    EchExtWritten(inner);
    var es := Exts(inner, true);
    PartsOfInner(inner, h, es, Zeros(k));
    DecodeRefuses(Received(o, outerBytes), h[4..] + Zeros(k), PartsAre(inner, EncList(EncExt, es), Zeros(k)),
      MalformedOuter);
  }

  /** Decoding when the outer hello has no extensions to copy from. */
  lemma DecodeRefuses(outer: Hello, encoded: bytes, p: Parts, e: EchError)
    requires ReadParts(encoded) == Some(p) && p.padding == Zeros(|p.padding|) && RawExtensions(outer) == Err(e)
    ensures DecodeInner(outer, encoded) == Err(e)
  {
  }

  lemma RecoveredWithBlock(inner: Hello, o: Hello, h: bytes, outerBytes: bytes, k: nat)
    requires MarshalMsg(inner, true) == Some(h) && |h| > 4 && inner.ech == [INNER_ECH_EXT]
    requires MarshalMsg(o, false) == Some(outerBytes) && Exts(o, false) != []
    requires SameBlock(inner, o) && NoTls12(inner)
    ensures DecodeInner(Received(o, outerBytes), h[4..] + Zeros(k)) == Recovered(inner, o)
  {
    EchExtWritten(inner);
    DecodeSent(inner, o, h, outerBytes, k);
    RecoveredIs(inner, o);
  }

  lemma RecoveredIs(inner: Hello, o: Hello)
    requires inner.ech == [INNER_ECH_EXT]
    ensures Recovered(inner, o) == Unpacked(inner, o)
  {
    var m := MarshalMsg(FullInner(inner, o), false);
    if m.Some? { CheckReceived(FullInner(inner, o), m.value); }
  }

  lemma NoBlock(o: Hello, data: bytes)
    requires MarshalMsg(o, false) == Some(data) && Exts(o, false) == []
    ensures RawExtensions(Received(o, data)) == Err(MalformedOuter)
  {
    NoBlockOf(o, data, Received(o, data));
  }

  lemma NoBlockOf(o: Hello, data: bytes, m: Hello)
    requires Of([TYPE_CLIENT_HELLO]).AddLP(3, Body(o, o.sessionId, [])).Bytes() == Some(data)
      && m.original == Some(data)
    ensures RawExtensions(m) == Err(MalformedOuter)
  {
    MessageBytes(Body(o, o.sessionId, []), data);
    BodyShape(o, o.sessionId, []);
    AfterHeader([TYPE_CLIENT_HELLO] + Put(3, |Body(o, o.sessionId, []).result|), FixedBytes(o, o.sessionId), [], []);
    ReadFixedOf(o, o.sessionId, []);
    assert FixedBytes(o, o.sessionId) + [] == FixedBytes(o, o.sessionId);
    assert data[4..] + [] == data[4..];
  }

  lemma EncodeIs(inner: Hello, maxNameLength: nat, encoded: bytes) returns (h: bytes, k: nat)
    requires EncodeInner(inner, maxNameLength) == Some(encoded)
    ensures MarshalMsg(inner, true) == Some(h) && |h| > 4 && encoded == h[4..] + Zeros(k)
  {
    h, k := PadIs(MarshalMsg(inner, true), |inner.serverName|, maxNameLength, encoded);
  }

  lemma PadIs(m: Option<bytes>, nameLen: nat, maxNameLength: nat, encoded: bytes) returns (h: bytes, k: nat)
    requires PadMessage(m, nameLen, maxNameLength) == Some(encoded)
    ensures m == Some(h) && |h| > 4 && encoded == h[4..] + Zeros(k)
  {
    h := m.value;
    k := PaddingLen(|h| - 4, nameLen, maxNameLength);
  }

  lemma CheckReceived(m: Hello, data: bytes)
    requires m.ech == [INNER_ECH_EXT]
    ensures Check(Received(m, data)) ==
      match CheckVersions(m.supportedVersions, false) case Some(e) => Err(e) case None => Ok(Received(m, data))
  {
  }

  lemma EchExtWritten(m: Hello)
    requires m.ech != []
    ensures Exts(m, true) != []
  {
    var rows := PlainRows(m);
    assert rows[3..][0] == EchRow(m) && rows[2..][1..] == rows[3..] && rows[1..][1..] == rows[2..];
    assert Present(rows[3..]) != [];
    assert Present(rows[2..]) != [];
    assert Present(rows[1..]) != [];
  }

  /** The offered versions pass when TLS 1.3 is among them and nothing older is, GREASE aside. */
  lemma {:induction false} VersionsPass(vs: seq<u16>, has13: bool)
    ensures CheckVersions(vs, has13).None? <==>
            (has13 || VERSION_TLS13 in vs) && forall i :: 0 <= i < |vs| ==> IsGrease(vs[i]) || vs[i] >= VERSION_TLS13
  {
    if vs != [] {
      VersionsPass(vs[1..], has13);
      VersionsPass(vs[1..], true);
      assert vs == [vs[0]] + vs[1..];
    }
  }

  lemma ExpandedInner(inner: Hello, o: Hello)
    requires SameBlock(inner, o) && NoTls12(inner)
    requires All(FitsExt, Exts(inner, true)) && All(FitsExt, Exts(o, false))
    ensures var full := FullInner(inner, o);
      && Expand(EncList(EncExt, Exts(inner, true)), Raw(Exts(o, false))) == Ok(Raw(Exts(full, false)))
      && (Exts(inner, true) != [] ==> Exts(full, false) != [])
      && forall i :: 0 <= i < |Exts(full, false)| ==> !Exts(full, false)[i].body.err
  {
    InnerSections(inner, o);
    AvoidsOuter(FullInner(inner, o));
    ExpandedIn(Present([NameRow(inner)]) + Present(PlainRows(inner)), Present([PskRow(inner)]), o);
  }

  lemma ExpandedIn(a: seq<Ext>, c: seq<Ext>, o: Hello)
    requires Avoids(a + Shared(o) + c, EXT_ECH_OUTER_EXTENSIONS)
    requires All(FitsExt, a + StandIn(Shared(o)) + c) && All(FitsExt, Exts(o, false))
    ensures Expand(EncList(EncExt, a + StandIn(Shared(o)) + c), Raw(Exts(o, false))) == Ok(Raw(a + Shared(o) + c))
    ensures a + StandIn(Shared(o)) + c != [] ==> a + Shared(o) + c != []
    ensures forall i :: 0 <= i < |a + Shared(o) + c| ==> !(a + Shared(o) + c)[i].body.err
  {
    var lo := SharedStretch(o);
    TypeFacts(o);
    ExpandedParts(a, Shared(o), c, Exts(o, false), lo);
  }

  lemma ExpandedParts(a: seq<Ext>, shared: seq<Ext>, c: seq<Ext>, outer: seq<Ext>, lo: nat)
    requires Avoids(a + shared + c, EXT_ECH_OUTER_EXTENSIONS) && Avoids(shared, EXT_ECH)
    requires All(FitsExt, a + StandIn(shared) + c) && All(FitsExt, outer) && DistinctRaw(Raw(outer))
    requires lo + |shared| <= |outer| && outer[lo..lo + |shared|] == shared
      && Raw(outer)[lo..lo + |shared|] == Raw(shared)
    ensures Expand(EncList(EncExt, a + StandIn(shared) + c), Raw(outer)) == Ok(Raw(a + shared + c))
    ensures a + StandIn(shared) + c != [] ==> a + shared + c != []
    ensures forall i :: 0 <= i < |a + shared + c| ==> !(a + shared + c)[i].body.err
  {
    AvoidParts(a, shared, c);
    ExpandInner(a, shared, c, Raw(outer), lo);
    FitsParts(a, shared, c, outer, lo);
  }

  lemma AvoidParts(a: seq<Ext>, b: seq<Ext>, c: seq<Ext>)
    requires Avoids(a + b + c, EXT_ECH_OUTER_EXTENSIONS)
    ensures Avoids(a, EXT_ECH_OUTER_EXTENSIONS) && Avoids(c, EXT_ECH_OUTER_EXTENSIONS)
  {
    var all := a + b + c;
    assert forall i :: 0 <= i < |a| ==> a[i] == all[i];
    assert forall i :: 0 <= i < |c| ==> c[i] == all[|a| + |b| + i];
  }

  lemma FitsParts(a: seq<Ext>, shared: seq<Ext>, c: seq<Ext>, outer: seq<Ext>, lo: nat)
    requires All(FitsExt, a + StandIn(shared) + c) && All(FitsExt, outer)
    requires lo + |shared| <= |outer| && outer[lo..lo + |shared|] == shared
    ensures forall i :: 0 <= i < |a + shared + c| ==> !(a + shared + c)[i].body.err
    ensures a + StandIn(shared) + c != [] ==> a + shared + c != []
  {
    var in_, out := a + StandIn(shared) + c, a + shared + c;
    forall i | 0 <= i < |out| ensures !out[i].body.err {
      if i < |a| {
        assert FitsExt(in_[i]);
      } else if i < |a| + |shared| {
        assert FitsExt(outer[lo + (i - |a|)]);
        assert shared[i - |a|] == outer[lo..lo + |shared|][i - |a|];
      } else {
        assert FitsExt(in_[i - |shared| + |StandIn(shared)|]);
      }
    }
  }
}
