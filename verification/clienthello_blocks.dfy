/**
  What the reader of a ClientHello makes of extension blocks nobody here has written: unknown and
  repeated extensions.
 */
module ClientHelloBlocks {
  import opened Wire
  import opened Extensions
  import opened ClientHello
  import opened PskReceived

  // ---------------------------------------------------------------- walking over bytes

  /** The types of the extensions at the front of a block, up to the first that cannot be read. */
  function Types(s: bytes): seq<u16>
    decreases |s|
  {
    match DecExt(s)
    case None => []
    case Some((e, rest)) => [e.typ] + Types(rest)
  }

  /** Nothing is left over behind the last extension. */
  predicate Whole(s: bytes)
    decreases |s|
  {
    s == [] || (DecExt(s).Some? && Whole(DecExt(s).value.1))
  }

  lemma ReadLPMore(n: nat, s: bytes, t: bytes)
    requires ReadLP(n, s).Some?
    ensures ReadLP(n, s + t) == Some((ReadLP(n, s).value.0, ReadLP(n, s).value.1 + t))
  {
    assert (s + t)[..n] == s[..n];
    var k := Get(s[..n]);
    assert (s + t)[n..n + k] == s[n..n + k] && (s + t)[n + k..] == s[n + k..] + t;
  }

  /** An extension is read the same whatever follows it. */
  lemma DecExtMore(s: bytes, t: bytes)
    requires DecExt(s).Some?
    ensures DecExt(s + t) == Some((DecExt(s).value.0, DecExt(s).value.1 + t))
  {
    assert (s + t)[..2] == s[..2] && (s + t)[2..] == s[2..] + t;
    ReadLPMore(2, s[2..], t);
  }

  // ---------------------------------------------------------------- repeated extensions

  /** A type already seen refuses the block, wherever it comes and whatever the extensions mean. */
  lemma {:induction false} SeenRefused<S>(apply: (S, RawExt, bool) -> Option<S>, m: S, seen: seq<u16>, s: bytes, t: u16)
    requires t in seen && t in Types(s)
    ensures ReadExts(apply, m, seen, s) == None
    decreases |s|
  {
    var (e, rest) := DecExt(s).value;
    if e.typ !in seen && apply(m, e, rest == []).Some? {
      assert t in Types(rest) && t in seen + [e.typ];
      SeenRefused(apply, apply(m, e, rest == []).value, seen + [e.typ], rest, t);
    }
  }

  predicate Repeats(ts: seq<u16>) { exists i, j :: 0 <= i < j < |ts| && ts[i] == ts[j] }

  lemma RepeatsTail(ts: seq<u16>)
    requires ts != [] && Repeats(ts) && ts[0] !in ts[1..]
    ensures Repeats(ts[1..])
  {
    var i, j :| 0 <= i < j < |ts| && ts[i] == ts[j];
    assert ts[j] == ts[1..][j - 1];
    assert i > 0;
    assert ts[1..][i - 1] == ts[1..][j - 1];
  }

  /** A block with two extensions of one type is refused. */
  lemma {:induction false} RepeatRefused<S>(apply: (S, RawExt, bool) -> Option<S>, m: S, seen: seq<u16>, s: bytes)
    requires Repeats(Types(s))
    ensures ReadExts(apply, m, seen, s) == None
    decreases |s|
  {
    var (e, rest) := DecExt(s).value;
    assert Types(s)[1..] == Types(rest);
    if e.typ !in seen && apply(m, e, rest == []).Some? {
      var m' := apply(m, e, rest == []).value;
      if e.typ in Types(rest) {
        SeenRefused(apply, m', seen + [e.typ], rest, e.typ);
      } else {
        RepeatsTail(Types(s));
        RepeatRefused(apply, m', seen + [e.typ], rest);
      }
    }
  }

  // ---------------------------------------------------------------- unknown extensions

  /** The numbers the reader knows, of the IANA registry of TLS extension types. */
  predicate Known(t: u16) {
    t in {0, 5, 10, 11, 13, 16, 18, 23, 35, 41, 42, 43, 44, 45, 50, 51, 57, 0xfe0d, 0xff01}
  }

  /** One more type in the list of those seen, which does not come again, changes nothing but the list. */
  lemma {:induction false} SeenShift<S>(apply: (S, RawExt, bool) -> Option<S>, m: S, p: seq<u16>, t: u16, q: seq<u16>,
      s: bytes)
    requires t !in Types(s)
    ensures var r := ReadExts(apply, m, p + q, s);
      && (r.None? ==> ReadExts(apply, m, p + [t] + q, s) == None)
      && (r.Some? ==> p + q <= r.value.1
                      && ReadExts(apply, m, p + [t] + q, s) == Some((r.value.0, p + [t] + r.value.1[|p|..])))
    decreases |s|
  {
    if s == [] {
      assert (p + q)[|p|..] == q;
    } else if DecExt(s).Some? {
      var (e, rest) := DecExt(s).value;
      assert e.typ in Types(s);
      assert e.typ in p + [t] + q <==> e.typ in p + q;
      var m' := apply(m, e, rest == []);
      if e.typ !in p + q && m'.Some? {
        assert t !in Types(rest);
        SeenShift(apply, m'.value, p, t, q + [e.typ], rest);
        assert p + q + [e.typ] == p + (q + [e.typ]) && p + [t] + q + [e.typ] == p + [t] + (q + [e.typ]);
      }
    }
  }

  /** A reader that ignores unknown extensions, and that wants pre_shared_key last. */
  ghost predicate Tolerant<S(!new)>(apply: (S, RawExt, bool) -> Option<S>) {
    && (forall m, e: RawExt, last {:trigger apply(m, e, last)} :: !Known(e.typ) ==> apply(m, e, last) == Some(m))
    && (forall m, e: RawExt {:trigger apply(m, e, false)} ::
          if e.typ == 41 then apply(m, e, false) == None else apply(m, e, false) == apply(m, e, true))
  }

  lemma ApplyIsTolerant()
    ensures Tolerant(ApplyExt)
  {
    forall m: Hello, e: RawExt, last | !Known(e.typ) ensures ApplyExt(m, e, last) == Some(m) {
      assert Decode(m.serverName, e, last) == Some(Unknown);
    }
  }

  predicate EndsInPsk(a: bytes) { Types(a) != [] && Types(a)[|Types(a)| - 1] == 41 }

  lemma EndsInPskTail(a: bytes)
    requires DecExt(a).Some?
    ensures var (x, rest) := DecExt(a).value;
      EndsInPsk(a) <==> if Types(rest) == [] then x.typ == 41 else EndsInPsk(rest)
  {
    var (x, rest) := DecExt(a).value;
    assert Types(a) == [x.typ] + Types(rest);
  }

  /** Where an extension cannot be inserted: its type is there already, or it would follow pre_shared_key. */
  predicate Clashes(t: u16, seen: seq<u16>, a: bytes, b: bytes) {
    t in seen || t in Types(a) || t in Types(b) || (b == [] && EndsInPsk(a))
  }

  /** The same, extension by extension. */
  predicate ClashesAhead(t: u16, seen: seq<u16>, a: bytes, b: bytes)
    decreases |a|
  {
    match DecExt(a)
    case None => t in seen || t in Types(b)
    case Some((x, rest)) => (x.typ == 41 && rest + b == []) || ClashesAhead(t, seen + [x.typ], rest, b)
  }

  lemma {:induction false} ClashesMeans(t: u16, seen: seq<u16>, a: bytes, b: bytes)
    requires Whole(a)
    ensures ClashesAhead(t, seen, a, b) <==> Clashes(t, seen, a, b)
    decreases |a|
  {
    if a != [] {
      var (x, rest) := DecExt(a).value;
      ClashesMeans(t, seen + [x.typ], rest, b);
      EndsInPskTail(a);
      assert Types(a) == [x.typ] + Types(rest);
      assert Types(rest) == [] <==> rest == [];
    }
  }

  /** The same message, the type inserted behind k others. */
  predicate Inserted<S(==)>(t: u16, k: nat, r: Option<(S, seq<u16>)>, r': Option<(S, seq<u16>)>) {
    match r
    case None => r' == None
    case Some((m, seen)) => k <= |seen| && r' == Some((m, seen[..k] + [t] + seen[k..]))
  }

  lemma InsertFirst<S(!new)>(apply: (S, RawExt, bool) -> Option<S>, m: S, seen: seq<u16>, e: RawExt, b: bytes,
      eb: bytes)
    requires Tolerant(apply) && !Known(e.typ) && DecExt(eb) == Some((e, b))
    ensures var r, r' := ReadExts(apply, m, seen, b), ReadExts(apply, m, seen, eb);
      if e.typ in seen || e.typ in Types(b) then r' == None else Inserted(e.typ, |seen|, r, r')
  {
    if e.typ in Types(b) {
      SeenRefused(apply, m, seen + [e.typ], b, e.typ);
    } else {
      SeenShift(apply, m, seen, e.typ, [], b);
      assert seen + [] == seen && seen + [e.typ] + [] == seen + [e.typ];
      var r := ReadExts(apply, m, seen, b);
      assert r.Some? ==> r.value.1[..|seen|] == seen;
    }
  }

  /** What is left to read behind the first extension, which is not a last pre_shared_key. */
  function Next<S>(apply: (S, RawExt, bool) -> Option<S>, m: S, seen: seq<u16>, x: RawExt, s: bytes): Option<(S,
      seq<u16>)> {
    match apply(m, x, false)
    case None => None
    case Some(m') => if x.typ in seen then None else ReadExts(apply, m', seen + [x.typ], s)
  }

  lemma Turn<S(!new)>(apply: (S, RawExt, bool) -> Option<S>, m: S, seen: seq<u16>, a: bytes, b: bytes)
    requires Tolerant(apply) && DecExt(a).Some?
    requires DecExt(a).value.0.typ != 41 || DecExt(a).value.1 + b != []
    ensures ReadExts(apply, m, seen, a + b) == Next(apply, m, seen, DecExt(a).value.0, DecExt(a).value.1 + b)
  {
    DecExtMore(a, b);
  }

  /** What becomes of a block r when an extension is inserted: r'. */
  predicate Fate<S(==)>(clash: bool, t: u16, k: nat, r: Option<(S, seq<u16>)>, r': Option<(S, seq<u16>)>) {
    if clash then r' == None else Inserted(t, k, r, r')
  }

  lemma InsertPast<S(!new)>(apply: (S, RawExt, bool) -> Option<S>, m: S, seen: seq<u16>, a: bytes, e: RawExt, b: bytes,
                            eb: bytes, k: nat, clash: bool)
    requires Tolerant(apply) && DecExt(a).Some? && DecExt(eb) == Some((e, b))
    requires var (x, rest) := DecExt(a).value;
      var m' := apply(m, x, false);
      m'.Some? && x.typ !in seen ==>
        Fate(clash, e.typ, k, ReadExts(apply, m'.value, seen + [x.typ], rest + b),
             ReadExts(apply, m'.value, seen + [x.typ], rest + eb))
    ensures var (x, rest) := DecExt(a).value;
      Fate((x.typ == 41 && rest + b == []) || clash, e.typ, k,
           ReadExts(apply, m, seen, a + b), ReadExts(apply, m, seen, a + eb))
  {
    var (x, rest) := DecExt(a).value;
    Turn(apply, m, seen, a, eb);
    if !(x.typ == 41 && rest + b == []) { Turn(apply, m, seen, a, b); }
  }

  lemma {:induction false} InsertAhead<S(!new)>(apply: (S, RawExt, bool) -> Option<S>, m: S, seen: seq<u16>,
                                                a: bytes, e: RawExt, b: bytes, eb: bytes, k: nat)
    requires Tolerant(apply) && Whole(a) && !Known(e.typ) && DecExt(eb) == Some((e, b)) && k == |seen| + |Types(a)|
    ensures Fate(ClashesAhead(e.typ, seen, a, b), e.typ, k,
                 ReadExts(apply, m, seen, a + b), ReadExts(apply, m, seen, a + eb))
    decreases |a|
  {
    if a == [] {
      assert a + b == b && a + eb == eb && Types(a) == [];
      InsertFirst(apply, m, seen, e, b, eb);
    } else {
      var (x, rest) := DecExt(a).value;
      var m' := apply(m, x, false);
      if m'.Some? { InsertAhead(apply, m'.value, seen + [x.typ], rest, e, b, eb, k); }
      InsertPast(apply, m, seen, a, e, b, eb, k, ClashesAhead(e.typ, seen + [x.typ], rest, b));
    }
  }

  /**
    An unknown extension inserted between two extensions of any block is ignored: the block is
    accepted as before, with the same fields, unless the type is there already or would follow
    pre_shared_key. `eb` is b with the extension in front.
   */
  lemma InsertInBlock<S(!new)>(apply: (S, RawExt, bool) -> Option<S>, m: S, a: bytes, e: RawExt, b: bytes, eb: bytes)
    requires Tolerant(apply) && Whole(a) && !Known(e.typ) && DecExt(eb) == Some((e, b))
    ensures Fate(Clashes(e.typ, [], a, b), e.typ, |Types(a)|,
                 ReadExts(apply, m, [], a + b), ReadExts(apply, m, [], a + eb))
  {
    InsertAhead(apply, m, [], a, e, b, eb, |Types(a)|);
    ClashesMeans(e.typ, [], a, b);
  }

  // ---------------------------------------------------------------- whole messages

  /** The bytes of the message are kept, and nothing is decided on them. */
  predicate IgnoresOriginal(m: Hello, f: Field, o: Option<bytes>) {
    Update(m.(original := o), f) == Update(m, f).(original := o)
  }

  lemma IgnoreServerNameTicket(m: Hello, x: bytes, o: Option<bytes>)
    ensures IgnoresOriginal(m, ServerName(x), o) && IgnoresOriginal(m, Ticket(x), o)
  {
  }

  lemma IgnoreRenegotiationCookie(m: Hello, x: bytes, o: Option<bytes>)
    ensures IgnoresOriginal(m, Renegotiation(x), o) && IgnoresOriginal(m, Cookie(x), o)
  {
  }

  lemma IgnorePointsPskModes(m: Hello, x: bytes, o: Option<bytes>)
    ensures IgnoresOriginal(m, Points(x), o) && IgnoresOriginal(m, PskModes(x), o)
  {
  }

  lemma IgnoreQuicEch(m: Hello, x: bytes, o: Option<bytes>)
    ensures IgnoresOriginal(m, Quic(x), o) && IgnoresOriginal(m, Ech(x), o)
  {
  }

  lemma IgnoreCurvesSigAlgs(m: Hello, x: seq<u16>, o: Option<bytes>)
    ensures IgnoresOriginal(m, Curves(x), o) && IgnoresOriginal(m, SigAlgs(x), o)
  {
  }

  lemma IgnoreSigAlgsCertVersions(m: Hello, x: seq<u16>, o: Option<bytes>)
    ensures IgnoresOriginal(m, SigAlgsCert(x), o) && IgnoresOriginal(m, Versions(x), o)
  {
  }

  lemma IgnoreStatusExtendedMasterSecret(m: Hello, x: bool, o: Option<bytes>)
    ensures IgnoresOriginal(m, Status(x), o) && IgnoresOriginal(m, ExtendedMasterSecret, o)
  {
  }

  lemma IgnoreSctEarlyData(m: Hello, o: Option<bytes>)
    ensures IgnoresOriginal(m, Sct, o) && IgnoresOriginal(m, EarlyData, o)
  {
  }

  lemma IgnoreAlpn(m: Hello, x: seq<bytes>, o: Option<bytes>)
    ensures IgnoresOriginal(m, Alpn(x), o)
  {
  }

  lemma IgnoreKeyShares(m: Hello, x: seq<KeyShare>, o: Option<bytes>)
    ensures IgnoresOriginal(m, KeyShares(x), o)
  {
  }

  lemma IgnorePsk(m: Hello, x: seq<PskIdentity>, y: seq<bytes>, o: Option<bytes>)
    ensures IgnoresOriginal(m, Psk(x, y), o)
  {
  }

  lemma UpdateIgnoresOriginal(m: Hello, f: Field, o: Option<bytes>)
    ensures IgnoresOriginal(m, f, o)
  {
    match f
    case ServerName(x) => IgnoreServerNameTicket(m, x, o);
    case Status(x) => IgnoreStatusExtendedMasterSecret(m, x, o);
    case Curves(x) => IgnoreCurvesSigAlgs(m, x, o);
    case Points(x) => IgnorePointsPskModes(m, x, o);
    case Ticket(x) => IgnoreServerNameTicket(m, x, o);
    case SigAlgs(x) => IgnoreCurvesSigAlgs(m, x, o);
    case SigAlgsCert(x) => IgnoreSigAlgsCertVersions(m, x, o);
    case Renegotiation(x) => IgnoreRenegotiationCookie(m, x, o);
    case ExtendedMasterSecret => IgnoreStatusExtendedMasterSecret(m, true, o);
    case Alpn(x) => IgnoreAlpn(m, x, o);
    case Sct => IgnoreSctEarlyData(m, o);
    case Versions(x) => IgnoreSigAlgsCertVersions(m, x, o);
    case Cookie(x) => IgnoreRenegotiationCookie(m, x, o);
    case KeyShares(x) => IgnoreKeyShares(m, x, o);
    case EarlyData => IgnoreSctEarlyData(m, o);
    case PskModes(x) => IgnorePointsPskModes(m, x, o);
    case Quic(x) => IgnoreQuicEch(m, x, o);
    case Psk(x, y) => IgnorePsk(m, x, y, o);
    case Ech(x) => IgnoreQuicEch(m, x, o);
    case Unknown =>
  }

  lemma ApplyIgnoresOriginal(m: Hello, e: RawExt, last: bool, o: Option<bytes>)
    ensures ApplyExt(m.(original := o), e, last) ==
      match ApplyExt(m, e, last) case None => None case Some(m') => Some(m'.(original := o))
  {
    var f := Decode(m.serverName, e, last);
    if f.Some? { UpdateIgnoresOriginal(m, f.value, o); }
  }

  lemma {:induction false} BlockIgnoresOriginal(m: Hello, seen: seq<u16>, s: bytes, o: Option<bytes>)
    ensures ReadExts(ApplyExt, m.(original := o), seen, s) ==
      match ReadExts(ApplyExt, m, seen, s) case None => None case Some((m', ts)) => Some((m'.(original := o), ts))
    decreases |s|
  {
    if s != [] && DecExt(s).Some? {
      var (e, rest) := DecExt(s).value;
      ApplyIgnoresOriginal(m, e, rest == [], o);
      var m1 := ApplyExt(m, e, rest == []);
      if e.typ !in seen && m1.Some? { BlockIgnoresOriginal(m1.value, seen + [e.typ], rest, o); }
    }
  }

  /** The fixed fields as bytes, followed by t. */
  function FixedThen(f: Fixed, t: bytes): bytes {
    f.versionAndRandom + (Put(1, |f.sessionId|) + f.sessionId
      + (Put(2, |f.suites|) + f.suites + (Put(1, |f.compression|) + f.compression + t)))
  }

  predicate FitsFixed(f: Fixed) {
    |f.versionAndRandom| == 34 && |f.sessionId| < 0x100 && |f.suites| < 0x1_0000 && |f.compression| < 0x100
  }

  lemma ReadFixedOf(f: Fixed, t: bytes)
    requires FitsFixed(f)
    ensures ReadFixed(FixedThen(f, t)) == Some((f, t))
  {
    Limits();
    var s3 := Put(1, |f.compression|) + f.compression + t;
    var s2 := Put(2, |f.suites|) + f.suites + s3;
    var s1 := Put(1, |f.sessionId|) + f.sessionId + s2;
    ReadLPPut(1, f.compression, t);
    ReadLPPut(2, f.suites, s3);
    ReadLPPut(1, f.sessionId, s2);
    FixedFields(f, s1, s2, s3, t);
  }

  lemma FixedFields(f: Fixed, s1: bytes, s2: bytes, s3: bytes, t: bytes)
    requires |f.versionAndRandom| == 34 && ReadLP(1, s1) == Some((f.sessionId, s2))
      && ReadLP(2, s2) == Some((f.suites, s3))
    requires ReadLP(1, s3) == Some((f.compression, t))
    ensures ReadFixed(f.versionAndRandom + s1) == Some((f, t))
  {
    var s := f.versionAndRandom + s1;
    assert s[..34] == f.versionAndRandom && s[34..] == s1;
  }

  lemma ReadLPFits(n: nat, s: bytes)
    requires ReadLP(n, s).Some?
    ensures |ReadLP(n, s).value.0| < Limit(n)
  {
    PutGet(s[..n]);
  }

  /** What was read is what stands in the input. */
  lemma ReadFixedIs(s: bytes)
    requires ReadFixed(s).Some?
    ensures FitsFixed(ReadFixed(s).value.0) && s == FixedThen(ReadFixed(s).value.0, ReadFixed(s).value.1)
  {
    Limits();
    var (sid, s1) := ReadLP(1, s[34..]).value;
    var (cs, s2) := ReadLP(2, s1).value;
    ReadLPInverse(1, s[34..]);
    ReadLPFits(1, s[34..]);
    ReadLPInverse(2, s1);
    ReadLPFits(2, s1);
    ReadLPInverse(1, s2);
    ReadLPFits(1, s2);
    assert s == s[..34] + s[34..];
  }

  /** A ClientHello: handshake header, fixed fields, extension block. */
  function Message(header: bytes, f: Fixed, block: bytes): bytes {
    header + FixedThen(f, Put(2, |block|) + block)
  }

  lemma OnlyBlock(x: bytes)
    requires |x| < 0x1_0000
    ensures Only(2, Put(2, |x|) + x) == Some(x)
  {
    Limits();
    ReadLPPut(2, x, []);
    assert Put(2, |x|) + x + [] == Put(2, |x|) + x;
  }

  lemma OnlyIs(s: bytes)
    requires Only(2, s).Some?
    ensures var x := Only(2, s).value; |x| < 0x1_0000 && s == Put(2, |x|) + x
  {
    Limits();
    ReadLPInverse(2, s);
    ReadLPFits(2, s);
  }

  /** Every byte string that gets as far as an extension block is such a message. */
  lemma EveryMessage(data: bytes)
    requires ParseFixed(data).Some? && Only(2, ParseFixed(data).value.1).Some?
    ensures |data| >= 4 && ReadFixed(data[4..]).Some?
    ensures var f, x := ReadFixed(data[4..]).value.0, Only(2, ParseFixed(data).value.1).value;
      FitsFixed(f) && |x| < 0x1_0000 && data == Message(data[..4], f, x)
  {
    ReadFixedIs(data[4..]);
    OnlyIs(ParseFixed(data).value.1);
    assert data == data[..4] + data[4..];
  }

  /** The message before its extensions are read, if its suites can be. */
  function Start(data: bytes, f: Fixed): Option<Hello>
    requires |f.versionAndRandom| == 34
  {
    match DecList(DecU16, f.suites)
    case None => None
    case Some(suites) =>
      Limits();
      Some(Blank(data, Get(f.versionAndRandom[..2]), f.versionAndRandom[2..], f.sessionId, suites, f.compression))
  }

  lemma ParseMessage(header: bytes, f: Fixed, block: bytes)
    requires |header| == 4 && FitsFixed(f) && |block| < 0x1_0000
    ensures var data := Message(header, f, block);
      Parse(data) == match Start(data, f) case None => None case Some(m) => ParseExts(m, block)
  {
    var tail := Put(2, |block|) + block;
    ReadFixedOf(f, tail);
    OnlyBlock(block);
    var data := Message(header, f, block);
    assert data[4..] == FixedThen(f, tail);
    ParseFrom(data, f, tail, block);
  }

  lemma ParseFrom(data: bytes, f: Fixed, tail: bytes, block: bytes)
    requires |data| >= 4 && ReadFixed(data[4..]) == Some((f, tail)) && Only(2, tail) == Some(block)
    ensures Parse(data) == match Start(data, f) case None => None case Some(m) => ParseExts(m, block)
  {
  }

  lemma StartSwap(data: bytes, data': bytes, f: Fixed)
    requires |f.versionAndRandom| == 34
    ensures Start(data', f) == match Start(data, f) case None => None case Some(m) => Some(m.(original := Some(data')))
  {
  }

  /** What the message becomes. */
  function Told(m: Hello, data: bytes, k: nat, t: u16): Hello {
    if k > |m.extensions| then m
    else m.(original := Some(data), extensions := m.extensions[..k] + [t] + m.extensions[k..])
  }

  lemma FateTold(m: Hello, x: bytes, x': bytes, clash: bool, t: u16, k: nat, data': bytes)
    requires Fate(clash, t, k, ReadExts(ApplyExt, m, [], x), ReadExts(ApplyExt, m, [], x'))
    ensures !clash && ParseExts(m, x).Some? ==> k <= |ParseExts(m, x).value.extensions|
    ensures ParseExts(m.(original := Some(data')), x') ==
      (if clash then None else match ParseExts(m, x) case None => None case Some(h) => Some(Told(h, data', k, t)))
  {
    BlockIgnoresOriginal(m, [], x', Some(data'));
  }

  /**
    An unknown extension anywhere in a ClientHello is ignored. Let the extension block be a, then b,
    and e an extension of a type the reader does not know. With e between them the message is
    accepted exactly as before, with all its fields, but for the bytes of the message and the list of
    types; it is refused if that type is there already, or if e would follow pre_shared_key.
   */
  lemma UnknownIgnored(header: bytes, header': bytes, f: Fixed, a: bytes, e: Ext, b: bytes)
    requires |header| == |header'| == 4 && FitsFixed(f) && |a + (EncExt(e) + b)| < 0x1_0000
    requires Whole(a) && FitsExt(e) && !Known(e.typ)
    ensures var data, data' := Message(header, f, a + b), Message(header', f, a + (EncExt(e) + b));
      && Parse(data') == (if Clashes(e.typ, [], a, b) then None else
                          match Parse(data) case None => None case Some(m) => Some(Told(m, data', |Types(a)|, e.typ)))
      && (!Clashes(e.typ, [], a, b) && Parse(data).Some? ==> |Types(a)| <= |Parse(data).value.extensions|)
  {
    var block := a + (EncExt(e) + b);
    var data, data' := Message(header, f, a + b), Message(header', f, block);
    ParseMessage(header, f, a + b);
    ParseMessage(header', f, block);
    StartSwap(data, data', f);
    var start := Start(data, f);
    if start.Some? {
      ApplyIsTolerant();
      DecEncExt(e, b);
      InsertInBlock(ApplyExt, start.value, a, RawExt(e.typ, e.body.result), b, EncExt(e) + b);
      FateTold(start.value, a + b, block, Clashes(e.typ, [], a, b), e.typ, |Types(a)|, data');
    }
  }

  /** Which of the registered numbers is read into which field, and that no other is. */
  lemma NumbersOfFields(name: bytes, e: RawExt, last: bool)
    requires Decode(name, e, last).Some?
    ensures match Decode(name, e, last).value
      case ServerName(_) => e.typ == 0
      case Status(_) => e.typ == 5
      case Curves(_) => e.typ == 10
      case Points(_) => e.typ == 11
      case SigAlgs(_) => e.typ == 13
      case Alpn(_) => e.typ == 16
      case Sct => e.typ == 18
      case ExtendedMasterSecret => e.typ == 23
      case Ticket(_) => e.typ == 35
      case Psk(_, _) => e.typ == 41
      case EarlyData => e.typ == 42
      case Versions(_) => e.typ == 43
      case Cookie(_) => e.typ == 44
      case PskModes(_) => e.typ == 45
      case SigAlgsCert(_) => e.typ == 50
      case KeyShares(_) => e.typ == 51
      case Quic(_) => e.typ == 57
      case Ech(_) => e.typ == 0xfe0d
      case Renegotiation(_) => e.typ == 0xff01
      case Unknown => !Known(e.typ)
  {
  }

  /** A ClientHello with two extensions of one type is refused. */
  lemma RepeatedRefused(data: bytes)
    requires ParseFixed(data).Some? && Only(2, ParseFixed(data).value.1).Some?
    requires Repeats(Types(Only(2, ParseFixed(data).value.1).value))
    ensures Parse(data) == None
  {
    RepeatRefused(ApplyExt, ParseFixed(data).value.0, [], Only(2, ParseFixed(data).value.1).value);
  }

  // ---------------------------------------------------------------- which extensions are sent

  /** The numbers whose flag is set, in order. */
  function Chosen(marks: seq<Mark>): seq<u16> {
    if marks == [] then [] else (if marks[0].0 then [marks[0].1] else []) + Chosen(marks[1..])
  }

  type Mark = (bool, u16)

  // The registered numbers of the extensions a hello may be sent with, each with whether its field is set.

  function NameMark(m: Hello): Mark { (m.serverName != [], 0) }

  function Tls12Marks(m: Hello): seq<Mark> {
    [(m.supportedPoints != [], 11), (m.ticketSupported, 35), (m.renegotiationSupported, 0xff01),
     (m.extendedMasterSecret, 23)]
  }

  function PlainMarks(m: Hello): seq<Mark> {
    [(m.scts, 18), (m.earlyData, 42), (m.quic.Some?, 57), (m.ech != [], 0xfe0d)]
  }

  function BlockMarks(m: Hello): seq<Mark> {
    [(m.ocspStapling, 5), (m.supportedCurves != [], 10), (m.sigAlgs != [], 13), (m.sigAlgsCert != [], 50)]
    + [(m.alpn != [], 16), (m.supportedVersions != [], 43), (m.cookie != [], 44), (m.keyShares != [], 51)]
    + [(m.pskModes != [], 45)]
  }

  function PskMark(m: Hello): Mark { (m.pskIdentities != [], 41) }

  /** All of them, in order. */
  function Sendable(m: Hello): seq<Mark> {
    [NameMark(m)] + Tls12Marks(m) + PlainMarks(m) + BlockMarks(m) + [PskMark(m)]
  }

  /**
    Those of an inner hello: not the ones for TLS 1.2, and one number in place of the compressed
    block if that is not empty.
   */
  function SendableInside(m: Hello): seq<Mark> {
    [NameMark(m)] + PlainMarks(m) + [(Chosen(BlockMarks(m)) != [], 0xfd00)] + [PskMark(m)]
  }

  function MarkOf(row: Row): Mark { (row.on, row.typ) }

  function Marks(rows: seq<Row>): seq<Mark> { seq(|rows|, i requires 0 <= i < |rows| => MarkOf(rows[i])) }

  lemma MarksAppend(a: seq<Row>, b: seq<Row>)
    ensures Marks(a + b) == Marks(a) + Marks(b)
  {
  }

  lemma MarksOne(a: Row)
    ensures Marks([a]) == [MarkOf(a)]
  {
  }

  lemma MarksFour(a: Row, b: Row, c: Row, d: Row)
    ensures Marks([a, b, c, d]) == [MarkOf(a), MarkOf(b), MarkOf(c), MarkOf(d)]
  {
  }

  lemma MarksOfTls12(m: Hello)
    ensures Marks(Tls12Rows(m)) == Tls12Marks(m)
  {
    MarksFour(PointsRow(m), TicketRow(m), RenegotiationRow(m), ExtendedMasterSecretRow(m));
  }

  lemma MarksOfPlain(m: Hello)
    ensures Marks(PlainRows(m)) == PlainMarks(m)
  {
    MarksFour(SctRow(m), EarlyDataRow(m), QuicRow(m), EchRow(m));
  }

  lemma MarksNine(a: Row, b: Row, c: Row, d: Row, e: Row, f: Row, g: Row, h: Row, i: Row)
    ensures Marks([a, b, c, d, e, f, g, h, i]) ==
      [MarkOf(a), MarkOf(b), MarkOf(c), MarkOf(d)] + [MarkOf(e), MarkOf(f), MarkOf(g), MarkOf(h)] + [MarkOf(i)]
  {
    MarksFour(a, b, c, d);
    MarksFour(e, f, g, h);
    MarksOne(i);
    MarksAppend([a, b, c, d], [e, f, g, h]);
    MarksAppend([a, b, c, d] + [e, f, g, h], [i]);
    assert [a, b, c, d] + [e, f, g, h] + [i] == [a, b, c, d, e, f, g, h, i];
  }

  lemma MarksOfBlock(m: Hello)
    ensures Marks(BlockRows(m)) == BlockMarks(m)
  {
    MarksNine(StatusRow(m), CurvesRow(m), SigAlgsRow(m), SigAlgsCertRow(m), AlpnRow(m), VersionsRow(m), CookieRow(m),
              KeyShareRow(m), PskModesRow(m));
  }

  lemma TypesCons(e: Ext, rest: seq<Ext>)
    ensures ExtTypes([e] + rest) == [e.typ] + ExtTypes(rest)
  {
  }

  lemma {:induction false} PresentTypes(rows: seq<Row>)
    ensures ExtTypes(Present(rows)) == Chosen(Marks(rows))
  {
    if rows == [] {
      assert ExtTypes([]) == [];
    } else {
      PresentTypes(rows[1..]);
      var rest := Present(rows[1..]);
      assert Marks(rows)[1..] == Marks(rows[1..]);
      if rows[0].on {
        TypesCons(Ext(rows[0].typ, rows[0].body), rest);
      } else {
        assert [] + rest == rest && [] + Chosen(Marks(rows[1..])) == Chosen(Marks(rows[1..]));
      }
    }
  }

  lemma Joined(a: seq<u16>, b: seq<u16>, c: seq<u16>)
    ensures a + (b + c) == a + b + c
  {
  }

  lemma {:induction false} ChosenAppend(a: seq<Mark>, b: seq<Mark>)
    ensures Chosen(a + b) == Chosen(a) + Chosen(b)
  {
    if a == [] {
      assert a + b == b && [] + Chosen(b) == Chosen(b);
    } else {
      ChosenAppend(a[1..], b);
      assert (a + b)[0] == a[0] && (a + b)[1..] == a[1..] + b;
      Joined(if a[0].0 then [a[0].1] else [], Chosen(a[1..]), Chosen(b));
    }
  }

  lemma MarksOfSections(a: seq<Row>, b: seq<Row>, c: seq<Row>, d: seq<Row>, e: seq<Row>)
    ensures Marks(a + b + c + d + e) == Marks(a) + Marks(b) + Marks(c) + Marks(d) + Marks(e)
  {
    MarksAppend(a, b);
    MarksAppend(a + b, c);
    MarksAppend(a + b + c, d);
    MarksAppend(a + b + c + d, e);
  }

  /** A hello is sent with exactly the extensions whose fields are set, in that order. */
  lemma SentExactly(m: Hello)
    ensures ExtTypes(Exts(m, false)) == Chosen(Sendable(m))
  {
    PresentTypes(Table(m));
    MarksOfSections([NameRow(m)], Tls12Rows(m), PlainRows(m), BlockRows(m), [PskRow(m)]);
    MarksOne(NameRow(m));
    MarksOfTls12(m);
    MarksOfPlain(m);
    MarksOfBlock(m);
    MarksOne(PskRow(m));
  }

  lemma TypesOfFour(a: seq<Ext>, b: seq<Ext>, c: seq<Ext>, d: seq<Ext>)
    ensures ExtTypes(a + b + c + d) == ExtTypes(a) + ExtTypes(b) + ExtTypes(c) + ExtTypes(d)
  {
    TypesAppend(a, b);
    TypesAppend(a + b, c);
    TypesAppend(a + b + c, d);
  }

  lemma ChosenFour(a: seq<Mark>, b: seq<Mark>, c: seq<Mark>, d: seq<Mark>)
    ensures Chosen(a + b + c + d) == Chosen(a) + Chosen(b) + Chosen(c) + Chosen(d)
  {
    ChosenAppend(a, b);
    ChosenAppend(a + b, c);
    ChosenAppend(a + b + c, d);
  }

  lemma SectionTypes(rows: seq<Row>, marks: seq<Mark>)
    requires Marks(rows) == marks
    ensures ExtTypes(Present(rows)) == Chosen(marks) && (Present(rows) != [] <==> Chosen(marks) != [])
  {
    PresentTypes(rows);
  }

  /** And an inner hello likewise. */
  lemma SentInside(m: Hello)
    ensures ExtTypes(Exts(m, true)) == Chosen(SendableInside(m))
  {
    MarksOne(NameRow(m));
    MarksOfPlain(m);
    MarksOfBlock(m);
    MarksOne(PskRow(m));
    SectionTypes([NameRow(m)], [NameMark(m)]);
    SectionTypes(PlainRows(m), PlainMarks(m));
    SectionTypes(BlockRows(m), BlockMarks(m));
    SectionTypes([PskRow(m)], [PskMark(m)]);
    StandInType(Present(BlockRows(m)));
    TypesOfFour(Present([NameRow(m)]), Present(PlainRows(m)), StandIn(Present(BlockRows(m))), Present([PskRow(m)]));
    ChosenFour([NameMark(m)], PlainMarks(m), [(Chosen(BlockMarks(m)) != [], 0xfd00)], [PskMark(m)]);
  }

  lemma StandInType(es: seq<Ext>)
    ensures ExtTypes(StandIn(es)) == Chosen([(es != [], 0xfd00)])
  {
    var s := [(es != [], 0xfd00)];
    assert s[1..] == [] && Chosen(s[1..]) == [];
    assert es == [] ==> ExtTypes(StandIn(es)) == [];
    assert es != [] ==> ExtTypes(StandIn(es)) == [0xfd00];
  }

  lemma TypesAppend(a: seq<Ext>, b: seq<Ext>)
    ensures ExtTypes(a + b) == ExtTypes(a) + ExtTypes(b)
  {
  }

  /** The GREASE values of RFC 8701, one by one. */
  lemma GreaseValues(v: u16)
    ensures IsGrease(v) <==>
      v in {0x0a0a, 0x1a1a, 0x2a2a, 0x3a3a, 0x4a4a, 0x5a5a, 0x6a6a, 0x7a7a,
            0x8a8a, 0x9a9a, 0xaaaa, 0xbaba, 0xcaca, 0xdada, 0xeaea, 0xfafa}
  {
    var b := v % 256;
    assert v / 256 == b ==> v == 257 * b;
    assert b % 16 == 10 ==> b == 16 * (b / 16) + 10;
  }
}
