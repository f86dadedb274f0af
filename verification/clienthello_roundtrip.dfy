/** Unmarshalling undoes marshalling, for every ClientHello that can be marshalled at all. */
module ClientHelloRoundTrip {
  import opened Wire
  import opened Extensions
  import opened ClientHello

  /** What the receiver refuses although the sender can write it. */
  predicate NameOk(m: Hello) { m.serverName != [] ==> m.serverName[|m.serverName| - 1] != DOT }

  predicate PskOk(m: Hello) {
    m.pskIdentities != [] ==> All(OkPsk, m.pskIdentities) && |m.pskBinders| > 0 && All(NonEmpty, m.pskBinders)
  }

  /** The messages a receiver accepts. */
  predicate WellFormed(m: Hello) {
    NameOk(m) && All(NonEmpty, m.alpn) && All(OkKeyShare, m.keyShares) && PskOk(m)
  }

  /** Whether the receiver accepts the content of extension i. */
  predicate RowOk(i: nat, m: Hello) {
    if i == 0 then NameOk(m)
    else if i == 13 then All(NonEmpty, m.alpn)
    else if i == 16 then All(OkKeyShare, m.keyShares)
    else if i == 18 then PskOk(m)
    else true
  }

  /** The message once the extensions below i have been read from `data`. */
  function Upto(i: nat, m: Hello, data: bytes): Hello {
    Hello(
      Some(data), m.vers, m.random, m.sessionId, m.cipherSuites, m.compressionMethods,
      if i > 0 then m.serverName else [],
      i > 9 && m.ocspStapling,
      if i > 10 then m.supportedCurves else [],
      if i > 1 then m.supportedPoints else [],
      i > 2 && m.ticketSupported,
      if i > 2 && m.ticketSupported then m.sessionTicket else [],
      if i > 11 then m.sigAlgs else [],
      if i > 12 then m.sigAlgsCert else [],
      SCSV_RENEGOTIATION in m.cipherSuites || (i > 3 && m.renegotiationSupported),
      if i > 3 && m.renegotiationSupported then m.renegotiation else [],
      i > 4 && m.extendedMasterSecret,
      if i > 13 then m.alpn else [],
      i > 5 && m.scts,
      if i > 14 then m.supportedVersions else [],
      if i > 15 then m.cookie else [],
      if i > 16 then m.keyShares else [],
      i > 6 && m.earlyData,
      if i > 17 then m.pskModes else [],
      if i > 18 then m.pskIdentities else [],
      if i > 18 && m.pskIdentities != [] then m.pskBinders else [],
      if i > 7 then m.quic else None,
      if i > 8 then m.ech else [],
      [])
  }

  /**
    What the receiver ends up with: every field that was sent, the bytes themselves and the order
    of the extensions. The renegotiation flag may also come from the signalling cipher suite.
   */
  function Received(m: Hello, data: bytes): Hello {
    m.(original := Some(data),
       sessionTicket := if m.ticketSupported then m.sessionTicket else [],
       renegotiation := if m.renegotiationSupported then m.renegotiation else [],
       renegotiationSupported := m.renegotiationSupported || SCSV_RENEGOTIATION in m.cipherSuites,
       pskBinders := if m.pskIdentities != [] then m.pskBinders else [],
       extensions := ExtTypes(Present(Table(m))))
  }

  // ---------------------------------------------------------------- extension contents

  lemma OnlyLP(n: nat, b: bytes)
    requires |b| < Limit(n)
    ensures Only(n, LP(n, Of(b)).result) == Some(b)
  {
    ReadLPPut(n, b, []);
    assert LP(n, Of(b)).result == Put(n, |b|) + b + [];
  }

  lemma ParseU16sLP(n: nat, xs: seq<u16>)
    requires xs != [] && !LP(n, U16s(xs)).err
    ensures ParseU16s(n, LP(n, U16s(xs)).result) == Some(xs)
  {
    U16Codec();
    OnlyLP(n, EncList(EncU16, xs));
    ListRoundTrip(EncU16, DecU16, AnyU16, AnyU16, xs);
  }

  lemma ParseServerNameLP(name: bytes)
    requires name != [] && !LP(2, Of([0]).AddLP(2, Of(name))).err
    ensures ParseServerName(LP(2, Of([0]).AddLP(2, Of(name))).result, []) ==
            if name[|name| - 1] == DOT then None else Some(name)
  {
    var l := [0] + Put(2, |name|) + name;
    OnlyLP(2, l);
    OneName(name);
  }

  lemma OneName(name: bytes)
    requires 0 < |name| < Limit(2)
    ensures ParseNames([0] + Put(2, |name|) + name, []) == if name[|name| - 1] == DOT then None else Some(name)
  {
    ReadLPPut(2, name, []);
    Behind(0, Put(2, |name|), name);
    NamesOf([0] + Put(2, |name|) + name, name);
  }

  lemma Behind(x: byte, a: bytes, b: bytes)
    ensures ([x] + a + b)[0] == x && ([x] + a + b)[1..] == a + b + []
  {
  }

  lemma NamesOf(l: bytes, name: bytes)
    requires name != [] && l != [] && l[0] == 0 && ReadLP(2, l[1..]) == Some((name, []))
    ensures ParseNames(l, []) == if name[|name| - 1] == DOT then None else Some(name)
  {
    assert ParseNames([], name) == Some(name);
  }

  lemma ParseAlpnLP(xs: seq<bytes>)
    requires xs != [] && !LP(2, Items(EncStr8, Fits8, xs)).err
    ensures ParseAlpn(LP(2, Items(EncStr8, Fits8, xs)).result) == if All(NonEmpty, xs) then Some(xs) else None
  {
    Str8Codec();
    OnlyLP(2, EncList(EncStr8, xs));
    ListRoundTrip(EncStr8, DecStr8, Fits8, NonEmpty, xs);
  }

  lemma ParseKeySharesLP(xs: seq<KeyShare>)
    requires !LP(2, Items(EncKeyShare, FitsKeyShare, xs)).err
    ensures ParseKeyShares(LP(2, Items(EncKeyShare, FitsKeyShare, xs)).result)
      == if All(OkKeyShare, xs) then Some(xs) else None
  {
    KeyShareCodec();
    OnlyLP(2, EncList(EncKeyShare, xs));
    ListRoundTrip(EncKeyShare, DecKeyShare, FitsKeyShare, OkKeyShare, xs);
  }

  lemma ParsePskLP(ids: seq<PskIdentity>, binders: seq<bytes>)
    requires ids != [] && !PskBody(ids, binders).err
    ensures ParsePsk(PskBody(ids, binders).result) ==
            if All(OkPsk, ids) && binders != [] && All(NonEmpty, binders) then Some((ids, binders)) else None
  {
    PskCodec();
    Str8Codec();
    var l, b := EncList(EncPsk, ids), EncList(EncStr8, binders);
    var tail := LP(2, Of(b)).result;
    assert PskBody(ids, binders).result == Put(2, |l|) + l + tail;
    ReadLPPut(2, l, tail);
    OnlyLP(2, b);
    ListRoundTrip(EncPsk, DecPsk, FitsPsk, OkPsk, ids);
    ListRoundTrip(EncStr8, DecStr8, Fits8, NonEmpty, binders);
  }

  lemma OnlyEmpty(s: bytes)
    requires s == Put(2, 0)
    ensures Only(2, s) == Some([])
  {
    ReadLPPut(2, [], []);
    assert Put(2, 0) + [] + [] == s;
  }

  lemma ParseStatusRequestBody()
    ensures ParseStatusRequest([1, 0, 0, 0, 0]) == Some(true)
  {
    assert Put(2, 0) == [0, 0];
    OnlyEmpty([0, 0]);
    ReadLPPut(2, [], [0, 0]);
    assert Put(2, 0) + [] + [0, 0] == [0, 0, 0, 0];
    assert [1, 0, 0, 0, 0][1..] == [0, 0, 0, 0];
  }

  // ---------------------------------------------------------------- one extension

  /** The place of an extension type in the writing order. */
  function Rank(t: u16): nat {
    if t == EXT_SERVER_NAME then 0
    else if t == EXT_SUPPORTED_POINTS then 1
    else if t == EXT_SESSION_TICKET then 2
    else if t == EXT_RENEGOTIATION_INFO then 3
    else if t == EXT_EXTENDED_MASTER_SECRET then 4
    else if t == EXT_SCT then 5
    else if t == EXT_EARLY_DATA then 6
    else if t == EXT_QUIC then 7
    else if t == EXT_ECH then 8
    else if t == EXT_STATUS_REQUEST then 9
    else if t == EXT_SUPPORTED_CURVES then 10
    else if t == EXT_SIGNATURE_ALGORITHMS then 11
    else if t == EXT_SIGNATURE_ALGORITHMS_CERT then 12
    else if t == EXT_ALPN then 13
    else if t == EXT_SUPPORTED_VERSIONS then 14
    else if t == EXT_COOKIE then 15
    else if t == EXT_KEY_SHARE then 16
    else if t == EXT_PSK_MODES then 17
    else if t == EXT_PRE_SHARED_KEY then 18
    else 19
  }

  /** The path of a message through its extensions. */
  function HelloPath(m: Hello, d: bytes): Path<Hello> {
    Path(ApplyExt, Rank, (k: nat) => Upto(k, m, d), (k: nat) => RowOk(k, m))
  }

  /** What `row` writes decodes to the field f. */
  ghost predicate Decodes(row: Row, f: Field, ok: bool, final: bool) {
    if !row.on then ok else
    FitsExt(Ext(row.typ, row.body)) ==>
      && (!final ==> Decode([], RawExt(row.typ, row.body.result), false) == if ok then Some(f) else None)
      && Decode([], RawExt(row.typ, row.body.result), true) == if ok then Some(f) else None
  }

  lemma NameDecodes(m: Hello)
    ensures Decodes(NameRow(m), ServerName(m.serverName), NameOk(m), false)
  {
    if m.serverName != [] && !NameRow(m).body.err { ParseServerNameLP(m.serverName); }
  }

  lemma PointsDecodes(m: Hello)
    ensures Decodes(PointsRow(m), Points(m.supportedPoints), true, false)
  {
    if !PointsRow(m).body.err { OnlyLP(1, m.supportedPoints); }
  }

  lemma TicketDecodes(m: Hello)
    ensures Decodes(TicketRow(m), Ticket(m.sessionTicket), true, false)
  {
  }

  lemma RenegotiationDecodes(m: Hello)
    ensures Decodes(RenegotiationRow(m), Renegotiation(m.renegotiation), true, false)
  {
    if !RenegotiationRow(m).body.err { OnlyLP(1, m.renegotiation); }
  }

  lemma ExtendedMasterSecretDecodes(m: Hello)
    ensures Decodes(ExtendedMasterSecretRow(m), ExtendedMasterSecret, true, false)
  {
  }

  lemma SctDecodes(m: Hello)
    ensures Decodes(SctRow(m), Sct, true, false)
  {
  }

  lemma EarlyDataDecodes(m: Hello)
    ensures Decodes(EarlyDataRow(m), EarlyData, true, false)
  {
  }

  lemma QuicDecodes(m: Hello)
    ensures Decodes(QuicRow(m), Quic(if m.quic.Some? then m.quic.value else []), true, false)
  {
  }

  lemma EchDecodes(m: Hello)
    ensures Decodes(EchRow(m), Ech(m.ech), true, false)
  {
  }

  lemma StatusDecodes(m: Hello)
    ensures Decodes(StatusRow(m), Status(true), true, false)
  {
    ParseStatusRequestBody();
  }

  lemma CurvesDecodes(m: Hello)
    ensures Decodes(CurvesRow(m), Curves(m.supportedCurves), true, false)
  {
    if m.supportedCurves != [] && !CurvesRow(m).body.err { ParseU16sLP(2, m.supportedCurves); }
  }

  lemma SigAlgsDecodes(m: Hello)
    ensures Decodes(SigAlgsRow(m), SigAlgs(m.sigAlgs), true, false)
  {
    if m.sigAlgs != [] && !SigAlgsRow(m).body.err { ParseU16sLP(2, m.sigAlgs); }
  }

  lemma SigAlgsCertDecodes(m: Hello)
    ensures Decodes(SigAlgsCertRow(m), SigAlgsCert(m.sigAlgsCert), true, false)
  {
    if m.sigAlgsCert != [] && !SigAlgsCertRow(m).body.err { ParseU16sLP(2, m.sigAlgsCert); }
  }

  lemma AlpnDecodes(m: Hello)
    ensures Decodes(AlpnRow(m), Alpn(m.alpn), All(NonEmpty, m.alpn), false)
  {
    if m.alpn != [] && !AlpnRow(m).body.err { ParseAlpnLP(m.alpn); }
  }

  lemma VersionsDecodes(m: Hello)
    ensures Decodes(VersionsRow(m), Versions(m.supportedVersions), true, false)
  {
    if m.supportedVersions != [] && !VersionsRow(m).body.err { ParseU16sLP(1, m.supportedVersions); }
  }

  lemma CookieDecodes(m: Hello)
    ensures Decodes(CookieRow(m), Cookie(m.cookie), true, false)
  {
    if !CookieRow(m).body.err { OnlyLP(2, m.cookie); }
  }

  lemma KeyShareDecodes(m: Hello)
    ensures Decodes(KeyShareRow(m), KeyShares(m.keyShares), All(OkKeyShare, m.keyShares), false)
  {
    if !KeyShareRow(m).body.err { ParseKeySharesLP(m.keyShares); }
  }

  lemma PskModesDecodes(m: Hello)
    ensures Decodes(PskModesRow(m), PskModes(m.pskModes), true, false)
  {
    if !PskModesRow(m).body.err { OnlyLP(1, m.pskModes); }
  }

  lemma PskDecodes(m: Hello)
    ensures Decodes(PskRow(m), Psk(m.pskIdentities, m.pskBinders), PskOk(m), true)
  {
    if m.pskIdentities != [] && !PskRow(m).body.err { ParsePskLP(m.pskIdentities, m.pskBinders); }
  }

  /** The field f, or its absence, is what row k adds. */
  predicate Updates(m: Hello, d: bytes, row: Row, f: Field, k: nat) {
    if row.on then RowOk(k, m) ==> Update(Upto(k, m, d), f) == Upto(k + 1, m, d) else Upto(k, m, d) == Upto(k + 1, m, d)
  }

  /** Decoding row k and updating the fields it speaks of is one step of the path. */
  lemma StepFrom(m: Hello, d: bytes, row: Row, f: Field, k: nat, final: bool)
    requires Rank(row.typ) == k && Decodes(row, f, RowOk(k, m), final) && Updates(m, d, row, f, k)
    requires row.typ == EXT_SERVER_NAME ==> k == 0
    ensures HelloPath(m, d).Step(row, k, final)
  {
  }

  lemma NameUpdates(m: Hello, d: bytes)
    ensures Updates(m, d, NameRow(m), ServerName(m.serverName), 0)
  {
  }

  lemma NameStep(m: Hello, d: bytes)
    ensures HelloPath(m, d).Step(NameRow(m), 0, false)
  {
    NameDecodes(m);
    NameUpdates(m, d);
    StepFrom(m, d, NameRow(m), ServerName(m.serverName), 0, false);
  }

  lemma PointsUpdates(m: Hello, d: bytes)
    ensures Updates(m, d, PointsRow(m), Points(m.supportedPoints), 1)
  {
  }

  lemma PointsStep(m: Hello, d: bytes)
    ensures HelloPath(m, d).Step(PointsRow(m), 1, false)
  {
    PointsDecodes(m);
    PointsUpdates(m, d);
    StepFrom(m, d, PointsRow(m), Points(m.supportedPoints), 1, false);
  }

  lemma TicketUpdates(m: Hello, d: bytes)
    ensures Updates(m, d, TicketRow(m), Ticket(m.sessionTicket), 2)
  {
  }

  lemma TicketStep(m: Hello, d: bytes)
    ensures HelloPath(m, d).Step(TicketRow(m), 2, false)
  {
    TicketDecodes(m);
    TicketUpdates(m, d);
    StepFrom(m, d, TicketRow(m), Ticket(m.sessionTicket), 2, false);
  }

  lemma RenegotiationUpdates(m: Hello, d: bytes)
    ensures Updates(m, d, RenegotiationRow(m), Renegotiation(m.renegotiation), 3)
  {
  }

  lemma RenegotiationStep(m: Hello, d: bytes)
    ensures HelloPath(m, d).Step(RenegotiationRow(m), 3, false)
  {
    RenegotiationDecodes(m);
    RenegotiationUpdates(m, d);
    StepFrom(m, d, RenegotiationRow(m), Renegotiation(m.renegotiation), 3, false);
  }

  lemma ExtendedMasterSecretUpdates(m: Hello, d: bytes)
    ensures Updates(m, d, ExtendedMasterSecretRow(m), ExtendedMasterSecret, 4)
  {
  }

  lemma ExtendedMasterSecretStep(m: Hello, d: bytes)
    ensures HelloPath(m, d).Step(ExtendedMasterSecretRow(m), 4, false)
  {
    ExtendedMasterSecretDecodes(m);
    ExtendedMasterSecretUpdates(m, d);
    StepFrom(m, d, ExtendedMasterSecretRow(m), ExtendedMasterSecret, 4, false);
  }

  lemma SctUpdates(m: Hello, d: bytes)
    ensures Updates(m, d, SctRow(m), Sct, 5)
  {
  }

  lemma SctStep(m: Hello, d: bytes)
    ensures HelloPath(m, d).Step(SctRow(m), 5, false)
  {
    SctDecodes(m);
    SctUpdates(m, d);
    StepFrom(m, d, SctRow(m), Sct, 5, false);
  }

  lemma EarlyDataUpdates(m: Hello, d: bytes)
    ensures Updates(m, d, EarlyDataRow(m), EarlyData, 6)
  {
  }

  lemma EarlyDataStep(m: Hello, d: bytes)
    ensures HelloPath(m, d).Step(EarlyDataRow(m), 6, false)
  {
    EarlyDataDecodes(m);
    EarlyDataUpdates(m, d);
    StepFrom(m, d, EarlyDataRow(m), EarlyData, 6, false);
  }

  lemma QuicUpdates(m: Hello, d: bytes)
    ensures Updates(m, d, QuicRow(m), Quic(if m.quic.Some? then m.quic.value else []), 7)
  {
  }

  lemma QuicStep(m: Hello, d: bytes)
    ensures HelloPath(m, d).Step(QuicRow(m), 7, false)
  {
    QuicDecodes(m);
    QuicUpdates(m, d);
    StepFrom(m, d, QuicRow(m), Quic(if m.quic.Some? then m.quic.value else []), 7, false);
  }

  lemma EchUpdates(m: Hello, d: bytes)
    ensures Updates(m, d, EchRow(m), Ech(m.ech), 8)
  {
  }

  lemma EchStep(m: Hello, d: bytes)
    ensures HelloPath(m, d).Step(EchRow(m), 8, false)
  {
    EchDecodes(m);
    EchUpdates(m, d);
    StepFrom(m, d, EchRow(m), Ech(m.ech), 8, false);
  }

  lemma StatusUpdates(m: Hello, d: bytes)
    ensures Updates(m, d, StatusRow(m), Status(true), 9)
  {
  }

  lemma StatusStep(m: Hello, d: bytes)
    ensures HelloPath(m, d).Step(StatusRow(m), 9, false)
  {
    StatusDecodes(m);
    StatusUpdates(m, d);
    StepFrom(m, d, StatusRow(m), Status(true), 9, false);
  }

  lemma CurvesUpdates(m: Hello, d: bytes)
    ensures Updates(m, d, CurvesRow(m), Curves(m.supportedCurves), 10)
  {
    var u := Upto(10, m, d);
    assert u.supportedCurves + m.supportedCurves == m.supportedCurves;
    assert u.(supportedCurves := m.supportedCurves) == Upto(11, m, d);
  }

  lemma CurvesStep(m: Hello, d: bytes)
    ensures HelloPath(m, d).Step(CurvesRow(m), 10, false)
  {
    CurvesDecodes(m);
    CurvesUpdates(m, d);
    StepFrom(m, d, CurvesRow(m), Curves(m.supportedCurves), 10, false);
  }

  lemma SigAlgsUpdates(m: Hello, d: bytes)
    ensures Updates(m, d, SigAlgsRow(m), SigAlgs(m.sigAlgs), 11)
  {
    var u := Upto(11, m, d);
    assert u.sigAlgs + m.sigAlgs == m.sigAlgs;
    assert u.(sigAlgs := m.sigAlgs) == Upto(12, m, d);
  }

  lemma SigAlgsStep(m: Hello, d: bytes)
    ensures HelloPath(m, d).Step(SigAlgsRow(m), 11, false)
  {
    SigAlgsDecodes(m);
    SigAlgsUpdates(m, d);
    StepFrom(m, d, SigAlgsRow(m), SigAlgs(m.sigAlgs), 11, false);
  }

  lemma SigAlgsCertUpdates(m: Hello, d: bytes)
    ensures Updates(m, d, SigAlgsCertRow(m), SigAlgsCert(m.sigAlgsCert), 12)
  {
    var u := Upto(12, m, d);
    assert u.sigAlgsCert + m.sigAlgsCert == m.sigAlgsCert;
    assert u.(sigAlgsCert := m.sigAlgsCert) == Upto(13, m, d);
  }

  lemma SigAlgsCertStep(m: Hello, d: bytes)
    ensures HelloPath(m, d).Step(SigAlgsCertRow(m), 12, false)
  {
    SigAlgsCertDecodes(m);
    SigAlgsCertUpdates(m, d);
    StepFrom(m, d, SigAlgsCertRow(m), SigAlgsCert(m.sigAlgsCert), 12, false);
  }

  lemma AlpnUpdates(m: Hello, d: bytes)
    ensures Updates(m, d, AlpnRow(m), Alpn(m.alpn), 13)
  {
    var u := Upto(13, m, d);
    assert u.alpn + m.alpn == m.alpn;
    assert u.(alpn := m.alpn) == Upto(14, m, d);
  }

  lemma AlpnStep(m: Hello, d: bytes)
    ensures HelloPath(m, d).Step(AlpnRow(m), 13, false)
  {
    AlpnDecodes(m);
    AlpnUpdates(m, d);
    StepFrom(m, d, AlpnRow(m), Alpn(m.alpn), 13, false);
  }

  lemma VersionsUpdates(m: Hello, d: bytes)
    ensures Updates(m, d, VersionsRow(m), Versions(m.supportedVersions), 14)
  {
    var u := Upto(14, m, d);
    assert u.supportedVersions + m.supportedVersions == m.supportedVersions;
    assert u.(supportedVersions := m.supportedVersions) == Upto(15, m, d);
  }

  lemma VersionsStep(m: Hello, d: bytes)
    ensures HelloPath(m, d).Step(VersionsRow(m), 14, false)
  {
    VersionsDecodes(m);
    VersionsUpdates(m, d);
    StepFrom(m, d, VersionsRow(m), Versions(m.supportedVersions), 14, false);
  }

  lemma CookieUpdates(m: Hello, d: bytes)
    ensures Updates(m, d, CookieRow(m), Cookie(m.cookie), 15)
  {
  }

  lemma CookieStep(m: Hello, d: bytes)
    ensures HelloPath(m, d).Step(CookieRow(m), 15, false)
  {
    CookieDecodes(m);
    CookieUpdates(m, d);
    StepFrom(m, d, CookieRow(m), Cookie(m.cookie), 15, false);
  }

  lemma KeyShareUpdates(m: Hello, d: bytes)
    ensures Updates(m, d, KeyShareRow(m), KeyShares(m.keyShares), 16)
  {
    var u := Upto(16, m, d);
    assert u.keyShares + m.keyShares == m.keyShares;
    assert u.(keyShares := m.keyShares) == Upto(17, m, d);
  }

  lemma KeyShareStep(m: Hello, d: bytes)
    ensures HelloPath(m, d).Step(KeyShareRow(m), 16, false)
  {
    KeyShareDecodes(m);
    KeyShareUpdates(m, d);
    StepFrom(m, d, KeyShareRow(m), KeyShares(m.keyShares), 16, false);
  }

  lemma PskModesUpdates(m: Hello, d: bytes)
    ensures Updates(m, d, PskModesRow(m), PskModes(m.pskModes), 17)
  {
  }

  lemma PskModesStep(m: Hello, d: bytes)
    ensures HelloPath(m, d).Step(PskModesRow(m), 17, false)
  {
    PskModesDecodes(m);
    PskModesUpdates(m, d);
    StepFrom(m, d, PskModesRow(m), PskModes(m.pskModes), 17, false);
  }

  lemma PskUpdates(m: Hello, d: bytes)
    ensures Updates(m, d, PskRow(m), Psk(m.pskIdentities, m.pskBinders), 18)
  {
    assert [] + m.pskIdentities == m.pskIdentities;
    assert [] + m.pskBinders == m.pskBinders;
  }

  lemma PskStep(m: Hello, d: bytes)
    ensures HelloPath(m, d).Step(PskRow(m), 18, true)
  {
    PskDecodes(m);
    PskUpdates(m, d);
    StepFrom(m, d, PskRow(m), Psk(m.pskIdentities, m.pskBinders), 18, true);
  }

  // ---------------------------------------------------------------- all extensions

  lemma AlongJoined(p: Path<Hello>, a: seq<Row>, b: seq<Row>, c: seq<Row>, d: seq<Row>, e: seq<Row>)
    requires |a| == 1 && |b| == 4 && |c| == 4 && |d| == 9 && |e| == 1
    requires p.Along(a, 0, false) && p.Along(b, 1, false) && p.Along(c, 5, false) && p.Along(d, 9, false)
      && p.Along(e, 18, true)
    ensures p.Along(a + b + c + d + e, 0, true)
  {
    p.AlongSections(a, b, c, d, e);
  }

  lemma AlongTable(m: Hello, d: bytes)
    ensures HelloPath(m, d).Along(Table(m), 0, true)
  {
    AlongName(m, d);
    AlongTls12(m, d);
    AlongPlain(m, d);
    AlongBlock(m, d);
    AlongPsk(m, d);
    AlongJoined(HelloPath(m, d), [NameRow(m)], Tls12Rows(m), PlainRows(m), BlockRows(m), [PskRow(m)]);
  }

  lemma AlongName(m: Hello, d: bytes)
    ensures HelloPath(m, d).Along([NameRow(m)], 0, false)
  {
    NameStep(m, d);
  }

  lemma AlongPsk(m: Hello, d: bytes)
    ensures HelloPath(m, d).Along([PskRow(m)], 18, true)
  {
    PskStep(m, d);
  }

  lemma AlongTls12(m: Hello, d: bytes)
    ensures HelloPath(m, d).Along(Tls12Rows(m), 1, false)
  {
    PointsStep(m, d);
    TicketStep(m, d);
    RenegotiationStep(m, d);
    ExtendedMasterSecretStep(m, d);
  }

  lemma AlongPlain(m: Hello, d: bytes)
    ensures HelloPath(m, d).Along(PlainRows(m), 5, false)
  {
    SctStep(m, d);
    EarlyDataStep(m, d);
    QuicStep(m, d);
    EchStep(m, d);
  }

  lemma AlongBlock(m: Hello, d: bytes)
    ensures HelloPath(m, d).Along(BlockRows(m), 9, false)
  {
    StatusStep(m, d);
    CurvesStep(m, d);
    SigAlgsStep(m, d);
    SigAlgsCertStep(m, d);
    AlpnStep(m, d);
    VersionsStep(m, d);
    CookieStep(m, d);
    KeyShareStep(m, d);
    PskModesStep(m, d);
  }

  lemma ParseTable(m: Hello, d: bytes)
    requires All(FitsExt, Present(Table(m)))
    ensures ParseExts(Upto(0, m, d), EncList(EncExt, Present(Table(m)))) ==
            if WellFormed(m) then Some(Upto(19, m, d).(extensions := ExtTypes(Present(Table(m))))) else None
  {
    AlongTable(m, d);
    ParseAlong(m, d, Table(m));
  }

  lemma ParseAlong(m: Hello, d: bytes, rows: seq<Row>)
    requires HelloPath(m, d).Along(rows, 0, true) && |rows| == 19 && All(FitsExt, Present(rows))
    ensures ParseExts(Upto(0, m, d), EncList(EncExt, Present(rows))) ==
            if WellFormed(m) then Some(Upto(19, m, d).(extensions := ExtTypes(Present(rows)))) else None
  {
    var p := HelloPath(m, d);
    assert rows[0..] == rows;
    p.ReadRows(rows, 0, []);
    assert [] + ExtTypes(Present(rows)) == ExtTypes(Present(rows));
    assert p.OkFrom(0, 19) <==> WellFormed(m) by {
      assert p.ok(0) == NameOk(m) && p.ok(13) == All(NonEmpty, m.alpn);
      assert p.ok(16) == All(OkKeyShare, m.keyShares) && p.ok(18) == PskOk(m);
    }
  }

  // ---------------------------------------------------------------- the whole message

  lemma EncExtsEmpty(es: seq<Ext>)
    ensures EncList(EncExt, es) == [] <==> es == []
  {
    if es != [] { assert |EncExt(es[0])| >= 4; }
  }

  function FixedBytes(m: Hello, sid: bytes): bytes {
    Put(2, m.vers) + m.random
    + Put(1, |sid|) + sid
    + Put(2, |EncList(EncU16, m.cipherSuites)|) + EncList(EncU16, m.cipherSuites)
    + Put(1, |m.compressionMethods|) + m.compressionMethods
  }

  /** The fixed fields of a marshalled message read back, whatever follows. */
  lemma ReadFixedOf(m: Hello, sid: bytes, tail: bytes)
    requires |m.random| == 32
    requires |sid| < 0x100 && 2 * |m.cipherSuites| < 0x1_0000 && |m.compressionMethods| < 0x100
    ensures ReadFixed(FixedBytes(m, sid) + tail) ==
            Some((Fixed(Put(2, m.vers) + m.random, sid, EncList(EncU16, m.cipherSuites), m.compressionMethods), tail))
  {
    var s := FixedBytes(m, sid) + tail;
    Limits();
    U16ListLength(m.cipherSuites);
    var cs := EncList(EncU16, m.cipherSuites);
    var s3 := Put(1, |m.compressionMethods|) + m.compressionMethods + tail;
    var s2 := Put(2, |cs|) + cs + s3;
    var s1 := Put(1, |sid|) + sid + s2;
    Regroup(Put(2, m.vers) + m.random, Put(1, |sid|), sid, Put(2, |cs|), cs, Put(1, |m.compressionMethods|),
      m.compressionMethods, tail);
    assert s == Put(2, m.vers) + m.random + s1;
    assert s[34..] == s1 && s[..34] == Put(2, m.vers) + m.random;
    ReadLPPut(1, sid, s2);
    ReadLPPut(2, cs, s3);
    ReadLPPut(1, m.compressionMethods, tail);
  }

  lemma Regroup(a: bytes, b: bytes, c: bytes, d: bytes, e: bytes, f: bytes, g: bytes, h: bytes)
    ensures a + b + c + d + e + f + g + h == a + (b + c + (d + e + (f + g + h)))
  {
  }

  lemma ParseFixedOf(m: Hello, hdr: bytes, tail: bytes)
    requires |hdr| == 4 && |m.random| == 32
    requires |m.sessionId| < 0x100 && 2 * |m.cipherSuites| < 0x1_0000 && |m.compressionMethods| < 0x100
    ensures var data := hdr + FixedBytes(m, m.sessionId) + tail;
            ParseFixed(data) == Some((Upto(0, m, data), tail))
  {
    var data := hdr + FixedBytes(m, m.sessionId) + tail;
    assert data[4..] == FixedBytes(m, m.sessionId) + tail;
    ReadFixedOf(m, m.sessionId, tail);
    var vr := Put(2, m.vers) + m.random;
    assert vr[..2] == Put(2, m.vers) && vr[2..] == m.random;
    Limits();
    GetPut(2, m.vers);
    U16Codec();
    ListRoundTrip(EncU16, DecU16, AnyU16, AnyU16, m.cipherSuites);
  }

  /** The bytes of a body without overflow, and what that says about its parts. */
  lemma BodyShape(m: Hello, sid: bytes, es: seq<Ext>)
    requires !Body(m, sid, es).err
    ensures |m.random| == 32
    ensures |sid| < 0x100 && 2 * |m.cipherSuites| < 0x1_0000 && |m.compressionMethods| < 0x100
    ensures All(FitsExt, es) && (es != [] ==> |EncList(EncExt, es)| < 0x1_0000)
    ensures Body(m, sid, es).result
      == FixedBytes(m, sid) + (if es == [] then [] else LP(2, Of(EncList(EncExt, es))).result)
  {
    FixedShape(m, sid);
    if es != [] { TailShape(FixedPart(m, sid), es); }
  }

  lemma TailShape(fixed: Builder, es: seq<Ext>)
    requires !fixed.AddLP(2, Items(EncExt, FitsExt, es)).err
    ensures !fixed.err && All(FitsExt, es) && |EncList(EncExt, es)| < 0x1_0000
    ensures fixed.AddLP(2, Items(EncExt, FitsExt, es)).result == fixed.result + LP(2, Of(EncList(EncExt, es))).result
  {
    Limits();
  }

  lemma FixedShape(m: Hello, sid: bytes)
    requires !FixedPart(m, sid).err
    ensures |m.random| == 32
    ensures |sid| < 0x100 && 2 * |m.cipherSuites| < 0x1_0000 && |m.compressionMethods| < 0x100
    ensures FixedPart(m, sid).result == FixedBytes(m, sid)
  {
    Limits();
    U16ListLength(m.cipherSuites);
  }

  /** Unmarshalling a marshalled message succeeds exactly when it is well formed, and returns what was sent. */
  lemma RoundTrip(m: Hello, data: bytes)
    requires MarshalMsg(m, false) == Some(data)
    ensures Parse(data) == if WellFormed(m) then Some(Received(m, data)) else None
  {
    var es := Present(Table(m));
    BodyShape(m, m.sessionId, es);
    ParseBody(m, data, es);
    ParseTable(m, data);
  }

  /** A message with the given extension list parses as its extension block does. */
  lemma ParseBody(m: Hello, data: bytes, es: seq<Ext>)
    requires Of([TYPE_CLIENT_HELLO]).AddLP(3, Body(m, m.sessionId, es)).Bytes() == Some(data)
    ensures Parse(data) == ParseExts(Upto(0, m, data), EncList(EncExt, es))
  {
    BodyShape(m, m.sessionId, es);
    EncExtsEmpty(es);
    Limits();
    var body := Body(m, m.sessionId, es).result;
    var hdr := [TYPE_CLIENT_HELLO] + Put(3, |body|);
    var x := EncList(EncExt, es);
    var tail := if es == [] then [] else LP(2, Of(x)).result;
    assert data == hdr + FixedBytes(m, m.sessionId) + tail;
    ParseFixedOf(m, hdr, tail);
    if es != [] { OnlyLP(2, x); }
  }
}
