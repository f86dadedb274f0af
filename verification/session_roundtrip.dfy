/** A stored session, whatever follows it, parses back to what was stored. */
module SessionRoundTrip {
  import opened Wire
  import opened Extensions
  import opened ClientHello
  import opened ClientHelloRoundTrip
  import opened PskBinders
  import opened Session

  // ---------------------------------------------------------------- certificate lists

  lemma ParseCertExt(c: CertList, e: Ext, rest: bytes)
    requires FitsExt(e) && |c.certs| <= 1
    ensures ParseCertExts(c, EncExt(e) + rest) ==
      match ApplyCertExt(c, RawExt(e.typ, e.body.result)) case None => None case Some(c') => ParseCertExts(c', rest)
  {
    DecEncExt(e, rest);
  }

  lemma ApplyOcsp(c: CertList, acc: CertList)
    requires c.ocsp.Some? && !OcspRow(c).body.err
    ensures ApplyCertExt(acc, RawExt(EXT_STATUS_REQUEST, OcspRow(c).body.result))
      == if OcspOk(c) then Some(acc.(ocsp := c.ocsp)) else None
  {
    var d := OcspRow(c).body.result;
    var staple := c.ocsp.value;
    ReadLPPut(3, staple, []);
    assert d[1..] == Put(3, |staple|) + staple + [];
    assert d[0] == STATUS_TYPE_OCSP;
  }

  lemma ApplyScts(c: CertList, acc: CertList)
    requires c.scts.Some? && acc.scts.None? && !Session.SctRow(c).body.err
    ensures ApplyCertExt(acc, RawExt(EXT_SCT, Session.SctRow(c).body.result))
      == if SctsOk(c) then Some(acc.(scts := c.scts)) else None
  {
    var xs := c.scts.value;
    Str16Codec();
    OnlyLP(2, EncList(EncStr16, xs));
    ListRoundTrip(EncStr16, DecStr16, Fits16, NonEmpty, xs);
    assert [] + xs == xs;
  }

  /** The leaf's extensions read back. */
  lemma ParseLeafExts(c: CertList, acc: CertList)
    requires |acc.certs| == 1 && acc.ocsp.None? && acc.scts.None?
    requires All(FitsExt, EntryExts(c, 0))
    ensures ParseCertExts(acc, EncList(EncExt, EntryExts(c, 0))) ==
            if OcspOk(c) && SctsOk(c) then Some(CertList(acc.certs, c.ocsp, c.scts)) else None
  {
    var o, t := OcspRow(c), Session.SctRow(c);
    PresentAppend([o], [t]);
    assert [o] + [t] == [o, t];
    ParseLeafRows(c, acc, Present([o]), Present([t]));
  }

  lemma ParseLeafRows(c: CertList, acc: CertList, oe: seq<Ext>, te: seq<Ext>)
    requires |acc.certs| == 1 && acc.ocsp.None? && acc.scts.None?
    requires oe == Present([OcspRow(c)]) && te == Present([Session.SctRow(c)]) && All(FitsExt, oe + te)
    ensures ParseCertExts(acc, EncList(EncExt, oe + te)) ==
            if OcspOk(c) && SctsOk(c) then Some(CertList(acc.certs, c.ocsp, c.scts)) else None
  {
    PresentOne(OcspRow(c));
    PresentOne(Session.SctRow(c));
    EncListAppend(EncExt, oe, te);
    FitsBoth(oe, te);
    ParseLeafScts(c, acc.(ocsp := c.ocsp), te);
    if c.ocsp.Some? {
      assert FitsExt(oe[0]);
      ParseLeafOcsp(c, acc, oe, EncList(EncExt, te));
    } else {
      assert EncList(EncExt, oe) + EncList(EncExt, te) == EncList(EncExt, te);
      assert acc.(ocsp := c.ocsp) == acc;
    }
  }

  lemma FitsBoth(a: seq<Ext>, b: seq<Ext>)
    requires All(FitsExt, a + b)
    ensures All(FitsExt, a) && All(FitsExt, b)
  {
    assert forall i :: 0 <= i < |a| ==> a[i] == (a + b)[i];
    assert forall i :: 0 <= i < |b| ==> b[i] == (a + b)[|a| + i];
  }

  lemma ParseLeafOcsp(c: CertList, acc: CertList, oe: seq<Ext>, rest: bytes)
    requires |acc.certs| == 1 && c.ocsp.Some? && oe == Present([OcspRow(c)]) && |oe| == 1 && FitsExt(oe[0])
    requires oe[0] == Ext(OcspRow(c).typ, OcspRow(c).body)
    ensures ParseCertExts(acc, EncList(EncExt, oe) + rest) ==
            if OcspOk(c) then ParseCertExts(acc.(ocsp := c.ocsp), rest) else None
  {
    var e := oe[0];
    assert EncList(EncExt, oe) == EncExt(e) + [];
    assert EncList(EncExt, oe) + rest == EncExt(e) + rest;
    ApplyOcsp(c, acc);
    ParseCertExt(acc, e, rest);
  }

  lemma ParseLeafScts(c: CertList, acc: CertList, te: seq<Ext>)
    requires |acc.certs| == 1 && acc.scts.None?
    requires te == Present([Session.SctRow(c)]) && All(FitsExt, te)
    ensures ParseCertExts(acc, EncList(EncExt, te)) == if SctsOk(c) then Some(acc.(scts := c.scts)) else None
  {
    PresentOne(Session.SctRow(c));
    if c.scts.Some? {
      var e := te[0];
      assert FitsExt(e);
      ApplyScts(c, acc);
      ParseCertExt(acc, e, []);
      assert EncList(EncExt, te) == EncExt(e) + [];
    } else {
      assert acc.(scts := c.scts) == acc;
    }
  }

  /** One entry peels off. */
  lemma ParseEntry(acc: CertList, cert: bytes, x: bytes, rest: bytes)
    requires |cert| < 0x100_0000 && |x| < 0x1_0000
    ensures ParseEntries(acc, Put(3, |cert|) + cert + Put(2, |x|) + x + rest) ==
      match ParseCertExts(acc.(certs := acc.certs + [cert]), x)
      case None => None
      case Some(c') => ParseEntries(c', rest)
  {
    Limits();
    var s1 := Put(2, |x|) + x + rest;
    assert Put(3, |cert|) + cert + Put(2, |x|) + x + rest == Put(3, |cert|) + cert + s1;
    ReadLPPut(3, cert, s1);
    ReadLPPut(2, x, rest);
  }

  lemma {:induction false} ParseLaterEntries(c: CertList, i: nat, acc: CertList)
    requires 0 < i <= |c.certs| && acc.certs == c.certs[..i] && !EntriesFrom(c, i).err
    ensures ParseEntries(acc, EntriesFrom(c, i).result) == Some(acc.(certs := c.certs))
    decreases |c.certs| - i
  {
    if i == |c.certs| {
      assert acc.certs == c.certs;
    } else {
      EntryBytes(c, i);
      Limits();
      var acc' := acc.(certs := acc.certs + [c.certs[i]]);
      assert acc'.certs == c.certs[..i + 1];
      ParseEntry(acc, c.certs[i], [], EntriesFrom(c, i + 1).result);
      ParseLaterEntries(c, i + 1, acc');
    }
  }

  lemma EntryBytes(c: CertList, i: nat)
    requires i < |c.certs| && !EntriesFrom(c, i).err
    ensures var x := EncList(EncExt, EntryExts(c, i));
      && |c.certs[i]| < 0x100_0000 && |x| < 0x1_0000 && All(FitsExt, EntryExts(c, i)) && !EntriesFrom(c, i + 1).err
      && EntriesFrom(c, i).result == Put(3, |c.certs[i]|) + c.certs[i] + Put(2, |x|) + x + EntriesFrom(c, i + 1).result
  {
    Limits();
    var x := EncList(EncExt, EntryExts(c, i));
    assert [] + Put(3, |c.certs[i]|) == Put(3, |c.certs[i]|);
  }

  lemma ParseAllEntries(c: CertList)
    requires !EntriesFrom(c, 0).err
    ensures ParseEntries(NO_CERTS, EntriesFrom(c, 0).result) == if CertsOk(c) then Some(ReceivedCerts(c)) else None
  {
    if c.certs == [] {
      assert EntriesFrom(c, 0).result == [];
    } else {
      EntryBytes(c, 0);
      var x, later, l := EncList(EncExt, EntryExts(c, 0)), EntriesFrom(c, 1).result, EntriesFrom(c, 0).result;
      ParseLeafExts(c, CertList([c.certs[0]], None, None));
      ParseLater(c);
      ParseFirst(l, c.certs[0], x, later, OcspOk(c) && SctsOk(c), CertList([c.certs[0]], c.ocsp, c.scts), c);
    }
  }

  lemma ParseLater(c: CertList)
    requires c.certs != [] && !EntriesFrom(c, 1).err
    ensures ParseEntries(CertList([c.certs[0]], c.ocsp, c.scts), EntriesFrom(c, 1).result) == Some(c)
  {
    ParseLaterEntries(c, 1, CertList([c.certs[0]], c.ocsp, c.scts));
  }

  lemma ParseFirst(l: bytes, cert: bytes, x: bytes, later: bytes, ok: bool, c1: CertList, c: CertList)
    requires |cert| < 0x100_0000 && |x| < 0x1_0000
    requires ParseCertExts(CertList([cert], None, None), x) == (if ok then Some(c1) else None)
      && ParseEntries(c1, later) == Some(c)
    requires l == Put(3, |cert|) + cert + Put(2, |x|) + x + later
    ensures ParseEntries(NO_CERTS, l) == if ok then Some(c) else None
  {
    ParseEntry(NO_CERTS, cert, x, later);
    assert NO_CERTS.certs + [cert] == [cert];
  }

  /** A certificate list reads back, whatever follows it, exactly when a reader accepts it. */
  lemma CertsRoundTrip(c: CertList, rest: bytes)
    requires !MarshalCerts(c).err
    ensures UnmarshalCerts(MarshalCerts(c).result + rest) == if CertsOk(c) then Some((ReceivedCerts(c), rest)) else None
  {
    ReadLPOf(EntriesFrom(c, 0), rest);
    ParseAllEntries(c);
  }

  lemma ReadLPOf(b: Builder, rest: bytes)
    requires !LP(3, b).err
    ensures ReadLP(3, LP(3, b).result + rest) == Some((b.result, rest))
  {
    ReadLPPut(3, b.result, rest);
    assert LP(3, b).result + rest == Put(3, |b.result|) + b.result + rest;
  }

  // ---------------------------------------------------------------- sessions

  lemma HeadRoundTrip(s: State, rest: bytes)
    requires !HeadBytes(s).err
    ensures ParseHead(HeadBytes(s).result + rest) == if s.secret == [] then None else Some((HeadOf(s), rest))
  {
    var x := EncList(EncStr24, s.extra);
    var s7 := [Bit(s.earlyData)] + rest;
    var s6 := [Bit(s.extMasterSecret)] + s7;
    var s5 := Put(3, |x|) + x + s6;
    var s4 := Put(1, |s.secret|) + s.secret + s5;
    var s3 := Put(8, s.createdAt) + s4;
    var s2 := Put(2, s.cipherSuite) + s3;
    var s1 := [if s.isClient then 2 else 1] + s2;
    HeadNests(s, rest, s6, s4, s2);
    ReadU16Put(s.version, s1);
    ReadU16Put(s.cipherSuite, s3);
    ReadU64Put(s.createdAt, s4);
    ReadLPPut(1, s.secret, s5);
    ReadLPPut(3, x, s6);
    assert s1[1..] == s2 && s6[1..] == s7 && s7[1..] == rest;
  }

  lemma HeadNests(s: State, rest: bytes, s6: bytes, s4: bytes, s2: bytes)
    requires s6 == [Bit(s.extMasterSecret)] + ([Bit(s.earlyData)] + rest)
    requires var x := EncList(EncStr24, s.extra); s4 == Put(1, |s.secret|) + s.secret + (Put(3, |x|) + x + s6)
    requires s2 == Put(2, s.cipherSuite) + (Put(8, s.createdAt) + s4)
    ensures HeadBytes(s).result + rest == Put(2, s.version) + ([if s.isClient then 2 else 1] + s2)
  {
    var x := EncList(EncStr24, s.extra);
    NestHead(Put(2, s.version), [if s.isClient then 2 else 1], Put(2, s.cipherSuite), Put(8, s.createdAt),
             Put(1, |s.secret|), s.secret, Put(3, |x|), x, Bit(s.extMasterSecret), Bit(s.earlyData), rest, s6, s4, s2);
  }

  lemma Nest4(a: bytes, b: bytes, c: bytes, d: bytes, e: bytes)
    ensures a + (b + (c + d)) + e == a + (b + (c + (d + e)))
    ensures [] + a + b + c + d == a + b + (c + d)
  {
  }

  lemma NestHead(a: bytes, b: bytes, c: bytes, d: bytes, e: bytes, f: bytes, g: bytes, h: bytes, p: byte, q: byte,
                 rest: bytes, s6: bytes, s4: bytes, s2: bytes)
    requires s6 == [p] + ([q] + rest) && s4 == e + f + (g + h + s6) && s2 == c + (d + s4)
    ensures a + b + c + d + e + f + g + h + [p, q] + rest == a + (b + s2)
  {
    assert s6 == [p, q] + rest;
    NestAll(a, b, c, d, e, f, g, h, [p, q], rest);
  }

  lemma NestAll(a: bytes, b: bytes, c: bytes, d: bytes, e: bytes, f: bytes, g: bytes, h: bytes, i: bytes, j: bytes)
    ensures a + b + c + d + e + f + g + h + i + j == a + (b + (c + (d + (e + f + (g + h + (i + j))))))
  {
  }

  /** Chains come back with the peer's leaf in front. */
  function Rebuilt(peers: seq<bytes>, chains: seq<seq<bytes>>): (r: seq<seq<bytes>>)
    requires peers != [] && forall i :: 0 <= i < |chains| ==> chains[i] != []
    ensures |r| == |chains|
    ensures forall i :: 0 <= i < |chains| ==> r[i] == [peers[0]] + chains[i][1..]
  {
    if chains == [] then [] else [[peers[0]] + chains[0][1..]] + Rebuilt(peers, chains[1..])
  }

  /** Every certificate behind a leaf is one. */
  ghost predicate ChainsParse(parses: bytes -> bool, chains: seq<seq<bytes>>) {
    forall i :: 0 <= i < |chains| ==> chains[i] != [] && All(parses, chains[i][1..])
  }

  lemma {:induction false} ChainsRoundTrip(parses: bytes -> bool, peers: seq<bytes>, chains: seq<seq<bytes>>)
    requires All(FitsChain, chains)
    ensures ParseChains(parses, peers, EncList(EncChain, chains)) ==
      if chains == [] then Some([])
      else if peers != [] && ChainsParse(parses, chains) then Some(Rebuilt(peers, chains)) else None
  {
    if chains != [] {
      var chain, rest := chains[0], EncList(EncChain, chains[1..]);
      assert FitsChain(chain);
      var l := EncList(EncStr24, chain[1..]);
      Limits();
      ReadLPPut(3, l, rest);
      Str24Codec();
      ListRoundTrip(EncStr24, DecStr24, Fits24, AnyBytes, chain[1..]);
      TailOf(parses, chains);
      ChainsRoundTrip(parses, peers, chains[1..]);
    }
  }

  lemma TailOf(parses: bytes -> bool, chains: seq<seq<bytes>>)
    requires chains != [] && All(FitsChain, chains)
    ensures All(FitsChain, chains[1..])
    ensures ChainsParse(parses, chains) <==> All(parses, chains[0][1..]) && ChainsParse(parses, chains[1..])
  {
    assert FitsChain(chains[0]);
    assert forall i :: 0 <= i < |chains| - 1 ==> chains[1..][i] == chains[i + 1];
    if All(parses, chains[0][1..]) && ChainsParse(parses, chains[1..]) {
      forall i | 0 <= i < |chains| ensures chains[i] != [] && All(parses, chains[i][1..]) {
        if i > 0 { assert chains[i] == chains[1..][i - 1]; }
      }
    }
  }

  function Fields(s: State): (u64, u32, u16) {
    if s.version < VERSION_TLS13 then (0, 0, s.curveID) else if s.isClient then (s.useBy, s.ageAdd, 0) else (0, 0, 0)
  }

  lemma FieldsRoundTrip(s: State, rest: bytes)
    ensures ParseFields(s.version, s.isClient, FieldBytes(s) + rest) == Some(Fields(s))
  {
    if s.version < VERSION_TLS13 {
      ReadU16Put(s.curveID, rest);
    } else if s.isClient {
      var s1 := Put(4, s.ageAdd) + rest;
      assert FieldBytes(s) + rest == Put(8, s.useBy) + s1;
      ReadU64Put(s.useBy, s1);
      ReadU32Put(s.ageAdd, rest);
    }
  }

  lemma TailRoundTrip(s: State, rest: bytes)
    requires !TailBytes(s).err
    ensures ParseTail(s.version, s.isClient, s.earlyData, TailBytes(s).result + rest) ==
            Some((if s.earlyData then s.alpn else [], Fields(s).0, Fields(s).1, Fields(s).2))
  {
    var s1 := FieldBytes(s) + rest;
    FieldsRoundTrip(s, rest);
    if s.earlyData {
      ReadLPPut(1, s.alpn, s1);
      Nest4(Put(1, |s.alpn|), s.alpn, FieldBytes(s), rest, []);
    } else {
      assert TailBytes(s).result + rest == s1;
    }
  }

  /** The sessions that parse. */
  ghost predicate Acceptable(parses: bytes -> bool, s: State) {
    && s.secret != [] && CertsOk(Certs(s)) && All(parses, s.peerCerts)
    && (s.isClient || s.verifiedChains != [] ==> s.peerCerts != [])
    && ChainsParse(parses, s.verifiedChains)
  }

  /** What comes back: staples need a leaf, chains get the peer's leaf, and only the encoded fields survive. */
  function Restored(s: State): State
    requires s.verifiedChains != [] ==>
      s.peerCerts != [] && forall i :: 0 <= i < |s.verifiedChains| ==> s.verifiedChains[i] != []
  {
    var (useBy, ageAdd, curveID) := Fields(s);
    var c := ReceivedCerts(Certs(s));
    s.(ocsp := c.ocsp, scts := c.scts,
       verifiedChains := if s.verifiedChains == [] then [] else Rebuilt(s.peerCerts, s.verifiedChains),
       alpn := if s.earlyData then s.alpn else [],
       useBy := useBy, ageAdd := ageAdd, curveID := curveID, ticket := [])
  }

  function HeadOf(s: State): Head {
    Head(s.version, if s.isClient then 2 else 1, s.cipherSuite, s.createdAt, s.secret, EncList(EncStr24, s.extra),
         Bit(s.extMasterSecret), Bit(s.earlyData))
  }

  lemma AssembleRoundTrip(parses: bytes -> bool, s: State, suffix: bytes)
    requires CertsOk(Certs(s)) && All(Fits24, s.extra)
    requires !LP(3, Items(EncChain, FitsChain, s.verifiedChains)).err && !TailBytes(s).err && s.secret != []
    ensures Assemble(parses, HeadOf(s), ReceivedCerts(Certs(s)),
      LP(3, Items(EncChain, FitsChain, s.verifiedChains)).result + (TailBytes(s).result + suffix))
            == if Acceptable(parses, s) then Some(Restored(s)) else None
  {
    Str24Codec();
    ListRoundTrip(EncStr24, DecStr24, Fits24, AnyBytes, s.extra);
    ReadLPOf(Items(EncChain, FitsChain, s.verifiedChains), TailBytes(s).result + suffix);
    ChainsRoundTrip(parses, s.peerCerts, s.verifiedChains);
    TailRoundTrip(s, suffix);
  }

  /**
    Parsing an encoded session followed by anything succeeds exactly when the session is acceptable,
    and restores it.
   */
  lemma SessionStateRoundTrip(parses: bytes -> bool, s: State, data: bytes, suffix: bytes)
    requires ToBytes(s) == Some(data)
    ensures ParseState(parses, data + suffix) == if Acceptable(parses, s) then Some(Restored(s)) else None
  {
    var s2 := LP(3, Items(EncChain, FitsChain, s.verifiedChains)).result + (TailBytes(s).result + suffix);
    var s1 := MarshalCerts(Certs(s)).result + s2;
    Nest4(HeadBytes(s).result, MarshalCerts(Certs(s)).result,
      LP(3, Items(EncChain, FitsChain, s.verifiedChains)).result,
          TailBytes(s).result, suffix);
    HeadRoundTrip(s, s1);
    CertsRoundTrip(Certs(s), s2);
    if s.secret != [] && CertsOk(Certs(s)) {
      AssembleRoundTrip(parses, s, suffix);
    }
  }
}
