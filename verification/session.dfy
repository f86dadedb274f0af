/** Certificate lists and resumable sessions: what is stored and what comes back. */
module Session {
  import opened Wire
  import opened Extensions
  import opened ClientHello
  import opened PskBinders

  const VERSION_TLS13: u16 := 0x0304

  // ---------------------------------------------------------------- certificate lists

  /** Certificates, leaf first, with the leaf's OCSP staple and timestamps; absent differs from empty. */
  datatype CertList = CertList(certs: seq<bytes>, ocsp: Option<bytes>, scts: Option<seq<bytes>>)

  function EncStr16(b: bytes): bytes { Put(2, |b|) + b }

  predicate Fits16(b: bytes) { |b| < 0x1_0000 }

  function DecStr16(s: bytes): Option<(bytes, bytes)> {
    var (b, rest) :- ReadLP(2, s);
    if b == [] then None else Some((b, rest))
  }

  lemma Str16Codec()
    ensures ItemCodec(EncStr16, DecStr16, Fits16, NonEmpty)
  {
    forall b: bytes, rest: bytes ensures ItemOk(EncStr16, DecStr16, Fits16, NonEmpty, b, rest) {
      Limits();
      if Fits16(b) { ReadLPPut(2, b, rest); }
    }
  }

  function OcspRow(c: CertList): Row {
    Row(EXT_STATUS_REQUEST, c.ocsp.Some?,
      Of([STATUS_TYPE_OCSP]).AddLP(3, Of(if c.ocsp.Some? then c.ocsp.value else [])))
  }

  function SctRow(c: CertList): Row {
    Row(EXT_SCT, c.scts.Some?, LP(2, Items(EncStr16, Fits16, if c.scts.Some? then c.scts.value else [])))
  }

  /** The extensions of entry i: only the leaf has any. */
  function EntryExts(c: CertList, i: nat): seq<Ext> {
    if i > 0 then [] else Present([OcspRow(c), SctRow(c)])
  }

  /** Entry i of the list, and behind it all the later ones. */
  function EntriesFrom(c: CertList, i: nat): Builder
    requires i <= |c.certs|
    decreases |c.certs| - i
  {
    if i == |c.certs| then EMPTY else
    var rest := EntriesFrom(c, i + 1);
    var entry := LP(3, Of(c.certs[i])).AddLP(2, Items(EncExt, FitsExt, EntryExts(c, i)));
    Builder(entry.result + rest.result, entry.err || rest.err)
  }

  function MarshalCerts(c: CertList): Builder { LP(3, EntriesFrom(c, 0)) }

  /** What one extension of the leaf adds. */
  function ApplyCertExt(c: CertList, e: RawExt): Option<CertList> {
    if e.typ == EXT_STATUS_REQUEST then
      var (t, s) :- ReadU8(e.data);
      var (staple, s') :- ReadLP(3, s);
      if t != STATUS_TYPE_OCSP || staple == [] || s' != [] then None else Some(c.(ocsp := Some(staple)))
    else if e.typ == EXT_SCT then
      var l :- Only(2, e.data);
      if l == [] then None else
      var xs :- DecList(DecStr16, l);
      Some(c.(scts := Some((if c.scts.Some? then c.scts.value else []) + xs)))
    else
      Some(c)
  }

  function ParseCertExts(c: CertList, s: bytes): Option<CertList>
    decreases |s|
  {
    if s == [] then Some(c) else
    var (e, rest) :- DecExt(s);
    var c' :- if |c.certs| > 1 then Some(c) else ApplyCertExt(c, e);
    ParseCertExts(c', rest)
  }

  function ParseEntries(c: CertList, s: bytes): Option<CertList>
    decreases |s|
  {
    if s == [] then Some(c) else
    var (cert, s1) :- ReadLP(3, s);
    var (exts, rest) :- ReadLP(2, s1);
    var c' :- ParseCertExts(c.(certs := c.certs + [cert]), exts);
    ParseEntries(c', rest)
  }

  const NO_CERTS := CertList([], None, None)

  function UnmarshalCerts(s: bytes): Option<(CertList, bytes)> {
    var (l, rest) :- ReadLP(3, s);
    var c :- ParseEntries(NO_CERTS, l);
    Some((c, rest))
  }

  /** What a reader refuses: an empty staple, no timestamp, or an empty one. */
  predicate OcspOk(c: CertList) { c.ocsp.Some? ==> c.ocsp.value != [] }

  predicate SctsOk(c: CertList) { c.scts.Some? ==> c.scts.value != [] && All(NonEmpty, c.scts.value) }

  predicate CertsOk(c: CertList) { c.certs != [] ==> OcspOk(c) && SctsOk(c) }

  /** Without a leaf there is nothing to staple to. */
  function ReceivedCerts(c: CertList): CertList {
    if c.certs == [] then NO_CERTS else c
  }

  // ---------------------------------------------------------------- sessions

  /** A certificate is represented by its DER bytes. */
  datatype State = State(
    version: u16, isClient: bool, cipherSuite: u16, createdAt: u64, secret: bytes, extra: seq<bytes>,
    extMasterSecret: bool, earlyData: bool, peerCerts: seq<bytes>, ocsp: Option<bytes>, scts: Option<seq<bytes>>,
    verifiedChains: seq<seq<bytes>>, alpn: bytes, useBy: u64, ageAdd: u32, curveID: u16, ticket: bytes)

  function Join(a: Builder, b: Builder): Builder { Builder(a.result + b.result, a.err || b.err) }

  function EncStr24(b: bytes): bytes { Put(3, |b|) + b }

  predicate Fits24(b: bytes) { |b| < 0x100_0000 }

  predicate AnyBytes(b: bytes) { true }

  function DecStr24(s: bytes): Option<(bytes, bytes)> { ReadLP(3, s) }

  lemma Str24Codec()
    ensures ItemCodec(EncStr24, DecStr24, Fits24, AnyBytes)
  {
    forall b: bytes, rest: bytes ensures ItemOk(EncStr24, DecStr24, Fits24, AnyBytes, b, rest) {
      Limits();
      if Fits24(b) { ReadLPPut(3, b, rest); }
    }
  }

  function Bit(b: bool): byte { if b then 1 else 0 }

  function HeadBytes(s: State): Builder {
    Of(Put(2, s.version) + [if s.isClient then 2 else 1] + Put(2, s.cipherSuite) + Put(8, s.createdAt))
    .AddLP(1, Of(s.secret)).AddLP(3, Items(EncStr24, Fits24, s.extra)).Add([Bit(s.extMasterSecret), Bit(s.earlyData)])
  }

  function Certs(s: State): CertList { CertList(s.peerCerts, s.ocsp, s.scts) }

  /** A verified chain without its leaf; an empty chain is an error. */
  function EncChain(chain: seq<bytes>): bytes {
    var l := if chain == [] then [] else EncList(EncStr24, chain[1..]);
    Put(3, |l|) + l
  }

  predicate FitsChain(chain: seq<bytes>) {
    chain != [] && All(Fits24, chain[1..]) && |EncList(EncStr24, chain[1..])| < 0x100_0000
  }

  function FieldBytes(s: State): bytes {
    if s.version < VERSION_TLS13 then Put(2, s.curveID)
    else if s.isClient then Put(8, s.useBy) + Put(4, s.ageAdd)
    else []
  }

  function TailBytes(s: State): Builder {
    Join(if s.earlyData then LP(1, Of(s.alpn)) else EMPTY, Of(FieldBytes(s)))
  }

  function ToBytes(s: State): Option<bytes> {
    Join(HeadBytes(s),
      Join(MarshalCerts(Certs(s)), Join(LP(3, Items(EncChain, FitsChain, s.verifiedChains)), TailBytes(s)))).Bytes()
  }

  datatype Head = Head(version: u16, typ: byte, cipherSuite: u16, createdAt: u64, secret: bytes, extra: bytes,
      ems: byte, early: byte)

  function ParseHead(s: bytes): Option<(Head, bytes)> {
    var (version, s1) :- ReadU16(s);
    var (typ, s2) :- ReadU8(s1);
    var (suite, s3) :- ReadU16(s2);
    var (created, s4) :- ReadU64(s3);
    var (secret, s5) :- ReadLP(1, s4);
    var (extra, s6) :- ReadLP(3, s5);
    var (ems, s7) :- ReadU8(s6);
    var (early, s8) :- ReadU8(s7);
    if secret == [] then None else Some((Head(version, typ, suite, created, secret, extra, ems, early), s8))
  }

  /** `parses` says which DER strings are certificates. */
  function ParseChains(parses: bytes -> bool, peers: seq<bytes>, s: bytes): Option<seq<seq<bytes>>>
    decreases |s|
  {
    if s == [] then Some([]) else
    var (l, rest) :- ReadLP(3, s);
    if peers == [] then None else
    var certs :- DecList(DecStr24, l);
    if !All(parses, certs) then None else
    var chains :- ParseChains(parses, peers, rest);
    Some([[peers[0]] + certs] + chains)
  }

  /** The fields that depend on version and side: use-by date and age, or curve. */
  function ParseFields(version: u16, isClient: bool, s: bytes): Option<(u64, u32, u16)> {
    if version < VERSION_TLS13 then
      var (curve, _) :- ReadU16(s);
      Some((0, 0, curve))
    else if isClient then
      var (useBy, s') :- ReadU64(s);
      var (ageAdd, _) :- ReadU32(s');
      Some((useBy, ageAdd, 0))
    else
      Some((0, 0, 0))
  }

  function ParseTail(version: u16, isClient: bool, early: bool, s: bytes): Option<(bytes, u64, u32, u16)> {
    var (alpn, s') :- if early then ReadLP(1, s) else Some(([], s));
    var (useBy, ageAdd, curve) :- ParseFields(version, isClient, s');
    Some((alpn, useBy, ageAdd, curve))
  }

  /** The session once its head and its certificates have been read. */
  function Assemble(parses: bytes -> bool, h: Head, c: CertList, s: bytes): Option<State> {
    var extra :- DecList(DecStr24, h.extra);
    if h.typ !in {1, 2} || h.ems !in {0, 1} || h.early !in {0, 1} then None
    else if !All(parses, c.certs) || (h.typ == 2 && c.certs == []) then None else
    var (l, s') :- ReadLP(3, s);
    var chains :- ParseChains(parses, c.certs, l);
    var (alpn, useBy, ageAdd, curve) :- ParseTail(h.version, h.typ == 2, h.early == 1, s');
    Some(State(h.version, h.typ == 2, h.cipherSuite, h.createdAt, h.secret, extra, h.ems == 1, h.early == 1,
               c.certs, c.ocsp, c.scts, chains, alpn, useBy, ageAdd, curve, []))
  }

  function ParseState(parses: bytes -> bool, data: bytes): Option<State> {
    var (h, s1) :- ParseHead(data);
    var (c, s2) :- UnmarshalCerts(s1);
    Assemble(parses, h, c, s2)
  }
}
