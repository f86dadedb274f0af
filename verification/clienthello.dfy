/**
  The ClientHello message (section 4.1.2 of RFC 8446): what marshalling writes, what
  unmarshalling reads, and that the second undoes the first.
 */
module ClientHello {
  import opened Wire
  import opened Extensions

  const TYPE_CLIENT_HELLO: byte := 1
  const SCSV_RENEGOTIATION: u16 := 0x00ff
  const STATUS_TYPE_OCSP: byte := 1
  const DOT: byte := 46

  const EXT_SERVER_NAME: u16 := 0
  const EXT_STATUS_REQUEST: u16 := 5
  const EXT_SUPPORTED_CURVES: u16 := 10
  const EXT_SUPPORTED_POINTS: u16 := 11
  const EXT_SIGNATURE_ALGORITHMS: u16 := 13
  const EXT_ALPN: u16 := 16
  const EXT_SCT: u16 := 18
  const EXT_EXTENDED_MASTER_SECRET: u16 := 23
  const EXT_SESSION_TICKET: u16 := 35
  const EXT_PRE_SHARED_KEY: u16 := 41
  const EXT_EARLY_DATA: u16 := 42
  const EXT_SUPPORTED_VERSIONS: u16 := 43
  const EXT_COOKIE: u16 := 44
  const EXT_PSK_MODES: u16 := 45
  const EXT_SIGNATURE_ALGORITHMS_CERT: u16 := 50
  const EXT_KEY_SHARE: u16 := 51
  const EXT_QUIC: u16 := 57
  const EXT_ECH_OUTER_EXTENSIONS: u16 := 0xfd00
  const EXT_ECH: u16 := 0xfe0d
  const EXT_RENEGOTIATION_INFO: u16 := 0xff01

  datatype KeyShare = KeyShare(group: u16, data: bytes)
  datatype PskIdentity = PskIdentity(identity: bytes, age: u32)

  /** The fields of the message. Only `original` and `quic` tell absent from empty. */
  datatype Hello = Hello(
    original: Option<bytes>,
    vers: u16,
    random: bytes,
    sessionId: bytes,
    cipherSuites: seq<u16>,
    compressionMethods: bytes,
    serverName: bytes,
    ocspStapling: bool,
    supportedCurves: seq<u16>,
    supportedPoints: bytes,
    ticketSupported: bool,
    sessionTicket: bytes,
    sigAlgs: seq<u16>,
    sigAlgsCert: seq<u16>,
    renegotiationSupported: bool,
    renegotiation: bytes,
    extendedMasterSecret: bool,
    alpn: seq<bytes>,
    scts: bool,
    supportedVersions: seq<u16>,
    cookie: bytes,
    keyShares: seq<KeyShare>,
    earlyData: bool,
    pskModes: bytes,
    pskIdentities: seq<PskIdentity>,
    pskBinders: seq<bytes>,
    quic: Option<bytes>,
    ech: bytes,
    extensions: seq<u16>)

  // ---------------------------------------------------------------- list items

  function EncStr8(b: bytes): bytes { Put(1, |b|) + b }

  predicate Fits8(b: bytes) { |b| < 0x100 }

  predicate NonEmpty(b: bytes) { |b| > 0 }

  function DecStr8(s: bytes): Option<(bytes, bytes)> {
    match ReadLP(1, s)
    case None => None
    case Some((b, rest)) => if b == [] then None else Some((b, rest))
  }

  lemma Str8Codec()
    ensures ItemCodec(EncStr8, DecStr8, Fits8, NonEmpty)
  {
    forall b: bytes, rest: bytes ensures ItemOk(EncStr8, DecStr8, Fits8, NonEmpty, b, rest) {
      Limits();
      if Fits8(b) { ReadLPPut(1, b, rest); }
    }
  }

  function EncKeyShare(k: KeyShare): bytes { Put(2, k.group) + Put(2, |k.data|) + k.data }

  predicate FitsKeyShare(k: KeyShare) { |k.data| < 0x1_0000 }

  predicate OkKeyShare(k: KeyShare) { |k.data| > 0 }

  function DecKeyShare(s: bytes): Option<(KeyShare, bytes)> {
    match ReadU16(s)
    case None => None
    case Some((g, s1)) =>
      match ReadLP(2, s1)
      case None => None
      case Some((d, rest)) => if d == [] then None else Some((KeyShare(g, d), rest))
  }

  lemma KeyShareCodec()
    ensures ItemCodec(EncKeyShare, DecKeyShare, FitsKeyShare, OkKeyShare)
  {
    forall k: KeyShare, rest: bytes ensures ItemOk(EncKeyShare, DecKeyShare, FitsKeyShare, OkKeyShare, k, rest) {
      Limits();
      if FitsKeyShare(k) {
        var s1 := Put(2, |k.data|) + k.data + rest;
        assert EncKeyShare(k) + rest == Put(2, k.group) + s1;
        ReadU16Put(k.group, s1);
        ReadLPPut(2, k.data, rest);
      }
    }
  }

  function EncPsk(p: PskIdentity): bytes { Put(2, |p.identity|) + p.identity + Put(4, p.age) }

  predicate FitsPsk(p: PskIdentity) { |p.identity| < 0x1_0000 }

  predicate OkPsk(p: PskIdentity) { |p.identity| > 0 }

  function DecPsk(s: bytes): Option<(PskIdentity, bytes)> {
    match ReadLP(2, s)
    case None => None
    case Some((l, s1)) =>
      match ReadU32(s1)
      case None => None
      case Some((a, rest)) => if l == [] then None else Some((PskIdentity(l, a), rest))
  }

  lemma PskCodec()
    ensures ItemCodec(EncPsk, DecPsk, FitsPsk, OkPsk)
  {
    forall p: PskIdentity, rest: bytes ensures ItemOk(EncPsk, DecPsk, FitsPsk, OkPsk, p, rest) {
      Limits();
      if FitsPsk(p) {
        var s1 := Put(4, p.age) + rest;
        assert EncPsk(p) + rest == Put(2, |p.identity|) + p.identity + s1;
        ReadLPPut(2, p.identity, s1);
        ReadU32Put(p.age, rest);
      }
    }
  }

  // ---------------------------------------------------------------- marshalling

  /** A run of encoded items; it is an error if some item overflows one of its own length prefixes. */
  function Items<T>(enc: T -> bytes, fits: T -> bool, xs: seq<T>): Builder {
    Builder(EncList(enc, xs), !All(fits, xs))
  }

  function U16s(xs: seq<u16>): Builder { Items(EncU16, AnyU16, xs) }

  // The nineteen extensions a sender may write, in the order it writes them.

  function NameRow(m: Hello): Row {
    Row(EXT_SERVER_NAME, |m.serverName| > 0, LP(2, Of([0]).AddLP(2, Of(m.serverName))))
  }

  function PointsRow(m: Hello): Row { Row(EXT_SUPPORTED_POINTS, |m.supportedPoints| > 0, LP(1, Of(m.supportedPoints))) }

  function TicketRow(m: Hello): Row { Row(EXT_SESSION_TICKET, m.ticketSupported, Of(m.sessionTicket)) }

  function RenegotiationRow(m: Hello): Row {
    Row(EXT_RENEGOTIATION_INFO, m.renegotiationSupported, LP(1, Of(m.renegotiation)))
  }

  function ExtendedMasterSecretRow(m: Hello): Row { Row(EXT_EXTENDED_MASTER_SECRET, m.extendedMasterSecret, EMPTY) }

  function SctRow(m: Hello): Row { Row(EXT_SCT, m.scts, EMPTY) }

  function EarlyDataRow(m: Hello): Row { Row(EXT_EARLY_DATA, m.earlyData, EMPTY) }

  function QuicRow(m: Hello): Row { Row(EXT_QUIC, m.quic.Some?, Of(if m.quic.Some? then m.quic.value else [])) }

  function EchRow(m: Hello): Row { Row(EXT_ECH, |m.ech| > 0, Of(m.ech)) }

  function StatusRow(m: Hello): Row { Row(EXT_STATUS_REQUEST, m.ocspStapling, Of([1, 0, 0, 0, 0])) }

  function CurvesRow(m: Hello): Row {
    Row(EXT_SUPPORTED_CURVES, |m.supportedCurves| > 0, LP(2, U16s(m.supportedCurves)))
  }

  function SigAlgsRow(m: Hello): Row { Row(EXT_SIGNATURE_ALGORITHMS, |m.sigAlgs| > 0, LP(2, U16s(m.sigAlgs))) }

  function SigAlgsCertRow(m: Hello): Row {
    Row(EXT_SIGNATURE_ALGORITHMS_CERT, |m.sigAlgsCert| > 0, LP(2, U16s(m.sigAlgsCert)))
  }

  function AlpnRow(m: Hello): Row { Row(EXT_ALPN, |m.alpn| > 0, LP(2, Items(EncStr8, Fits8, m.alpn))) }

  function VersionsRow(m: Hello): Row {
    Row(EXT_SUPPORTED_VERSIONS, |m.supportedVersions| > 0, LP(1, U16s(m.supportedVersions)))
  }

  function CookieRow(m: Hello): Row { Row(EXT_COOKIE, |m.cookie| > 0, LP(2, Of(m.cookie))) }

  function KeyShareRow(m: Hello): Row {
    Row(EXT_KEY_SHARE, |m.keyShares| > 0, LP(2, Items(EncKeyShare, FitsKeyShare, m.keyShares)))
  }

  function PskModesRow(m: Hello): Row { Row(EXT_PSK_MODES, |m.pskModes| > 0, LP(1, Of(m.pskModes))) }

  function PskRow(m: Hello): Row {
    Row(EXT_PRE_SHARED_KEY, |m.pskIdentities| > 0, PskBody(m.pskIdentities, m.pskBinders))
  }

  /** The TLS 1.2 extensions, which an ECH inner hello leaves out. */
  function Tls12Rows(m: Hello): seq<Row> {
    [PointsRow(m), TicketRow(m), RenegotiationRow(m), ExtendedMasterSecretRow(m)]
  }

  function PlainRows(m: Hello): seq<Row> {
    [SctRow(m), EarlyDataRow(m), QuicRow(m), EchRow(m)]
  }

  /** The contiguous block that ECH compresses. */
  function BlockRows(m: Hello): seq<Row> {
    [ StatusRow(m), CurvesRow(m), SigAlgsRow(m), SigAlgsCertRow(m), AlpnRow(m),
      VersionsRow(m), CookieRow(m), KeyShareRow(m), PskModesRow(m) ]
  }

  function PskBody(ids: seq<PskIdentity>, binders: seq<bytes>): Builder {
    LP(2, Items(EncPsk, FitsPsk, ids)).AddLP(2, Items(EncStr8, Fits8, binders))
  }

  function Table(m: Hello): seq<Row> {
    [NameRow(m)] + Tls12Rows(m) + PlainRows(m) + BlockRows(m) + [PskRow(m)]
  }

  /** The one extension that stands for a compressed block. */
  function StandIn(es: seq<Ext>): seq<Ext> {
    if es == [] then [] else [Ext(EXT_ECH_OUTER_EXTENSIONS, LP(1, U16s(ExtTypes(es))))]
  }

  function Exts(m: Hello, echInner: bool): seq<Ext> {
    if echInner then
      Present([NameRow(m)]) + Present(PlainRows(m)) + StandIn(Present(BlockRows(m))) + Present([PskRow(m)])
    else
      Present(Table(m))
  }

  /** The fields ahead of the extensions, for a given session id. */
  function FixedPart(m: Hello, sid: bytes): Builder {
    Builder(Put(2, m.vers) + m.random, |m.random| != 32)
      .AddLP(1, Of(sid))
      .AddLP(2, U16s(m.cipherSuites))
      .AddLP(1, Of(m.compressionMethods))
  }

  /** Everything behind the four-byte handshake header, for a given session id and extension list. */
  function Body(m: Hello, sid: bytes, es: seq<Ext>): Builder {
    if es == [] then FixedPart(m, sid) else FixedPart(m, sid).AddLP(2, Items(EncExt, FitsExt, es))
  }

  function MarshalMsg(m: Hello, echInner: bool): Option<bytes> {
    Of([TYPE_CLIENT_HELLO]).AddLP(3, Body(m, if echInner then [] else m.sessionId, Exts(m, echInner))).Bytes()
  }

  // ---------------------------------------------------------------- unmarshalling

  /** The length-prefixed content of an extension that holds nothing else. */
  function Only(n: nat, data: bytes): Option<bytes> {
    match ReadLP(n, data)
    case None => None
    case Some((x, rest)) => if rest == [] then Some(x) else None
  }

  function ParseU16s(n: nat, data: bytes): Option<seq<u16>> {
    match Only(n, data)
    case None => None
    case Some(x) => if x == [] then None else DecList(DecU16, x)
  }

  /** The names of a server_name list: only host names (type 0) count, at most one, without trailing dot. */
  function ParseNames(s: bytes, name: bytes): Option<bytes>
    decreases |s|
  {
    if s == [] then Some(name) else
    match ReadLP(2, s[1..])
    case None => None
    case Some((n, rest)) =>
      if n == [] then None
      else if s[0] != 0 then ParseNames(rest, name)
      else if name != [] then None
      else if n[|n| - 1] == DOT then None
      else ParseNames(rest, n)
  }

  function ParseServerName(data: bytes, name: bytes): Option<bytes> {
    match Only(2, data)
    case None => None
    case Some(l) => if l == [] then None else ParseNames(l, name)
  }

  function ParseStatusRequest(data: bytes): Option<bool> {
    match ReadU8(data)
    case None => None
    case Some((t, s1)) =>
      match ReadLP(2, s1)
      case None => None
      case Some((_, s2)) => if Only(2, s2).None? then None else Some(t == STATUS_TYPE_OCSP)
  }

  function ParseAlpn(data: bytes): Option<seq<bytes>> {
    match Only(2, data)
    case None => None
    case Some(l) => if l == [] then None else DecList(DecStr8, l)
  }

  function ParseKeyShares(data: bytes): Option<seq<KeyShare>> {
    match Only(2, data)
    case None => None
    case Some(l) => DecList(DecKeyShare, l)
  }

  function ParsePsk(data: bytes): Option<(seq<PskIdentity>, seq<bytes>)> {
    match ReadLP(2, data)
    case None => None
    case Some((l, s1)) =>
      if l == [] then None else
      match DecList(DecPsk, l)
      case None => None
      case Some(ids) =>
        match Only(2, s1)
        case None => None
        case Some(b) =>
          if b == [] then None else
          match DecList(DecStr8, b)
          case None => None
          case Some(binders) => Some((ids, binders))
  }

  /** What one extension says. */
  datatype Field =
    | ServerName(name: bytes) | Status(ocsp: bool) | Curves(curves: seq<u16>) | Points(points: bytes)
    | Ticket(ticket: bytes) | SigAlgs(algs: seq<u16>) | SigAlgsCert(algs: seq<u16>) | Renegotiation(info: bytes)
    | ExtendedMasterSecret | Alpn(protos: seq<bytes>) | Sct | Versions(versions: seq<u16>) | Cookie(cookie: bytes)
    | KeyShares(shares: seq<KeyShare>) | EarlyData | PskModes(modes: bytes) | Quic(params: bytes)
    | Psk(ids: seq<PskIdentity>, binders: seq<bytes>) | Ech(ech: bytes) | Unknown

  /** Reads the content of an extension; None refuses the message. `name` is the server name read so far. */
  function Decode(name: bytes, e: RawExt, last: bool): Option<Field> {
    var d := e.data;
    if e.typ == EXT_SERVER_NAME then
      match ParseServerName(d, name) case None => None case Some(x) => Some(ServerName(x))
    else if e.typ == EXT_STATUS_REQUEST then
      match ParseStatusRequest(d) case None => None case Some(x) => Some(Status(x))
    else if e.typ == EXT_SUPPORTED_CURVES then
      match ParseU16s(2, d) case None => None case Some(x) => Some(Curves(x))
    else if e.typ == EXT_SUPPORTED_POINTS then
      match Only(1, d) case None => None case Some(x) => if x == [] then None else Some(Points(x))
    else if e.typ == EXT_SESSION_TICKET then
      Some(Ticket(d))
    else if e.typ == EXT_SIGNATURE_ALGORITHMS then
      match ParseU16s(2, d) case None => None case Some(x) => Some(SigAlgs(x))
    else if e.typ == EXT_SIGNATURE_ALGORITHMS_CERT then
      match ParseU16s(2, d) case None => None case Some(x) => Some(SigAlgsCert(x))
    else if e.typ == EXT_RENEGOTIATION_INFO then
      match Only(1, d) case None => None case Some(x) => Some(Renegotiation(x))
    else if e.typ == EXT_EXTENDED_MASTER_SECRET then
      if d == [] then Some(ExtendedMasterSecret) else None
    else if e.typ == EXT_ALPN then
      match ParseAlpn(d) case None => None case Some(x) => Some(Alpn(x))
    else if e.typ == EXT_SCT then
      if d == [] then Some(Sct) else None
    else if e.typ == EXT_SUPPORTED_VERSIONS then
      match ParseU16s(1, d) case None => None case Some(x) => Some(Versions(x))
    else if e.typ == EXT_COOKIE then
      match Only(2, d) case None => None case Some(x) => if x == [] then None else Some(Cookie(x))
    else if e.typ == EXT_KEY_SHARE then
      match ParseKeyShares(d) case None => None case Some(x) => Some(KeyShares(x))
    else if e.typ == EXT_EARLY_DATA then
      if d == [] then Some(EarlyData) else None
    else if e.typ == EXT_PSK_MODES then
      match Only(1, d) case None => None case Some(x) => Some(PskModes(x))
    else if e.typ == EXT_QUIC then
      Some(Quic(d))
    else if e.typ == EXT_PRE_SHARED_KEY then
      if !last then None else
      match ParsePsk(d) case None => None case Some((ids, binders)) => Some(Psk(ids, binders))
    else if e.typ == EXT_ECH then
      Some(Ech(d))
    else
      Some(Unknown)
  }

  /** What that does to the message read so far. */
  function Update(m: Hello, f: Field): Hello {
    match f
    case ServerName(x) => m.(serverName := x)
    case Status(x) => m.(ocspStapling := x)
    case Curves(x) => m.(supportedCurves := m.supportedCurves + x)
    case Points(x) => m.(supportedPoints := x)
    case Ticket(x) => m.(ticketSupported := true, sessionTicket := x)
    case SigAlgs(x) => m.(sigAlgs := m.sigAlgs + x)
    case SigAlgsCert(x) => m.(sigAlgsCert := m.sigAlgsCert + x)
    case Renegotiation(x) => m.(renegotiation := x, renegotiationSupported := true)
    case ExtendedMasterSecret => m.(extendedMasterSecret := true)
    case Alpn(x) => m.(alpn := m.alpn + x)
    case Sct => m.(scts := true)
    case Versions(x) => m.(supportedVersions := m.supportedVersions + x)
    case Cookie(x) => m.(cookie := x)
    case KeyShares(x) => m.(keyShares := m.keyShares + x)
    case EarlyData => m.(earlyData := true)
    case PskModes(x) => m.(pskModes := x)
    case Quic(x) => m.(quic := Some(x))
    case Psk(x, y) => m.(pskIdentities := m.pskIdentities + x, pskBinders := m.pskBinders + y)
    case Ech(x) => m.(ech := x)
    case Unknown => m
  }

  function ApplyExt(m: Hello, e: RawExt, last: bool): Option<Hello> {
    match Decode(m.serverName, e, last)
    case None => None
    case Some(f) => Some(Update(m, f))
  }

  /** The extension block; the types are kept in the order they came. */
  function ParseExts(m: Hello, s: bytes): Option<Hello> {
    match ReadExts(ApplyExt, m, [], s)
    case None => None
    case Some((m', seen)) => Some(m'.(extensions := seen))
  }

  /** Values reserved for probing that peers handle unknown ones (RFC 8701): 0x0a0a, 0x1a1a and so on. */
  predicate IsGrease(v: u16) { v / 256 == v % 256 && v % 16 == 10 }

  /** The fields every hello starts with, as bytes. */
  datatype Fixed = Fixed(versionAndRandom: bytes, sessionId: bytes, suites: bytes, compression: bytes)

  /** Reads them from behind the handshake header; what is left is the extension block. */
  function ReadFixed(s: bytes): (r: Option<(Fixed, bytes)>)
    ensures r.Some? ==> |r.value.0.versionAndRandom| == 34
  {
    if |s| < 34 then None else
    match ReadLP(1, s[34..])
    case None => None
    case Some((sid, s1)) =>
      match ReadLP(2, s1)
      case None => None
      case Some((cs, s2)) =>
        match ReadLP(1, s2)
        case None => None
        case Some((comp, s3)) => Some((Fixed(s[..34], sid, cs, comp), s3))
  }

  /** The fixed fields and, behind them, what is left for the extension block. */
  function ParseFixed(data: bytes): Option<(Hello, bytes)> {
    if |data| < 4 then None else
    match ReadFixed(data[4..])
    case None => None
    case Some((f, rest)) =>
      match DecList(DecU16, f.suites)
      case None => None
      case Some(suites) =>
        Limits();
        Some((Blank(data, Get(f.versionAndRandom[..2]), f.versionAndRandom[2..], f.sessionId, suites,
                    f.compression), rest))
  }

  /** The message before its extensions are read. */
  function Blank(data: bytes, vers: u16, random: bytes, sid: bytes, suites: seq<u16>, comp: bytes): Hello {
    Hello(Some(data), vers, random, sid, suites, comp, [], false, [], [], false, [], [], [],
          SCSV_RENEGOTIATION in suites, [], false, [], false, [], [], [], false, [], [], [], None, [], [])
  }

  function Parse(data: bytes): Option<Hello> {
    match ParseFixed(data)
    case None => None
    case Some((m, s)) =>
      if s == [] then Some(m) else
      match Only(2, s)
      case None => None
      case Some(x) => ParseExts(m, x)
  }
}
