/** The session and certificate codecs as the program runs them: loops over cursors and a growing builder. */
module SessionMsg {
  import opened Wire
  import opened Extensions
  import opened ClientHello
  import opened Session

  /** Appends one item after the other. */
  method WriteAll<T>(enc: T -> bytes, fits: T -> bool, xs: seq<T>) returns (b: Builder)
    ensures b == Items(enc, fits, xs)
  {
    b := EMPTY;
    for i := 0 to |xs|
      invariant b == Items(enc, fits, xs[..i])
    {
      EncListAppend(enc, xs[..i], [xs[i]]);
      assert xs[..i + 1] == xs[..i] + [xs[i]];
      assert EncList(enc, [xs[i]]) == enc(xs[i]) + [];
      assert All(fits, xs[..i + 1]) <==> All(fits, xs[..i]) && fits(xs[i]) by {
        assert forall k :: 0 <= k < i ==> xs[..i + 1][k] == xs[..i][k];
        assert xs[..i + 1][i] == xs[i];
      }
      b := Builder(b.result + enc(xs[i]), b.err || !fits(xs[i]));
    }
    assert xs[..|xs|] == xs;
  }

  method MarshalCertificate(c: CertList) returns (b: Builder)
    ensures b == MarshalCerts(c)
  {
    var entries := EMPTY;
    JoinEmpty(EntriesFrom(c, 0));
    for i := 0 to |c.certs|
      invariant Join(entries, EntriesFrom(c, i)) == EntriesFrom(c, 0)
    {
      var entry := LP(3, Of(c.certs[i])).AddLP(2, Items(EncExt, FitsExt, EntryExts(c, i)));
      JoinAssoc(entries, entry, EntriesFrom(c, i + 1));
      entries := Join(entries, entry);
    }
    JoinEmpty(entries);
    b := LP(3, entries);
  }

  lemma JoinEmpty(b: Builder)
    ensures Join(EMPTY, b) == b && Join(b, EMPTY) == b
  {
    assert [] + b.result == b.result && b.result + [] == b.result;
  }

  lemma JoinAssoc(a: Builder, b: Builder, c: Builder)
    ensures Join(a, Join(b, c)) == Join(Join(a, b), c)
  {
    assert a.result + (b.result + c.result) == a.result + b.result + c.result;
  }

  method UnmarshalCertificate(s: bytes) returns (r: Option<(CertList, bytes)>)
    ensures r == UnmarshalCerts(s)
  {
    var l := ReadLP(3, s);
    if l.None? { return None; }
    var rest, c := l.value.0, NO_CERTS;
    while rest != []
      invariant ParseEntries(NO_CERTS, l.value.0) == ParseEntries(c, rest)
      decreases |rest|
    {
      var cert := ReadLP(3, rest);
      if cert.None? { return None; }
      var exts := ReadLP(2, cert.value.1);
      if exts.None? { return None; }
      c := c.(certs := c.certs + [cert.value.0]);
      var c' := ReadEntryExts(c, exts.value.0);
      if c'.None? { return None; }
      c, rest := c'.value, exts.value.1;
    }
    r := Some((c, l.value.1));
  }

  method ReadEntryExts(c0: CertList, s: bytes) returns (r: Option<CertList>)
    ensures r == ParseCertExts(c0, s)
  {
    var c, rest := c0, s;
    while rest != []
      invariant ParseCertExts(c0, s) == ParseCertExts(c, rest)
      decreases |rest|
    {
      var e := DecExt(rest);
      if e.None? { return None; }
      rest := e.value.1;
      if |c.certs| <= 1 {
        var c' := ApplyCertExt(c, e.value.0);
        if c'.None? { return None; }
        c := c'.value;
      }
    }
    r := Some(c);
  }

  method SessionBytes(s: State) returns (r: Option<bytes>)
    ensures r == ToBytes(s)
  {
    var extra := WriteAll(EncStr24, Fits24, s.extra);
    var b := Of(Put(2, s.version) + [if s.isClient then 2 else 1] + Put(2, s.cipherSuite) + Put(8, s.createdAt))
      .AddLP(1, Of(s.secret)).AddLP(3, extra).Add([Bit(s.extMasterSecret), Bit(s.earlyData)]);
    var certs := MarshalCertificate(Certs(s));
    var chains := WriteAll(EncChain, FitsChain, s.verifiedChains);
    JoinAssoc(b, certs, Join(LP(3, chains), TailBytes(s)));
    b := Join(b, certs);
    JoinAssoc(b, LP(3, chains), TailBytes(s));
    b := Join(b, LP(3, chains));
    b := Join(b, TailBytes(s));
    r := b.Bytes();
  }

  /** Every string in the list is a certificate. */
  method AllParse(parses: bytes -> bool, certs: seq<bytes>) returns (ok: bool)
    ensures ok == All(parses, certs)
  {
    for i := 0 to |certs|
      invariant All(parses, certs[..i])
    {
      if !parses(certs[i]) { return false; }
      assert forall k :: 0 <= k < i ==> certs[..i + 1][k] == certs[..i][k];
    }
    assert certs[..|certs|] == certs;
    ok := true;
  }

  method ReadChains(parses: bytes -> bool, peers: seq<bytes>, s: bytes) returns (r: Option<seq<seq<bytes>>>)
    ensures r == ParseChains(parses, peers, s)
  {
    var rest, chains := s, [];
    ghost var all := ParseChains(parses, peers, s);
    assert all.Some? ==> [] + all.value == all.value;
    while rest != []
      invariant all == match ParseChains(parses, peers, rest) case None => None case Some(t) => Some(chains + t)
      decreases |rest|
    {
      var l := ReadLP(3, rest);
      if l.None? || peers == [] { return None; }
      var certs := ReadAll(DecStr24, l.value.0);
      if certs.None? { return None; }
      var ok := AllParse(parses, certs.value);
      if !ok { return None; }
      rest := l.value.1;
      ghost var t := ParseChains(parses, peers, rest);
      assert t.Some? ==>
        chains + ([[peers[0]] + certs.value] + t.value) == chains + [[peers[0]] + certs.value] + t.value;
      chains := chains + [[peers[0]] + certs.value];
    }
    assert chains + [] == chains;
    r := Some(chains);
  }

  method ParseSessionState(parses: bytes -> bool, data: bytes) returns (r: Option<State>)
    ensures r == ParseState(parses, data)
  {
    var head := ParseHead(data);
    if head.None? { return None; }
    var h := head.value.0;
    var certs := UnmarshalCertificate(head.value.1);
    if certs.None? { return None; }
    r := FinishState(parses, h, certs.value.0, certs.value.1);
  }

  method FinishState(parses: bytes -> bool, h: Head, c: CertList, s: bytes) returns (r: Option<State>)
    ensures r == Assemble(parses, h, c, s)
  {
    var extra := ReadAll(DecStr24, h.extra);
    if extra.None? { return None; }
    if h.typ !in {1, 2} || h.ems !in {0, 1} || h.early !in {0, 1} { return None; }
    var ok := AllParse(parses, c.certs);
    if !ok || (h.typ == 2 && c.certs == []) { return None; }
    var l := ReadLP(3, s);
    if l.None? { return None; }
    var chains := ReadChains(parses, c.certs, l.value.0);
    if chains.None? { return None; }
    var tail := ParseTail(h.version, h.typ == 2, h.early == 1, l.value.1);
    if tail.None? { return None; }
    var (alpn, useBy, ageAdd, curve) := tail.value;
    r := Some(State(h.version, h.typ == 2, h.cipherSuite, h.createdAt, h.secret, extra.value, h.ems == 1, h.early == 1,
                    c.certs, c.ocsp, c.scts, chains.value, alpn, useBy, ageAdd, curve, []));
  }
}
