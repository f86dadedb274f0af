/** ClientHello classes: the features profiles are kept apart by, hashed to a short string. */
module Classify {
  import opened Wire
  import opened Nonce
  import opened ClientHello
  import opened CacheKeys

  const CLASS_VERSION: byte := 3
  const FNV_OFFSET: nat := 14695981039346656037
  const FNV_PRIME: nat := 1099511628211
  const X25519: u16 := 29
  const MLKEM: u16 := 4588
  const P256: u16 := 23

  // ---------------------------------------------------------------- the hash

  /** One step of FNV-1a: XOR into the low byte, then multiply. */
  function Mix(h: nat, b: byte): (r: nat)
    ensures r < TWO64
  {
    (h - h % 256 + Xor(h % 256, b)) * FNV_PRIME % TWO64
  }

  function Fold(h: nat, s: bytes): nat {
    if s == [] then h else Mix(Fold(h, s[..|s| - 1]), s[|s| - 1])
  }

  lemma FoldStep(h: nat, s: bytes, b: byte)
    ensures Fold(h, s + [b]) == Mix(Fold(h, s), b)
  {
    assert (s + [b])[..|s|] == s;
  }

  // ---------------------------------------------------------------- the features

  function Canon(a: bool, b: bool, c: bool): seq<u16> {
    (if a then [0x1301] else []) + (if b then [0x1302] else []) + (if c then [0x1303] else [])
  }

  datatype Features = Features(alpn: bytes, suites: seq<u16>, groups: bytes, sigs: bytes, presence: byte, tls13: bool)

  function Flag(b: bool): byte { if b then 1 else 0 }

  predicate OffersGroup(ch: Hello, g: u16) {
    (exists k :: 0 <= k < |ch.keyShares| && ch.keyShares[k].group == g) || g in ch.supportedCurves
  }

  predicate Ecdsa(s: u16) { s == 0x0403 || s == 0x0503 || s == 0x0603 }

  predicate RsaPss(s: u16) { s == 0x0804 || s == 0x0805 || s == 0x0806 }

  predicate AnyEcdsa(s: seq<u16>) { exists i :: 0 <= i < |s| && Ecdsa(s[i]) }

  predicate AnyRsaPss(s: seq<u16>) { exists i :: 0 <= i < |s| && RsaPss(s[i]) }

  function Presence(ch: Hello): byte {
    Flag(ch.serverName != []) + 2 * Flag(ch.alpn != []) + 4 * Flag(ch.supportedVersions != [])
      + 8 * Flag(ch.keyShares != [])
    + 16 * Flag(ch.pskIdentities != [] || ch.pskModes != []) + 32 * Flag(ch.ech != []) + 64 * Flag(ch.scts)
      + 128 * Flag(ch.ocspStapling)
  }

  function FeaturesOf(ch: Hello): Features {
    Features(
      if ch.alpn == [] then [] else ch.alpn[0],
      Canon(0x1301 in ch.cipherSuites, 0x1302 in ch.cipherSuites, 0x1303 in ch.cipherSuites),
      [Flag(OffersGroup(ch, X25519)), Flag(OffersGroup(ch, MLKEM)), Flag(OffersGroup(ch, P256))],
      [Flag(0x0807 in ch.sigAlgs), Flag(AnyEcdsa(ch.sigAlgs)), Flag(AnyRsaPss(ch.sigAlgs))],
      Presence(ch),
      TLS13 in ch.supportedVersions)
  }

  function U16Bytes(s: seq<u16>): bytes {
    if s == [] then [] else U16Bytes(s[..|s| - 1]) + [s[|s| - 1] / 256, s[|s| - 1] % 256]
  }

  /** What is fed to the hash, in order. */
  function Stream(f: Features): bytes {
    [CLASS_VERSION] + f.alpn + [0] + U16Bytes(f.suites) + [|f.suites| % 256] + f.groups + f.sigs + [f.presence]
      + (if f.tls13 then [3, 4] else [])
  }

  function Class(ch: Hello): string { Hex(Fold(FNV_OFFSET, Stream(FeaturesOf(ch)))) }

  // ---------------------------------------------------------------- what the hash is given

  predicate Bits(s: bytes) { |s| == 3 && forall i :: 0 <= i < 3 ==> s[i] <= 1 }

  /** What a hello can have for features. */
  predicate Shaped(f: Features) {
    Bits(f.groups) && Bits(f.sigs) && |f.suites| <= 3
  }

  lemma FeaturesShaped(ch: Hello)
    ensures Shaped(FeaturesOf(ch))
  {
  }

  lemma {:induction false} U16BytesLength(s: seq<u16>)
    ensures |U16Bytes(s)| == 2 * |s|
  {
    if s != [] { U16BytesLength(s[..|s| - 1]); }
  }

  lemma {:induction false} U16BytesInjective(a: seq<u16>, b: seq<u16>)
    requires U16Bytes(a) == U16Bytes(b)
    ensures a == b
  {
    U16BytesLength(a);
    U16BytesLength(b);
    if a != [] {
      var k := |a| - 1;
      U16BytesLength(a[..k]);
      U16BytesLength(b[..k]);
      var x, y := U16Bytes(a), U16Bytes(b);
      assert x[..2 * k] == U16Bytes(a[..k]) && y[..2 * k] == U16Bytes(b[..k]);
      assert x[2 * k] == a[k] / 256 && x[2 * k + 1] == a[k] % 256;
      assert y[2 * k] == b[k] / 256 && y[2 * k + 1] == b[k] % 256;
      U16BytesInjective(a[..k], b[..k]);
      assert a == a[..k] + [a[k]] && b == b[..k] + [b[k]];
    }
  }

  /** Equal strings that end in parts of equal length have equal parts. */
  lemma SplitEnd(a: bytes, x: bytes, b: bytes, y: bytes)
    requires a + x == b + y && |x| == |y|
    ensures a == b && x == y
  {
    assert |a| == |b|;
    assert a == (a + x)[..|a|] && x == (a + x)[|a|..];
    assert b == (b + y)[..|b|] && y == (b + y)[|b|..];
  }

  /** The features of fixed length at the end of what is hashed. */
  function Ending(f: Features): bytes { f.groups + f.sigs + [f.presence] }

  function Beginning(f: Features): bytes { [CLASS_VERSION] + f.alpn + [0] + U16Bytes(f.suites) + [|f.suites| % 256] }

  lemma StreamParts(f: Features)
    ensures Stream(f) == Beginning(f) + (Ending(f) + (if f.tls13 then [3, 4] else []))
  {
  }

  /** Whether TLS 1.3 is offered shows in the last byte but one: the other features never have a 3 there. */
  lemma Tls13Shows(f: Features)
    requires Shaped(f)
    ensures var s := Stream(f); |s| >= 2 && (f.tls13 <==> s[|s| - 2] == 3)
  {
    var front := Beginning(f) + (f.groups + f.sigs);
    var s := Stream(f);
    if f.tls13 {
      assert s == front + [f.presence] + [3, 4];
    } else {
      assert s == front + [f.presence];
      assert s[|s| - 2] == front[|front| - 1] == f.sigs[2];
    }
  }

  lemma BeginningInjective(f: Features, g: Features)
    requires Shaped(f) && Shaped(g) && Beginning(f) == Beginning(g)
    ensures f.alpn == g.alpn && f.suites == g.suites
  {
    var a, b := [CLASS_VERSION] + f.alpn + [0], [CLASS_VERSION] + g.alpn + [0];
    SplitEnd(a + U16Bytes(f.suites), [|f.suites| % 256], b + U16Bytes(g.suites), [|g.suites| % 256]);
    assert [|f.suites| % 256][0] == [|g.suites| % 256][0];
    U16BytesLength(f.suites);
    U16BytesLength(g.suites);
    SplitEnd(a, U16Bytes(f.suites), b, U16Bytes(g.suites));
    U16BytesInjective(f.suites, g.suites);
    assert a[1..|a| - 1] == f.alpn && b[1..|b| - 1] == g.alpn;
  }

  /** Different features are fed differently to the hash: only the hash itself can make two classes one. */
  lemma StreamInjective(f: Features, g: Features)
    requires Shaped(f) && Shaped(g) && Stream(f) == Stream(g)
    ensures f == g
  {
    Tls13Shows(f);
    Tls13Shows(g);
    StreamParts(f);
    StreamParts(g);
    var tail := if f.tls13 then [3, 4] else [];
    SplitEnd(Beginning(f), Ending(f) + tail, Beginning(g), Ending(g) + tail);
    SplitEnd(Ending(f), tail, Ending(g), tail);
    BeginningInjective(f, g);
    SplitEnd(f.groups + f.sigs, [f.presence], g.groups + g.sigs, [g.presence]);
    SplitEnd(f.groups, f.sigs, g.groups, g.sigs);
    assert [f.presence][0] == [g.presence][0];
  }

  lemma FourBits(a: nat, b: nat, c: nat, d: nat, q: nat)
    requires a <= 1 && b <= 1 && c <= 1 && d <= 1 && q == a + 2 * b + 4 * c + 8 * d
    ensures q < 16 && q % 2 == a && q / 2 % 2 == b && q / 4 % 2 == c && q / 8 % 2 == d
  {
  }

  lemma Halved(p: nat, x: nat, lo: nat)
    requires p == 2 * x + lo
    ensures p / 2 == x + lo / 2 && p % 2 == lo % 2
  {
  }

  lemma Quartered(p: nat)
    ensures p / 4 == p / 2 / 2 && p / 8 == p / 2 / 2 / 2
  {
  }

  lemma LowHalf(p: nat, lo: nat, hi: nat)
    requires lo < 16 && p == 16 * hi + lo
    ensures p % 2 == lo % 2 && p / 2 % 2 == lo / 2 % 2 && p / 4 % 2 == lo / 4 % 2 && p / 8 % 2 == lo / 8 % 2
  {
    Halved(p, 8 * hi, lo);
    Halved(p / 2, 4 * hi, lo / 2);
    Halved(p / 2 / 2, 2 * hi, lo / 2 / 2);
    Halved(p / 2 / 2 / 2, hi, lo / 2 / 2 / 2);
    Quartered(p);
    Quartered(lo);
  }

  lemma HighHalf(p: nat, lo: nat, hi: nat)
    requires lo < 16 && p == 16 * hi + lo
    ensures p / 16 == hi && p / 32 == hi / 2 && p / 64 == hi / 4 && p / 128 == hi / 8
  {
  }

  lemma EightBits(a: nat, b: nat, c: nat, d: nat, e: nat, f: nat, g: nat, h: nat, p: nat)
    requires a <= 1 && b <= 1 && c <= 1 && d <= 1 && e <= 1 && f <= 1 && g <= 1 && h <= 1
    requires p == a + 2 * b + 4 * c + 8 * d + 16 * e + 32 * f + 64 * g + 128 * h
    ensures p % 2 == a && p / 2 % 2 == b && p / 4 % 2 == c && p / 8 % 2 == d
    ensures p / 16 % 2 == e && p / 32 % 2 == f && p / 64 % 2 == g && p / 128 % 2 == h
  {
    var lo, hi := a + 2 * b + 4 * c + 8 * d, e + 2 * f + 4 * g + 8 * h;
    FourBits(a, b, c, d, lo);
    FourBits(e, f, g, h, hi);
    LowHalf(p, lo, hi);
    HighHalf(p, lo, hi);
  }

  /** What the features tell, in the registered numbers of suites, groups and signature schemes. */
  lemma FeaturesTell(ch: Hello)
    ensures var f := FeaturesOf(ch);
      && (0x1301 in f.suites <==> 0x1301 in ch.cipherSuites) && (0x1302 in f.suites <==> 0x1302 in ch.cipherSuites)
      && (0x1303 in f.suites <==> 0x1303 in ch.cipherSuites)
      && (f.groups[0] == 1 <==> OffersGroup(ch, 29)) && (f.groups[1] == 1 <==> OffersGroup(ch, 4588))
      && (f.groups[2] == 1 <==> OffersGroup(ch, 23))
      && (f.sigs[0] == 1 <==> 0x0807 in ch.sigAlgs)
      && (f.sigs[1] == 1 <==> 0x0403 in ch.sigAlgs || 0x0503 in ch.sigAlgs || 0x0603 in ch.sigAlgs)
      && (f.sigs[2] == 1 <==> 0x0804 in ch.sigAlgs || 0x0805 in ch.sigAlgs || 0x0806 in ch.sigAlgs)
      && (f.tls13 <==> 0x0304 in ch.supportedVersions)
  {
  }

  /**
    One step of the hash on a number whose low byte is r: the byte goes into the low byte alone,
    then comes the multiplication.
   */
  lemma MixIs(q: nat, r: byte, b: byte)
    ensures Mix(256 * q + r, b) == (256 * q + Xor(r, b)) * 0x100_0000_01b3 % 0x1_0000_0000_0000_0000
  {
    assert (256 * q + r) % 256 == r;
  }

  /** Each bit of the presence byte tells of one part of the hello. */
  lemma PresenceTells(ch: Hello)
    ensures var p := Presence(ch);
      && (p % 2 == 1 <==> ch.serverName != []) && (p / 2 % 2 == 1 <==> ch.alpn != [])
      && (p / 4 % 2 == 1 <==> ch.supportedVersions != []) && (p / 8 % 2 == 1 <==> ch.keyShares != [])
      && (p / 16 % 2 == 1 <==> ch.pskIdentities != [] || ch.pskModes != []) && (p / 32 % 2 == 1 <==> ch.ech != [])
      && (p / 64 % 2 == 1 <==> ch.scts) && (p / 128 % 2 == 1 <==> ch.ocspStapling)
  {
    var a, b := Flag(ch.serverName != []), Flag(ch.alpn != []);
    var c, d := Flag(ch.supportedVersions != []), Flag(ch.keyShares != []);
    var e, f := Flag(ch.pskIdentities != [] || ch.pskModes != []), Flag(ch.ech != []);
    var g, h := Flag(ch.scts), Flag(ch.ocspStapling);
    EightBits(a, b, c, d, e, f, g, h, Presence(ch));
  }

  /**
    So hellos that differ in the first protocol offered, the TLS 1.3 suites, the groups and signature
    kinds looked at, the parts present or the offer of TLS 1.3 are fed differently to the hash.
   */
  lemma DifferentFeatures(a: Hello, b: Hello)
    requires FeaturesOf(a) != FeaturesOf(b)
    ensures Stream(FeaturesOf(a)) != Stream(FeaturesOf(b))
  {
    if Stream(FeaturesOf(a)) == Stream(FeaturesOf(b)) { StreamInjective(FeaturesOf(a), FeaturesOf(b)); }
  }

  // ---------------------------------------------------------------- what the class does not depend on

  /** The same values, but for order, repetition and GREASE. */
  ghost predicate SameOffer(a: seq<u16>, b: seq<u16>) { forall v: u16 :: !IsGrease(v) ==> (v in a <==> v in b) }

  function Groups(ks: seq<KeyShare>): seq<u16> { seq(|ks|, i requires 0 <= i < |ks| => ks[i].group) }

  lemma GroupsOf(ch: Hello, g: u16)
    ensures OffersGroup(ch, g) <==> g in Groups(ch.keyShares) || g in ch.supportedCurves
  {
    assert forall k :: 0 <= k < |ch.keyShares| ==> Groups(ch.keyShares)[k] == ch.keyShares[k].group;
  }

  /** Hellos that offer the same values have the same features, however they list them. */
  lemma SameFeatures(a: Hello, b: Hello)
    requires SameOffer(a.cipherSuites, b.cipherSuites) && SameOffer(a.supportedCurves, b.supportedCurves)
    requires SameOffer(a.sigAlgs, b.sigAlgs) && SameOffer(a.supportedVersions, b.supportedVersions)
    requires SameOffer(Groups(a.keyShares), Groups(b.keyShares)) && Presence(a) == Presence(b)
    requires (a.alpn == [] <==> b.alpn == []) && (a.alpn != [] ==> a.alpn[0] == b.alpn[0])
    ensures FeaturesOf(a) == FeaturesOf(b) && Class(a) == Class(b)
  {
    GroupsOf(a, X25519);
    GroupsOf(b, X25519);
    GroupsOf(a, MLKEM);
    GroupsOf(b, MLKEM);
    GroupsOf(a, P256);
    GroupsOf(b, P256);
    SigsCarry(a.sigAlgs, b.sigAlgs);
    SigsCarry(b.sigAlgs, a.sigAlgs);
  }

  lemma SigsCarry(a: seq<u16>, b: seq<u16>)
    requires SameOffer(a, b)
    ensures (AnyEcdsa(a) ==> AnyEcdsa(b)) && (AnyRsaPss(a) ==> AnyRsaPss(b))
  {
    if AnyEcdsa(a) {
      var i :| 0 <= i < |a| && Ecdsa(a[i]);
      assert a[i] in b by { assert !IsGrease(a[i]) && a[i] in a; }
      var j :| 0 <= j < |b| && b[j] == a[i];
    }
    if AnyRsaPss(a) {
      var i :| 0 <= i < |a| && RsaPss(a[i]);
      assert a[i] in b by { assert !IsGrease(a[i]) && a[i] in a; }
      var j :| 0 <= j < |b| && b[j] == a[i];
    }
  }

  /** Reordering a list, or inserting a GREASE value or a repetition anywhere, offers the same. */
  lemma Reordered(a: seq<u16>, b: seq<u16>)
    requires multiset(a) == multiset(b)
    ensures SameOffer(a, b)
  {
    forall v: u16 ensures v in a <==> v in b {
      assert v in a <==> v in multiset(a);
      assert v in b <==> v in multiset(b);
    }
  }

  lemma Inserted(a: seq<u16>, i: nat, v: u16)
    requires i <= |a| && (v in a || IsGrease(v))
    ensures SameOffer(a, a[..i] + [v] + a[i..])
  {
    assert a == a[..i] + a[i..];
  }

  /** For lists that are not empty, any such change of any of them keeps the class. */
  lemma ClassIsStable(ch: Hello, suites: seq<u16>, curves: seq<u16>, sigs: seq<u16>, versions: seq<u16>)
    requires SameOffer(ch.cipherSuites, suites) && SameOffer(ch.supportedCurves, curves) && SameOffer(ch.sigAlgs, sigs)
    requires SameOffer(ch.supportedVersions, versions) && (ch.supportedVersions == [] <==> versions == [])
    ensures Class(ch.(cipherSuites := suites, supportedCurves := curves, sigAlgs := sigs,
      supportedVersions := versions)) == Class(ch)
  {
    SameFeatures(ch.(cipherSuites := suites, supportedCurves := curves, sigAlgs := sigs, supportedVersions := versions),
      ch);
  }

  // ---------------------------------------------------------------- the soft class

  /** SCT and OCSP count as one, and ECH not at all. */
  function Collapsed(ch: Hello): Hello { ch.(scts := ch.scts || ch.ocspStapling, ocspStapling := false, ech := []) }

  function SoftClassOf(ch: Hello): string { "s:" + Class(Collapsed(ch)) }

  /** The code's soft class: without SCT, OCSP and ECH there is nothing to collapse. */
  function SoftClassify(ch: Option<Hello>): string {
    if ch.None? then ""
    else if !ch.value.scts && !ch.value.ocspStapling && ch.value.ech == [] then "s:" + Class(ch.value)
    else
      var tmp := if ch.value.scts || ch.value.ocspStapling then ch.value.(scts := true, ocspStapling := false)
                 else ch.value.(scts := false, ocspStapling := false);
      "s:" + Class(tmp.(ech := []))
  }

  /** The soft class of a hello whose exact class is at hand. */
  function SoftClassifyFromExact(ch: Option<Hello>, exact: string): string {
    if ch.None? then ""
    else if exact != "" && !ch.value.scts && !ch.value.ocspStapling && ch.value.ech == [] then "s:" + exact
    else SoftClassify(ch)
  }

  /** The shortcuts change nothing. */
  lemma FastSoftIsSoft(ch: Hello)
    ensures SoftClassify(Some(ch)) == SoftClassOf(ch)
    ensures SoftClassifyFromExact(Some(ch), Class(ch)) == SoftClassOf(ch)
  {
    if !ch.scts && !ch.ocspStapling && ch.ech == [] {
      assert Collapsed(ch) == ch;
    } else {
      assert Collapsed(ch) == ch.(scts := ch.scts || ch.ocspStapling, ocspStapling := false).(ech := []);
    }
  }

  /** Hellos that differ in ECH, or in which of SCT and OCSP they ask for, share their soft class. */
  lemma SoftMerges(ch: Hello, scts: bool, ocsp: bool, ech: bytes)
    requires (scts || ocsp) == (ch.scts || ch.ocspStapling)
    ensures SoftClassOf(ch.(scts := scts, ocspStapling := ocsp, ech := ech)) == SoftClassOf(ch)
  {
    assert Collapsed(ch.(scts := scts, ocspStapling := ocsp, ech := ech)) == Collapsed(ch);
  }

  /** A key built from an exact class is never soft, one built from a soft class always is. */
  lemma ClassesMakeTheirKind(ch: Hello, f: Fields)
    ensures !IsSoft(KeyV2(f.(chClass := Class(ch)))) && IsSoft(KeyV2(f.(chClass := SoftClassOf(ch))))
  {
    var h, h' := Fold(FNV_OFFSET, Stream(FeaturesOf(ch))), Fold(FNV_OFFSET, Stream(FeaturesOf(Collapsed(ch))));
    HexBarFree(h);
    HexBarFree(h');
    HexHasNoColon(h);
    assert BarFree("s:" + Hex(h'));
    SoftKeys(f.(chClass := Class(ch)));
    SoftKeys(f.(chClass := SoftClassOf(ch)));
  }

  lemma {:induction false} HexHasNoColon(v: nat)
    ensures forall i :: 0 <= i < |Hex(v)| ==> Hex(v)[i] != ':' && Hex(v)[i] != 's'
  {
    if v >= 16 { HexHasNoColon(v / 16); }
  }

  // ---------------------------------------------------------------- as the code computes it

  function Pow16(k: nat): nat { if k == 0 then 1 else 16 * Pow16(k - 1) }

  lemma SixteenDigits()
    ensures Pow16(16) == TWO64
  {
    assert Pow16(4) == 0x1_0000;
    assert Pow16(8) == 0x1_0000_0000;
    assert Pow16(12) == 0x1_0000_0000_0000;
  }

  /** The digits still to be written. */
  function Ahead(v: nat): string { if v == 0 then "" else Hex(v) }

  lemma AheadStep(v: nat, done: string)
    requires v > 0
    ensures Ahead(v) + done == Ahead(v / 16) + ([Digit(v % 16)] + done)
  {
  }

  /** Hex digits from the last to the first, into a buffer of sixteen filled from its end. */
  method FormatUint64Hex(v0: nat) returns (s: string)
    requires v0 < TWO64
    ensures s == Hex(v0)
  {
    if v0 == 0 { return "0"; }
    var buf := new char[16](_ => '0');
    var i: nat, v: nat := 16, v0;
    SixteenDigits();
    ghost var done: string, total := "", Hex(v0);
    while v > 0
      invariant i <= 16 && v < Pow16(i)
      invariant done == buf[i..] && Ahead(v) + done == total
      decreases v
    {
      AheadStep(v, done);
      i := i - 1;
      buf[i] := Digit(v % 16);
      done := [Digit(v % 16)] + done;
      v := v / 16;
    }
    s := buf[i..];
  }

  /** Feeds one byte. */
  method Feed(h: nat, ghost fed: bytes, b: byte) returns (r: nat)
    requires h == Fold(FNV_OFFSET, fed)
    ensures r == Fold(FNV_OFFSET, fed + [b])
  {
    FoldStep(FNV_OFFSET, fed, b);
    r := Mix(h, b);
  }

  method FeedAll(h: nat, ghost fed: bytes, s: bytes) returns (r: nat)
    requires h == Fold(FNV_OFFSET, fed)
    ensures r == Fold(FNV_OFFSET, fed + s)
  {
    r := h;
    assert fed + s[..0] == fed;
    for i := 0 to |s|
      invariant r == Fold(FNV_OFFSET, fed + s[..i])
    {
      assert fed + s[..i] + [s[i]] == fed + s[..i + 1];
      r := Feed(r, fed + s[..i], s[i]);
    }
    assert s[..|s|] == s;
  }

  lemma InPrefix(cs: seq<u16>, i: nat, v: u16)
    requires i < |cs|
    ensures v in cs[..i + 1] <==> v in cs[..i] || cs[i] == v
  {
    assert cs[..i + 1] == cs[..i] + [cs[i]];
  }

  predicate IsSuite(v: u16) { 0x1301 <= v <= 0x1303 }

  predicate Distinct(s: seq<u16>) { forall i, j :: 0 <= i < j < |s| ==> s[i] != s[j] }

  /** The suites seen, each once, in any order. */
  predicate Holds(s: seq<u16>, seen: (bool, bool, bool)) {
    |s| <= 3 && Distinct(s) && (forall i :: 0 <= i < |s| ==> IsSuite(s[i])) && (0x1301 in s) == seen.0
      && (0x1302 in s) == seen.1 && (0x1303 in s) == seen.2
  }

  function Seen(seen: (bool, bool, bool), v: u16): (bool, bool, bool) {
    (seen.0 || v == 0x1301, seen.1 || v == 0x1302, seen.2 || v == 0x1303)
  }

  lemma ThreeAreAll(s: seq<u16>, v: u16)
    requires Distinct(s) && (forall i :: 0 <= i < |s| ==> IsSuite(s[i])) && IsSuite(v)
    ensures |s| == 3 ==> v in s
  {
    if |s| == 3 { assert IsSuite(s[0]) && IsSuite(s[1]) && IsSuite(s[2]); }
  }

  lemma HoldsMore(s: seq<u16>, v: u16, seen: (bool, bool, bool))
    requires Holds(s, seen) && IsSuite(v) && v !in s
    ensures Holds(s + [v], Seen(seen, v)) && |s| < 3
  {
    ThreeAreAll(s, v);
  }

  /** One suite more, if it is one of the three and new. */
  method NoteSuite(suites: array<u16>, n: nat, seen: (bool, bool, bool), v: u16)
    returns (n': nat, seen': (bool, bool, bool))
    requires suites.Length == 3 && n <= 3 && Holds(suites[..n], seen)
    modifies suites
    ensures n' <= 3 && seen' == Seen(seen, v) && Holds(suites[..n'], seen')
  {
    n', seen' := n, seen;
    if IsGrease(v) { return; }
    if (v == 0x1301 && !seen.0) || (v == 0x1302 && !seen.1) || (v == 0x1303 && !seen.2) {
      ghost var before := suites[..n];
      HoldsMore(before, v, seen);
      seen' := Seen(seen, v);
      suites[n] := v;
      assert suites[..n + 1] == before + [v];
      n' := n + 1;
    }
  }

  /** The TLS 1.3 suites in the order they first appear, at most three, then sorted. */
  method CollectSuites(cs: seq<u16>) returns (r: seq<u16>)
    ensures r == Canon(0x1301 in cs, 0x1302 in cs, 0x1303 in cs)
  {
    var suites := new u16[3](_ => 0);
    var n: nat, seen := 0, (false, false, false);
    for i := 0 to |cs|
      invariant n <= 3 && seen == (0x1301 in cs[..i], 0x1302 in cs[..i], 0x1303 in cs[..i])
      invariant Holds(suites[..n], seen)
    {
      InPrefix(cs, i, 0x1301);
      InPrefix(cs, i, 0x1302);
      InPrefix(cs, i, 0x1303);
      n, seen := NoteSuite(suites, n, seen, cs[i]);
    }
    assert cs[..|cs|] == cs;
    SortSuites(suites, n, seen);
    r := suites[..n];
    SortedIsCanon(r, seen);
  }

  predicate Ascending(s: seq<u16>) { forall i, j :: 0 <= i < j < |s| ==> s[i] <= s[j] }

  lemma SortedIsCanon(s: seq<u16>, seen: (bool, bool, bool))
    requires Holds(s, seen) && Ascending(s)
    ensures s == Canon(seen.0, seen.1, seen.2)
  {
    assert |s| > 0 ==> IsSuite(s[0]);
    assert |s| > 1 ==> IsSuite(s[1]) && s[0] < s[1];
    assert |s| > 2 ==> IsSuite(s[2]) && s[1] < s[2];
  }

  method SwapFirst(a: array<u16>, n: nat, i: nat, j: nat, ghost seen: (bool, bool, bool))
    requires n <= a.Length && i < n && j < n && Holds(a[..n], seen)
    modifies a
    ensures a[..n] == old(a[..n])[i := old(a[j])][j := old(a[i])] && Holds(a[..n], seen)
  {
    ghost var s := a[..n];
    a[i], a[j] := a[j], a[i];
    ghost var t := a[..n];
    assert t == s[i := s[j]][j := s[i]];
    SwapHolds(s, t, i, j, seen);
  }

  lemma SwapHolds(s: seq<u16>, t: seq<u16>, i: nat, j: nat, seen: (bool, bool, bool))
    requires i < |s| && j < |s| && Holds(s, seen) && t == s[i := s[j]][j := s[i]]
    ensures Holds(t, seen)
  {
    assert forall v :: v in s ==> v in t by {
      forall k | 0 <= k < |s| ensures s[k] in t {
        assert s[k] == t[if k == i then j else if k == j then i else k];
      }
    }
  }

  /** And place i holds the least of the places up to j. */
  predicate LeastUpto(s: seq<u16>, i: nat, j: nat) {
    Least(s, i) && i < j <= |s| && forall l :: i < l < j ==> s[i] <= s[l]
  }

  /** Swapping a smaller one in keeps the ascending front and makes place i the least so far. */
  lemma SwapKeepsLeast(s: seq<u16>, t: seq<u16>, i: nat, j: nat)
    requires LeastUpto(s, i, j) && j < |s|
    requires t == if s[j] < s[i] then s[i := s[j]][j := s[i]] else s
    ensures LeastUpto(t, i, j + 1)
  {
  }

  lemma LeastGrows(s: seq<u16>, i: nat)
    requires LeastUpto(s, i, |s|)
    ensures Least(s, i + 1)
  {
  }

  /** Brings the least of what is left to place i. */
  method SelectLeast(a: array<u16>, n: nat, i: nat, ghost seen: (bool, bool, bool))
    requires i < n <= a.Length && Least(a[..n], i) && Holds(a[..n], seen)
    modifies a
    ensures Least(a[..n], i + 1) && Holds(a[..n], seen)
  {
    for j := i + 1 to n
      invariant LeastUpto(a[..n], i, j) && Holds(a[..n], seen)
    {
      CompareSwap(a, n, i, j, seen);
    }
    LeastGrows(a[..n], i);
  }

  method CompareSwap(a: array<u16>, n: nat, i: nat, j: nat, ghost seen: (bool, bool, bool))
    requires j < n <= a.Length && LeastUpto(a[..n], i, j) && Holds(a[..n], seen)
    modifies a
    ensures LeastUpto(a[..n], i, j + 1) && Holds(a[..n], seen)
  {
    ghost var s := a[..n];
    if a[j] < a[i] { SwapFirst(a, n, i, j, seen); }
    SwapKeepsLeast(s, a[..n], i, j);
  }

  /** Exchange sort of the first n. */
  method SortSuites(a: array<u16>, n: nat, ghost seen: (bool, bool, bool))
    requires n <= a.Length && Holds(a[..n], seen)
    modifies a
    ensures Ascending(a[..n]) && Holds(a[..n], seen)
  {
    for i := 0 to n
      invariant Least(a[..n], i) && Holds(a[..n], seen)
    {
      SelectLeast(a, n, i, seen);
    }
  }

  /** The first i are ascending and no greater than the rest. */
  predicate Least(s: seq<u16>, i: nat) { i <= |s| && forall k, l :: 0 <= k < i && k < l < |s| ==> s[k] <= s[l] }

  method AnyGroup(ch: Hello, g: u16) returns (r: bool)
    ensures r == OffersGroup(ch, g)
  {
    r := false;
    for i := 0 to |ch.keyShares|
      invariant r == exists k :: 0 <= k < i && ch.keyShares[k].group == g
    {
      if ch.keyShares[i].group == g { r := true; }
    }
    ghost var shared := r;
    for i := 0 to |ch.supportedCurves|
      invariant r == (shared || g in ch.supportedCurves[..i])
    {
      assert ch.supportedCurves[..i + 1] == ch.supportedCurves[..i] + [ch.supportedCurves[i]];
      if ch.supportedCurves[i] == g { r := true; }
    }
    assert ch.supportedCurves[..|ch.supportedCurves|] == ch.supportedCurves;
  }

  /** The signature buckets, GREASE passed over. */
  method Buckets(sigs: seq<u16>) returns (ed: bool, ec: bool, pss: bool)
    ensures ed == (0x0807 in sigs) && ec == AnyEcdsa(sigs) && pss == AnyRsaPss(sigs)
  {
    ed, ec, pss := false, false, false;
    for i := 0 to |sigs|
      invariant ed == (exists k :: 0 <= k < i && sigs[k] == 0x0807)
      invariant ec == (exists k :: 0 <= k < i && Ecdsa(sigs[k])) && pss == (exists k :: 0 <= k < i && RsaPss(sigs[k]))
    {
      if IsGrease(sigs[i]) { continue; }
      if sigs[i] == 0x0807 { ed := true; }
      else if Ecdsa(sigs[i]) { ec := true; }
      else if RsaPss(sigs[i]) { pss := true; }
    }
  }

  method ExtractFeatures(c: Hello) returns (f: Features)
    ensures f == FeaturesOf(c)
  {
    var suites := CollectSuites(c.cipherSuites);
    var x := AnyGroup(c, X25519);
    var m := AnyGroup(c, MLKEM);
    var p := AnyGroup(c, P256);
    var ed, ec, pss := Buckets(c.sigAlgs);
    f := Features(if c.alpn == [] then [] else c.alpn[0], suites, [Flag(x), Flag(m), Flag(p)],
                  [Flag(ed), Flag(ec), Flag(pss)], Presence(c), TLS13 in c.supportedVersions);
  }

  method HashFeatures(f: Features) returns (h: nat)
    ensures h == Fold(FNV_OFFSET, Stream(f)) && h < TWO64
  {
    h := FeedAll(FNV_OFFSET, [], [CLASS_VERSION]);
    assert [] + [CLASS_VERSION] == [CLASS_VERSION];
    ghost var fed := [CLASS_VERSION];
    h := FeedAll(h, fed, f.alpn);
    fed := fed + f.alpn;
    h := FeedAll(h, fed, [0]);
    fed := fed + [0];
    h := FeedAll(h, fed, U16Bytes(f.suites));
    fed := fed + U16Bytes(f.suites);
    h := FeedAll(h, fed, [|f.suites| % 256]);
    fed := fed + [|f.suites| % 256];
    h := FeedAll(h, fed, f.groups);
    fed := fed + f.groups;
    h := FeedAll(h, fed, f.sigs);
    fed := fed + f.sigs;
    h := FeedAll(h, fed, [f.presence]);
    fed := fed + [f.presence];
    h := FeedAll(h, fed, if f.tls13 then [3, 4] else []);
    FoldBound(Stream(f));
  }

  lemma FoldBound(s: bytes)
    ensures Fold(FNV_OFFSET, s) < TWO64
  {
  }

  /** The class of a hello, or of none. */
  method ClassifyClientHello(ch: Option<Hello>) returns (r: string)
    ensures r == if ch.None? then "empty" else Class(ch.value)
  {
    if ch.None? { return "empty"; }
    var f := ExtractFeatures(ch.value);
    var h := HashFeatures(f);
    r := FormatUint64Hex(h);
  }
}
