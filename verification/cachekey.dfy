/** The keys of the profile cache: how they are built, split and told apart. */
module CacheKeys {
  import opened Wire

  const BAR := '|'
  const TLS13: u16 := 0x0304
  const DIGITS := "0123456789abcdef"

  // ---------------------------------------------------------------- splitting

  predicate BarFree(s: string) { forall i :: 0 <= i < |s| ==> s[i] != BAR }

  function Bars(s: string): nat {
    if s == [] then 0 else (if s[0] == BAR then 1 else 0) + Bars(s[1..])
  }

  /** Where the first bar is, or the length. */
  function FirstBar(s: string): (i: nat)
    ensures i <= |s| && (i < |s| ==> s[i] == BAR) && forall k :: 0 <= k < i ==> s[k] != BAR
  {
    if s == [] || s[0] == BAR then 0 else 1 + FirstBar(s[1..])
  }

  /** The plain split: the pieces between the bars. */
  function Split(s: string): (r: seq<string>)
    ensures |r| > 0
    decreases |s|
  {
    var i := FirstBar(s);
    if i == |s| then [s] else [s[..i]] + Split(s[i + 1..])
  }

  /** Two strings with a bar between them. */
  function Glue(a: string, b: string): string { a + [BAR] + b }

  lemma {:induction false} BarsAppend(a: string, b: string)
    ensures Bars(a + b) == Bars(a) + Bars(b)
  {
    if a == [] {
      assert a + b == b;
    } else {
      BarsAppend(a[1..], b);
      assert (a + b)[1..] == a[1..] + b;
    }
  }

  lemma {:induction false} NoBars(s: string)
    ensures Bars(s) == 0 <==> BarFree(s)
  {
    if s != [] {
      NoBars(s[1..]);
      assert BarFree(s) ==> BarFree(s[1..]);
      assert forall i :: 0 < i < |s| ==> s[i] == s[1..][i - 1];
    }
  }

  lemma FirstBarIs(a: string, b: string)
    requires BarFree(a)
    ensures FirstBar(Glue(a, b)) == |a|
  {
    var s := Glue(a, b);
    assert s[|a|] == BAR && forall k :: 0 <= k < |a| ==> s[k] == a[k];
  }

  lemma SplitCons(a: string, b: string)
    requires BarFree(a)
    ensures Split(Glue(a, b)) == [a] + Split(b)
  {
    var s := Glue(a, b);
    FirstBarIs(a, b);
    assert s[..|a|] == a && s[|a| + 1..] == b;
  }

  lemma SplitLast(a: string)
    requires BarFree(a)
    ensures Split(a) == [a]
  {
    assert FirstBar(a) == |a|;
  }

  /** There is one piece more than there are bars, and no piece holds a bar. */
  lemma {:induction false} SplitPieces(s: string)
    ensures |Split(s)| == Bars(s) + 1 && forall k :: 0 <= k < |Split(s)| ==> BarFree(Split(s)[k])
    decreases |s|
  {
    var i := FirstBar(s);
    if i == |s| {
      assert s[..i] == s;
      NoBars(s);
    } else {
      SplitPieces(s[i + 1..]);
      BarsCons(s, i);
      var piece, rest := s[..i], Split(s[i + 1..]);
      assert Split(s) == [piece] + rest && BarFree(piece);
      forall k | 0 <= k < |[piece] + rest| ensures BarFree(([piece] + rest)[k]) {
        assert k > 0 ==> ([piece] + rest)[k] == rest[k - 1];
      }
    }
  }

  lemma {:induction false} BarsCons(s: string, i: nat)
    requires i == FirstBar(s) < |s|
    ensures Bars(s) == 1 + Bars(s[i + 1..])
    decreases i
  {
    if i > 0 {
      BarsCons(s[1..], i - 1);
      assert s[1..][i..] == s[i + 1..];
    }
  }

  /** The pieces joined by bars. */
  function Joined(parts: seq<string>): string
    requires parts != []
  {
    if |parts| == 1 then parts[0] else Glue(parts[0], Joined(parts[1..]))
  }

  lemma JoinedCons(piece: string, rest: seq<string>)
    requires rest != []
    ensures Joined([piece] + rest) == Glue(piece, Joined(rest))
  {
    assert ([piece] + rest)[1..] == rest;
  }

  /** Every string is bar-free, or a bar-free piece glued to the rest. */
  lemma Unglue(s: string, i: nat)
    requires i == FirstBar(s) < |s|
    ensures s == Glue(s[..i], s[i + 1..]) && Split(s) == [s[..i]] + Split(s[i + 1..])
  {
    GlueAt(s, i);
  }

  lemma GlueAt(s: string, i: nat)
    requires i < |s| && s[i] == BAR
    ensures s == Glue(s[..i], s[i + 1..])
  {
  }

  /** Splitting loses nothing. */
  lemma {:induction false} JoinSplit(s: string)
    ensures Joined(Split(s)) == s
    decreases |s|
  {
    var i := FirstBar(s);
    if i < |s| {
      JoinSplit(s[i + 1..]);
      Unglue(s, i);
      JoinedCons(s[..i], Split(s[i + 1..]));
    }
  }

  predicate NoBar(s: string, lo: nat, hi: nat)
    requires hi <= |s|
  {
    forall k :: lo <= k < hi ==> s[k] != BAR
  }

  lemma SplitEnd(s: string, start: nat)
    requires start <= |s| && NoBar(s, start, |s|)
    ensures Split(s[start..]) == [s[start..]]
  {
    SplitLast(s[start..]);
  }

  /** Splitting s where the piece that starts at start has been read up to i. */
  lemma SplitStep(s: string, start: nat, i: nat)
    requires start <= i < |s| && s[i] == BAR && NoBar(s, start, i)
    ensures Split(s[start..]) == [s[start..i]] + Split(s[i + 1..])
  {
    SplitCons(s[start..i], s[i + 1..]);
    assert s[start..] == Glue(s[start..i], s[i + 1..]);
  }

  /** What is left to split from each position on. */
  ghost predicate Leaves(s: string, rest: nat -> seq<string>) {
    forall start: nat, i: nat :: start <= i <= |s| && NoBar(s, start, i) ==> LeavesAt(s, rest, start, i)
  }

  ghost predicate LeavesAt(s: string, rest: nat -> seq<string>, start: nat, i: nat)
    requires start <= i <= |s|
  {
    if i == |s| then rest(start) == [s[start..]]
    else s[i] == BAR ==> rest(start) == [s[start..i]] + rest(i + 1)
  }

  ghost function After(s: string): nat -> seq<string> { (i: nat) => if i <= |s| then Split(s[i..]) else [] }

  lemma SplitLeaves(s: string)
    ensures Leaves(s, After(s))
  {
    forall start: nat, i: nat | start <= i <= |s| && NoBar(s, start, i) ensures LeavesAt(s, After(s), start, i) {
      if i == |s| { SplitEnd(s, start); } else if s[i] == BAR { SplitStep(s, start, i); }
    }
  }

  lemma Shift(done: seq<string>, piece: string, rest: seq<string>)
    ensures done + ([piece] + rest) == done + [piece] + rest
  {
  }

  /** The rest of a split, from a piece that started earlier. */
  method SplitRest(s: string, from: nat, parts: seq<string>, ghost rest: nat -> seq<string>) returns (r: seq<string>)
    requires from <= |s| && Leaves(s, rest)
    ensures r == parts + rest(from)
  {
    r := parts;
    var start, j := from, from;
    while j < |s|
      invariant from <= start <= j <= |s| && NoBar(s, start, j) && r + rest(start) == parts + rest(from)
    {
      assert LeavesAt(s, rest, start, j);
      if s[j] == BAR {
        Shift(r, s[start..j], rest(j + 1));
        r := r + [s[start..j]];
        start := j + 1;
      }
      j := j + 1;
    }
    assert LeavesAt(s, rest, start, j);
    r := r + [s[start..]];
  }

  method Fill(buf: array<string>, n: nat, piece: string)
    requires n < buf.Length
    modifies buf
    ensures buf[..n + 1] == old(buf[..n]) + [piece]
  {
    buf[n] := piece;
  }

  /** Five slots on the stack, and a second loop for longer keys. */
  method SplitInto(s: string, ghost rest: nat -> seq<string>) returns (r: seq<string>)
    requires Leaves(s, rest)
    ensures r == rest(0)
  {
    var buf := new string[5](_ => "");
    var n, start, i := 0, 0, 0;
    ghost var done: seq<string> := [];
    while i < |s|
      invariant 0 <= n <= 5 && 0 <= start <= i <= |s| && NoBar(s, start, i)
      invariant done == buf[..n] && done + rest(start) == rest(0)
    {
      assert LeavesAt(s, rest, start, i);
      if s[i] == BAR {
        Shift(done, s[start..i], rest(i + 1));
        if n == 5 {
          r := SplitRest(s, i + 1, buf[..n] + [s[start..i]], rest);
          return;
        }
        Fill(buf, n, s[start..i]);
        n, done, start := n + 1, done + [s[start..i]], i + 1;
      }
      i := i + 1;
    }
    assert LeavesAt(s, rest, start, i);
    r := buf[..n] + [s[start..]];
  }

  /** The split the code uses is the plain split, on every string. */
  method SplitKey(s: string) returns (r: seq<string>)
    ensures r == Split(s)
  {
    SplitLeaves(s);
    r := SplitInto(s, After(s));
    assert s[0..] == s;
  }

  // ---------------------------------------------------------------- hexadecimal

  function Digit(d: nat): char
    requires d < 16
  {
    DIGITS[d]
  }

  /** Hexadecimal without leading zeros. */
  function Hex(v: nat): (s: string)
    ensures s != []
  {
    if v < 16 then [Digit(v)] else Hex(v / 16) + [Digit(v % 16)]
  }

  function VersionHex(v: u16): string { "0x" + Hex(v) }

  /** Nibble by nibble from the top, leading zeros skipped. */
  method AppendUint16Hex(b: string, v: u16) returns (r: string)
    ensures r == b + VersionHex(v)
  {
    r := b + "0x";
    if v == 0 { return r + ['0']; }
    ghost var head := r;
    var started, k := false, 4;
    FourDigits(v);
    while k > 0
      invariant 0 <= k <= 4 && started == (Shifted(v, k) != 0)
      invariant r == if started then head + Hex(Shifted(v, k)) else head
    {
      k := k - 1;
      var nibble := Shifted(v, k) % 16;
      HexStep(Shifted(v, k));
      if !started && nibble == 0 { continue; }
      started := true;
      r := r + [Digit(nibble)];
    }
  }

  /** v without its last k hexadecimal digits. */
  function Shifted(v: nat, k: nat): nat { if k == 0 then v else Shifted(v, k - 1) / 16 }

  lemma FourDigits(v: u16)
    ensures Shifted(v, 4) == 0
  {
    assert Shifted(v, 0) == v;
    assert Shifted(v, 1) < 4096;
    assert Shifted(v, 2) < 256;
    assert Shifted(v, 3) < 16;
  }

  lemma HexStep(v: nat)
    ensures Hex(v) == (if v / 16 == 0 then [] else Hex(v / 16)) + [Digit(v % 16)]
  {
  }

  function DigitValue(c: char): Option<nat> {
    if '0' <= c <= '9' then Some(c as nat - '0' as nat)
    else if 'a' <= c <= 'f' then Some(c as nat - 'a' as nat + 10)
    else if 'A' <= c <= 'F' then Some(c as nat - 'A' as nat + 10)
    else None
  }

  /** Base 16 into 16 bits: 0 at the first character that is no digit, 65535 at the first overflow. */
  function ParseHex(n: u16, s: string): u16
    decreases |s|
  {
    if s == [] then n else
    match DigitValue(s[0])
    case None => 0
    case Some(d) => if n * 16 + d > 0xFFFF then 0xFFFF else ParseHex(n * 16 + d, s[1..])
  }

  function TrimHex(s: string): string {
    if |s| >= 2 && s[..2] == "0x" then s[2..] else s
  }

  /** The parser behind the keys; an empty number is 0. */
  function ParseVersion(s: string): u16 { ParseHex(0, TrimHex(s)) }

  lemma DigitRoundTrip(d: nat)
    requires d < 16
    ensures DigitValue(Digit(d)) == Some(d) && Digit(d) != BAR
  {
  }

  lemma {:induction false} HexBarFree(v: nat)
    ensures BarFree(Hex(v))
  {
    if v < 16 { DigitRoundTrip(v); } else {
      HexBarFree(v / 16);
      DigitRoundTrip(v % 16);
    }
  }

  lemma {:induction false} ParseHexAppend(n: u16, a: string, d: nat)
    requires d < 16 && ParseHex(n, a) * 16 + d <= 0xFFFF && AllDigits(a) && Fits(n, a)
    ensures ParseHex(n, a + [Digit(d)]) == ParseHex(n, a) * 16 + d
    decreases |a|
  {
    DigitRoundTrip(d);
    if a == [] {
      assert a + [Digit(d)] == [Digit(d)];
      assert [Digit(d)][1..] == [];
    } else {
      var m := n * 16 + DigitValue(a[0]).value;
      ParseHexAppend(m, a[1..], d);
      assert (a + [Digit(d)])[1..] == a[1..] + [Digit(d)];
    }
  }

  predicate AllDigits(s: string) { forall i :: 0 <= i < |s| ==> DigitValue(s[i]).Some? }

  /** No overflow on the way. */
  predicate Fits(n: u16, s: string)
    requires AllDigits(s)
    decreases |s|
  {
    s == [] || (n * 16 + DigitValue(s[0]).value <= 0xFFFF && Fits(n * 16 + DigitValue(s[0]).value, s[1..]))
  }

  lemma {:induction false} HexRoundTrip(v: u16)
    ensures AllDigits(Hex(v)) && Fits(0, Hex(v)) && ParseHex(0, Hex(v)) == v
  {
    if v < 16 {
      DigitRoundTrip(v);
      assert [Digit(v)][1..] == [];
    } else {
      HexRoundTrip(v / 16);
      DigitRoundTrip(v % 16);
      ParseHexAppend(0, Hex(v / 16), v % 16);
      FitsAppend(0, Hex(v / 16), v % 16);
    }
  }

  lemma {:induction false} FitsAppend(n: u16, a: string, d: nat)
    requires d < 16 && AllDigits(a) && Fits(n, a) && ParseHex(n, a) * 16 + d <= 0xFFFF
    ensures AllDigits(a + [Digit(d)]) && Fits(n, a + [Digit(d)])
    decreases |a|
  {
    DigitRoundTrip(d);
    var s := a + [Digit(d)];
    if a == [] {
      assert s == [Digit(d)] && s[1..] == [];
    } else {
      FitsAppend(n * 16 + DigitValue(a[0]).value, a[1..], d);
      assert s[1..] == a[1..] + [Digit(d)];
    }
  }

  lemma NoPrefix(s: string)
    requires AllDigits(s)
    ensures TrimHex(s) == s
  {
    assert "0x"[1] == 'x' && DigitValue('x').None?;
    assert |s| >= 2 ==> s[..2][1] == s[1] && DigitValue(s[1]).Some?;
  }

  /** A version reads back with its prefix and without. */
  lemma VersionRoundTrip(v: u16)
    ensures ParseVersion(VersionHex(v)) == v && BarFree(VersionHex(v)) && ParseVersion(Hex(v)) == v
  {
    HexRoundTrip(v);
    HexBarFree(v);
    assert VersionHex(v)[..2] == "0x" && VersionHex(v)[2..] == Hex(v);
    NoPrefix(Hex(v));
  }

  /** The digits are those of both cases, and nothing else is one. */
  lemma DigitsOfBothCases(c: char, d: nat)
    requires d < 16
    ensures DigitValue(c) == Some(d) <==> c == "0123456789abcdef"[d] || c == "0123456789ABCDEF"[d]
    ensures DigitValue(c).Some? ==> DigitValue(c).value < 16
  {
  }

  /** What hexadecimal digits stand for. */
  function HexNumber(n: nat, s: string): nat
    requires AllDigits(s)
    decreases |s|
  {
    if s == [] then n else HexNumber(n * 16 + DigitValue(s[0]).value, s[1..])
  }

  lemma {:induction false} HexNumberGrows(n: nat, s: string)
    requires AllDigits(s)
    ensures HexNumber(n, s) >= n
    decreases |s|
  {
    if s != [] { HexNumberGrows(n * 16 + DigitValue(s[0]).value, s[1..]); }
  }

  /**
    Digits alone are read as the number they stand for, and as 65535 if it is greater; a character
    that is no digit makes it 0, if it comes before that.
   */
  lemma {:induction false} ParseHexIs(n: u16, s: string)
    ensures AllDigits(s) ==> ParseHex(n, s) == if HexNumber(n, s) > 65535 then 65535 else HexNumber(n, s)
    ensures !AllDigits(s) ==> ParseHex(n, s) == 0 || ParseHex(n, s) == 65535
    decreases |s|
  {
    if s != [] && DigitValue(s[0]).Some? {
      var m := n * 16 + DigitValue(s[0]).value;
      assert AllDigits(s) <==> AllDigits(s[1..]) by {
        assert forall i :: 0 < i < |s| ==> s[i] == s[1..][i - 1];
      }
      if m <= 0xFFFF { ParseHexIs(m, s[1..]); } else if AllDigits(s) { HexNumberGrows(m, s[1..]); }
    }
  }

  // ---------------------------------------------------------------- the keys

  datatype Fields = Fields(dest: string, serverName: string, alpn: string, version: u16, chClass: string)

  function LegacyKey(serverName: string, alpn: string, version: u16): string {
    Glue(serverName, Glue(alpn, VersionHex(version)))
  }

  function ClassOf(chClass: string): string { if chClass == "" then "-" else chClass }

  function KeyV2(f: Fields): string {
    Glue(f.dest, Glue(f.serverName, Glue(f.alpn, Glue(VersionHex(f.version), ClassOf(f.chClass)))))
  }

  /** Parses a V2 key; longer keys are cut after the fifth piece. */
  function ParseV2(key: string): Option<Fields> {
    var parts := Split(key);
    if |parts| < 5 then None else Some(Fields(parts[0], parts[1], parts[2], ParseVersion(parts[3]), parts[4]))
  }

  /** Server name, ALPN and version of either kind of key. */
  function ParseKey(key: string): (string, string, u16) {
    var parts := Split(key);
    if |parts| >= 5 then (parts[1], parts[2], ParseVersion(parts[3]))
    else if |parts| >= 3 then (parts[0], parts[1], ParseVersion(parts[2]))
    else if |parts| == 2 then (parts[0], parts[1], TLS13)
    else (parts[0], "", TLS13)
  }

  predicate IsLegacy(key: string) { Bars(key) < 4 }

  function AfterLastBar(s: string): string {
    var parts := Split(s);
    parts[|parts| - 1]
  }

  predicate SoftClass(chClass: string) { |chClass| >= 2 && chClass[0] == 's' && chClass[1] == ':' }

  predicate IsSoft(key: string) { !IsLegacy(key) && SoftClass(AfterLastBar(key)) }

  /** The last bar, found scanning; the whole string has none when the result is -1. */
  method LastIndexOfBar(s: string) returns (k: int)
    ensures -1 <= k < |s| && (k >= 0 ==> s[k] == BAR) && BarFree(s[k + 1..]) && (k == -1 ==> BarFree(s))
  {
    k := |s| - 1;
    while k >= 0 && s[k] != BAR
      invariant -1 <= k < |s| && BarFree(s[k + 1..])
    {
      assert s[k..] == [s[k]] + s[k + 1..];
      k := k - 1;
    }
  }

  lemma GlueAssociates(a: string, b: string, c: string)
    ensures Glue(Glue(a, b), c) == Glue(a, Glue(b, c))
  {
  }

  lemma SplitAppendStep(piece: string, rest: string, b: string)
    requires BarFree(piece) && Split(Glue(rest, b)) == Split(rest) + Split(b)
    ensures Split(Glue(Glue(piece, rest), b)) == Split(Glue(piece, rest)) + Split(b)
  {
    GlueAssociates(piece, rest, b);
    SplitCons(piece, Glue(rest, b));
    SplitCons(piece, rest);
    ConsAssociates(piece, Split(rest), Split(b));
  }

  lemma ConsAssociates(piece: string, x: seq<string>, y: seq<string>)
    ensures [piece] + (x + y) == [piece] + x + y
  {
  }

  lemma {:induction false} SplitAppend(a: string, b: string)
    ensures Split(Glue(a, b)) == Split(a) + Split(b)
    decreases |a|
  {
    var i := FirstBar(a);
    if i == |a| {
      SplitCons(a, b);
      SplitLast(a);
    } else {
      SplitAppend(a[i + 1..], b);
      Unglue(a, i);
      SplitAppendStep(a[..i], a[i + 1..], b);
    }
  }

  /** The code's test for soft keys: count the bars, then look behind the last one. */
  method IsSoftCacheKey(key: string) returns (soft: bool)
    ensures soft == IsSoft(key)
  {
    if Bars(key) < 4 { return false; }
    var k := LastIndexOfBar(key);
    NoBars(key);
    SplitAppend(key[..k], key[k + 1..]);
    assert key == Glue(key[..k], key[k + 1..]);
    SplitLast(key[k + 1..]);
    if k + 1 >= |key| { return false; }
    var ch := key[k + 1..];
    soft := |ch| >= 2 && ch[0] == 's' && ch[1] == ':';
  }

  lemma Split4(a: string, b: string, c: string, d: string, e: string)
    requires BarFree(a) && BarFree(b) && BarFree(c) && BarFree(d)
    ensures Split(Glue(a, Glue(b, Glue(c, Glue(d, e))))) == [a, b, c, d] + Split(e)
  {
    SplitCons(d, e);
    SplitCons(c, Glue(d, e));
    SplitCons(b, Glue(c, Glue(d, e)));
    SplitCons(a, Glue(b, Glue(c, Glue(d, e))));
    Nest4(a, b, c, d, Split(e));
  }

  lemma Nest4(a: string, b: string, c: string, d: string, rest: seq<string>)
    ensures [a] + ([b] + ([c] + ([d] + rest))) == [a, b, c, d] + rest
  {
  }

  lemma SplitV2(f: Fields)
    requires BarFree(f.dest) && BarFree(f.serverName) && BarFree(f.alpn)
    ensures Split(KeyV2(f)) == [f.dest, f.serverName, f.alpn, VersionHex(f.version)] + Split(ClassOf(f.chClass))
  {
    VersionRoundTrip(f.version);
    Split4(f.dest, f.serverName, f.alpn, VersionHex(f.version), ClassOf(f.chClass));
  }

  predicate AllBarFree(f: Fields) { BarFree(f.dest) && BarFree(f.serverName) && BarFree(f.alpn) && BarFree(f.chClass) }

  /** Parsing gives back what a key was built from exactly when no field holds a bar; an empty class reads as "-". */
  lemma KeyRoundTrip(f: Fields)
    ensures ParseV2(KeyV2(f)) == Some(f.(chClass := ClassOf(f.chClass))) <==> AllBarFree(f)
  {
    if AllBarFree(f) {
      SplitV2(f);
      SplitLast(ClassOf(f.chClass));
      VersionRoundTrip(f.version);
    } else {
      SplitPieces(KeyV2(f));
    }
  }

  lemma V2Bars(f: Fields)
    ensures Bars(KeyV2(f)) == 4 + Bars(f.dest) + Bars(f.serverName) + Bars(f.alpn) + Bars(ClassOf(f.chClass))
  {
    VersionRoundTrip(f.version);
    NoBars(VersionHex(f.version));
    var c := ClassOf(f.chClass);
    Joint(VersionHex(f.version), c);
    Joint(f.alpn, Glue(VersionHex(f.version), c));
    Joint(f.serverName, Glue(f.alpn, Glue(VersionHex(f.version), c)));
    Joint(f.dest, Glue(f.serverName, Glue(f.alpn, Glue(VersionHex(f.version), c))));
  }

  lemma Joint(a: string, b: string)
    ensures Bars(Glue(a, b)) == Bars(a) + 1 + Bars(b)
  {
    BarsAppend(a + [BAR], b);
    BarsAppend(a, [BAR]);
    assert [BAR][1..] == [];
  }

  lemma LegacyBars(serverName: string, alpn: string, version: u16)
    ensures Bars(LegacyKey(serverName, alpn, version)) == 2 + Bars(serverName) + Bars(alpn)
  {
    VersionRoundTrip(version);
    NoBars(VersionHex(version));
    Joint(alpn, VersionHex(version));
    Joint(serverName, Glue(alpn, VersionHex(version)));
  }

  /**
    V2 keys are never legacy, whatever their fields; a legacy key passes for one exactly when server
    name and ALPN hold at least two bars; so without bars the two kinds never collide.
   */
  lemma KindsDiffer(f: Fields, serverName: string, alpn: string, version: u16)
    ensures !IsLegacy(KeyV2(f))
    ensures IsLegacy(LegacyKey(serverName, alpn, version)) <==> Bars(serverName) + Bars(alpn) < 2
    ensures BarFree(serverName) && BarFree(alpn) ==> KeyV2(f) != LegacyKey(serverName, alpn, version)
  {
    V2Bars(f);
    LegacyBars(serverName, alpn, version);
    NoBars(serverName);
    NoBars(alpn);
  }

  /** Different bar-free fields make different keys. */
  lemma KeysInjective(f: Fields, g: Fields)
    requires AllBarFree(f) && AllBarFree(g) && KeyV2(f) == KeyV2(g)
    ensures f.(chClass := ClassOf(f.chClass)) == g.(chClass := ClassOf(g.chClass))
  {
    KeyRoundTrip(f);
    KeyRoundTrip(g);
  }

  lemma LastOf(a: string, b: string)
    ensures AfterLastBar(Glue(a, b)) == AfterLastBar(b)
  {
    SplitAppend(a, b);
  }

  lemma SoftIsPrefix(s: string)
    ensures SoftClass(s) <==> "s:" <= s
  {
    assert |s| >= 2 ==> (s[..2] == "s:" <==> s[0] == 's' && s[1] == ':');
  }

  /** A V2 key is soft exactly when its class, behind any bar of its own, starts with "s:". */
  lemma SoftKeys(f: Fields)
    ensures IsSoft(KeyV2(f)) <==> "s:" <= AfterLastBar(f.chClass)
    ensures BarFree(f.chClass) ==> AfterLastBar(f.chClass) == f.chClass
  {
    V2Bars(f);
    var c, v := ClassOf(f.chClass), VersionHex(f.version);
    LastOf(v, c);
    LastOf(f.alpn, Glue(v, c));
    LastOf(f.serverName, Glue(f.alpn, Glue(v, c)));
    LastOf(f.dest, Glue(f.serverName, Glue(f.alpn, Glue(v, c))));
    SplitLast("-");
    SplitLast("");
    SoftIsPrefix(AfterLastBar(f.chClass));
    SoftIsPrefix("-");
    if BarFree(f.chClass) { SplitLast(f.chClass); }
  }

  /** Both kinds of key give back server name, ALPN and version. */
  /** Keys of one or two pieces, from before versions were part of them, are for TLS 1.3. */
  lemma ShortKeys(name: string, alpn: string)
    requires BarFree(name) && BarFree(alpn)
    ensures ParseKey(Glue(name, alpn)) == (name, alpn, 0x0304) && ParseKey(name) == (name, "", 0x0304)
  {
    SplitLast(name);
    SplitLast(alpn);
    SplitCons(name, alpn);
  }

  lemma ParseKeyInverts(f: Fields)
    requires BarFree(f.dest) && BarFree(f.serverName) && BarFree(f.alpn)
    ensures ParseKey(KeyV2(f)) == (f.serverName, f.alpn, f.version)
    ensures ParseKey(LegacyKey(f.serverName, f.alpn, f.version)) == (f.serverName, f.alpn, f.version)
    ensures ParseV2(LegacyKey(f.serverName, f.alpn, f.version)) == None
  {
    SplitV2(f);
    VersionRoundTrip(f.version);
    SplitLast(VersionHex(f.version));
    SplitCons(f.alpn, VersionHex(f.version));
    SplitCons(f.serverName, Glue(f.alpn, VersionHex(f.version)));
  }
}
