/** CBC padding: what encryption appends, and the branch-free check that takes it off again. */
module CbcPadding {

  /**
    byte(int32(^uint(t)) >> 31): all ones unless bit 31 of t, taken modulo 2^64, is set.
    `t` is the mathematical difference the code computes in unsigned arithmetic.
   */
  function SignMask(t: int): bv8 {
    var low := t % 0x1_0000_0000;
    if 0xffff_ffff - low >= 0x8000_0000 then 0xff else 0
  }

  lemma SignMaskIs(t: int)
    requires -256 < t < 0x8000_0000
    ensures SignMask(t) == if t >= 0 then 0xff else 0
  {
  }

  /** The rule of section 6.2.3.2 of RFC 2246: the last byte p is preceded by p more bytes equal to it. */
  predicate Padded(payload: seq<bv8>) {
    && payload != []
    && var p := payload[|payload| - 1];
       p as int < |payload| && forall j :: |payload| - 1 - p as int <= j < |payload| ==> payload[j] == p
  }

  /** Sets every bit of the result exactly when every bit of g is set. */
  function Spread(g: bv8): bv8 {
    var g1 := g & (g << 4);
    var g2 := g1 & (g1 << 2);
    var g3 := g2 & (g2 << 1);
    if g3 & 0x80 != 0 then 0xff else 0   // int8(g) >> 7
  }

  lemma SpreadIs(g: bv8)
    ensures Spread(g) == if g == 0xff then 0xff else 0
  {
  }

  lemma ClearStep(good: bv8, mask: bv8, p: bv8, b: bv8)
    requires mask == 0xff || mask == 0
    ensures good & !((mask & p) ^ (mask & b)) == 0xff <==> good == 0xff && (mask == 0 || p == b)
  {
  }

  /** The padding check: no branch depends on the payload's bytes. */
  method ExtractPadding(payload: seq<bv8>) returns (toRemove: int, good: bv8)
    ensures payload == [] ==> toRemove == 0 && good == 0
    ensures 0 < |payload| <= 0x8000_0000 ==> good == if Padded(payload) then 0xff else 0
    ensures 0 < |payload| <= 0x8000_0000 ==>
      toRemove == if Padded(payload) then payload[|payload| - 1] as int + 1 else 1
  {
    if payload == [] { return 0, 0; }
    var n := |payload|;
    var paddingLen := payload[n - 1];
    var p := paddingLen as int;
    good := SignMask(n - 1 - p);
    if n <= 0x8000_0000 { SignMaskIs(n - 1 - p); }
    good := CompareTail(payload, p, good);
    PaddedIs(payload, p);
    SpreadIs(good);
    good := Spread(good);
    AndMask(paddingLen, good);
    paddingLen := paddingLen & good;
    toRemove := paddingLen as int + 1;
  }

  /** The loop: clears bits of `start` where one of the last bytes differs from the last. */
  method CompareTail(payload: seq<bv8>, p: int, start: bv8) returns (good: bv8)
    requires payload != [] && p == payload[|payload| - 1] as int
    ensures good == 0xff <==> start == 0xff && TailEquals(payload, if 256 > |payload| then |payload| else 256, p)
  {
    var n, paddingLen := |payload|, payload[|payload| - 1];
    var toCheck := if 256 > n then n else 256;
    good := start;
    for i := 0 to toCheck
      invariant good == 0xff <==> start == 0xff && TailEquals(payload, i, p)
    {
      var mask := SignMask(p - i);
      SignMaskIs(p - i);
      var b := payload[n - 1 - i];
      ClearStep(good, mask, paddingLen, b);
      TailStep(payload, i, p);
      good := good & !((mask & paddingLen) ^ (mask & b));
    }
  }

  lemma PaddedIs(payload: seq<bv8>, p: int)
    requires payload != [] && p == payload[|payload| - 1] as int
    ensures Padded(payload) <==> p < |payload| && TailEquals(payload, if 256 > |payload| then |payload| else 256, p)
  {
  }

  /** The last i bytes, as far as the padding would reach, equal the last one. */
  ghost predicate TailEquals(payload: seq<bv8>, i: nat, p: int)
    requires 0 < |payload| && i <= |payload|
  {
    forall k :: |payload| - i <= k < |payload| && |payload| - 1 - p <= k ==> payload[k] == payload[|payload| - 1]
  }

  lemma TailStep(payload: seq<bv8>, i: nat, p: int)
    requires 0 < |payload| && i < |payload|
    ensures TailEquals(payload, i + 1, p) <==>
            TailEquals(payload, i, p) && (i > p || payload[|payload| - 1 - i] == payload[|payload| - 1])
  {
  }

  lemma AndMask(x: bv8, mask: bv8)
    ensures mask == 0xff ==> x & mask == x
    ensures mask == 0 ==> x & mask == 0
  {
  }

  /** What CBC encryption encrypts: the data filled up to whole blocks, at least one byte of padding. */
  function Pad(plain: seq<bv8>, blockSize: nat): seq<bv8>
    requires 0 < blockSize <= 256
  {
    var k := blockSize - |plain| % blockSize;
    plain + seq(k, _ => (k - 1) as bv8)
  }

  /** The fill loop of encryption. */
  method PadBlocks(plain: seq<bv8>, blockSize: nat) returns (dst: array<bv8>)
    requires 0 < blockSize <= 256
    ensures fresh(dst) && dst[..] == Pad(plain, blockSize)
  {
    var paddingLen := blockSize - |plain| % blockSize;
    dst := new bv8[|plain| + paddingLen](
      i requires 0 <= i < |plain| + paddingLen => if i < |plain| then plain[i] else 0);
    for i := |plain| to dst.Length
      invariant forall j :: 0 <= j < |plain| ==> dst[j] == plain[j]
      invariant forall j :: |plain| <= j < i ==> dst[j] == (paddingLen - 1) as bv8
    {
      dst[i] := (paddingLen - 1) as bv8;
    }
  }

  /** The padding fills whole blocks and satisfies the rule, and taking off what the check says leaves the data. */
  lemma PadThenExtract(plain: seq<bv8>, blockSize: nat)
    requires 0 < blockSize <= 256
    ensures var dst := Pad(plain, blockSize);
      && |dst| % blockSize == 0 && Padded(dst)
      && dst[..|dst| - (dst[|dst| - 1] as int + 1)] == plain
  {
    var k := blockSize - |plain| % blockSize;
    WholeBlocks(|plain|, blockSize);
    PadTail(plain, k);
  }

  lemma PadTail(plain: seq<bv8>, k: nat)
    requires 0 < k <= 256
    ensures var dst := plain + seq(k, _ => (k - 1) as bv8);
      Padded(dst) && dst[|dst| - 1] as int + 1 == k && dst[..|dst| - k] == plain
  {
    var last := (k - 1) as bv8;
    var dst := plain + seq(k, _ => last);
    assert last as int == k - 1;
    assert dst[|dst| - 1] == last;
  }

  lemma WholeBlocks(n: nat, b: nat)
    requires b > 0
    ensures (n + (b - n % b)) % b == 0
  {
    var q := n / b;
    assert n == b * q + n % b;
    assert n + (b - n % b) == b * (q + 1);
    ModUnique(b, q + 1, n + (b - n % b));
  }

  lemma ModUnique(b: nat, q: nat, x: nat)
    requires b > 0 && x == b * q
    ensures x % b == 0
  {
    var q2, r2 := x / b, x % b;
    assert x == b * q2 + r2;
    assert b * (q - q2) == r2;
    Multiples(b, q - q2);
  }

  lemma Multiples(b: int, k: int)
    requires b >= 0
    ensures k >= 1 ==> b * k >= b
    ensures k <= -1 ==> b * k <= -b
    ensures k == 0 ==> b * k == 0
  {
    if k >= 1 {
      AtLeastOnce(b, k);
    } else if k <= -1 {
      var m: nat := -k;
      AtLeastOnce(b, m);
      assert b * k + b * m == b * (k + m) == 0;
    }
  }

  lemma AtLeastOnce(b: nat, k: nat)
    ensures if k == 0 then b * k == 0 else b * k >= b
  {
    if k > 0 {
      assert b * k == b + b * (k - 1);
      AtLeastOnce(b, k - 1);
    }
  }
}
