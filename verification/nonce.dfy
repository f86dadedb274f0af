/** Nonces: sequence numbers, the XOR mask of TLS 1.3 and the message counter of HPKE. */
module Nonce {
  import opened Wire

  // ---------------------------------------------------------------- XOR on bytes

  function Pow2(n: nat): nat { if n == 0 then 1 else 2 * Pow2(n - 1) }

  /** Exclusive or of the n lowest bits. */
  function XorBits(n: nat, a: nat, b: nat): (r: nat)
    ensures r < Pow2(n)
  {
    if n == 0 then 0 else 2 * XorBits(n - 1, a / 2, b / 2) + if a % 2 != b % 2 then 1 else 0
  }

  lemma {:induction false} XorBitsTwice(n: nat, a: nat, b: nat)
    requires a < Pow2(n)
    ensures XorBits(n, XorBits(n, a, b), b) == a
  {
    if n > 0 { XorBitsTwice(n - 1, a / 2, b / 2); }
  }

  lemma {:induction false} XorBitsSym(n: nat, a: nat, b: nat)
    ensures XorBits(n, a, b) == XorBits(n, b, a)
  {
    if n > 0 { XorBitsSym(n - 1, a / 2, b / 2); }
  }

  function Xor(a: byte, b: byte): byte {
    assert Pow2(8) == 256;
    XorBits(8, a, b)
  }

  lemma XorTwice(a: byte, b: byte)
    ensures Xor(Xor(a, b), b) == a
  {
    assert Pow2(8) == 256;
    XorBitsTwice(8, a, b);
  }

  lemma XorInjective(a: byte, b: byte, b': byte)
    requires Xor(a, b) == Xor(a, b')
    ensures b == b'
  {
    XorTwice(b, a);
    XorTwice(b', a);
    XorSym(a, b);
    XorSym(a, b');
  }

  lemma XorSym(a: byte, b: byte)
    ensures Xor(a, b) == Xor(b, a)
  {
    XorBitsSym(8, a, b);
  }

  /** `s` XORed into `mask` from position `off` on. */
  function Masked(mask: bytes, s: bytes, off: nat): (r: bytes)
    requires off + |s| <= |mask|
    ensures |r| == |mask|
  {
    seq(|mask|, i requires 0 <= i < |mask| => if off <= i < off + |s| then Xor(mask[i], s[i - off]) else mask[i])
  }

  lemma MaskedInjective(mask: bytes, s: bytes, s': bytes, off: nat)
    requires off + |s| <= |mask| && |s| == |s'| && Masked(mask, s, off) == Masked(mask, s', off)
    ensures s == s'
  {
    forall i | 0 <= i < |s| ensures s[i] == s'[i] {
      assert Masked(mask, s, off)[off + i] == Masked(mask, s', off)[off + i];
      XorInjective(mask[off + i], s[i], s'[i]);
    }
  }

  // ---------------------------------------------------------------- sequence numbers

  /** The next number of the same width; all ones turn into all zeros. */
  function Inc(s: bytes): (r: bytes)
    ensures |r| == |s|
  {
    if s == [] then []
    else if s[|s| - 1] == 255 then Inc(s[..|s| - 1]) + [0]
    else s[..|s| - 1] + [s[|s| - 1] + 1]
  }

  lemma {:induction false} IncIs(s: bytes)
    ensures Get(Inc(s)) == if Get(s) + 1 == Limit(|s|) then 0 else Get(s) + 1
  {
    if s != [] {
      var k := |s| - 1;
      IncIs(s[..k]);
      assert Inc(s)[..k] == if s[k] == 255 then Inc(s[..k]) else s[..k];
    }
  }

  ghost predicate OnesFrom(s: bytes, i: nat) { forall j :: i <= j < |s| ==> s[j] == 255 }

  /** The carry runs through the trailing ones and stops at i. */
  lemma {:induction false} IncAt(s: bytes, i: nat)
    requires i < |s| && s[i] != 255 && OnesFrom(s, i + 1)
    ensures Inc(s) == s[..i] + [s[i] + 1] + Zeros(|s| - i - 1)
    ensures Get(s) + 1 < Limit(|s|)
  {
    if i < |s| - 1 {
      var k := |s| - 1;
      IncAt(s[..k], i);
      assert s[..k][..i] == s[..i];
      assert Zeros(k - i - 1) + [0] == Zeros(k - i);
    }
  }

  lemma {:induction false} IncOnes(s: bytes)
    requires OnesFrom(s, 0)
    ensures Inc(s) == Zeros(|s|) && Get(s) + 1 == Limit(|s|)
  {
    if s != [] {
      IncOnes(s[..|s| - 1]);
    }
  }

  /** Adds one to a big-endian number in place; false where the code stops because it would wrap. */
  method IncSeq(a: array<byte>) returns (ok: bool)
    modifies a
    ensures a[..] == Inc(old(a[..]))
    ensures ok == (Get(old(a[..])) + 1 < Limit(a.Length))
  {
    ghost var was := a[..];
    var i := a.Length;
    while i > 0
      invariant 0 <= i <= a.Length
      invariant forall j :: 0 <= j < i ==> a[j] == was[j]
      invariant forall j :: i <= j < a.Length ==> a[j] == 0
      invariant OnesFrom(was, i)
    {
      i := i - 1;
      if a[i] != 255 {
        a[i] := a[i] + 1;
        IncAt(was, i);
        return true;
      }
      a[i] := 0;
    }
    IncOnes(was);
    ok := false;
  }
}
