/** The sealing side of TLS 1.3 records and of HPKE: which nonce every message is sealed under. */
module Aead {
  import opened Wire
  import opened Nonce

  const OVERHEAD := 16

  /** An authenticated cipher under a fixed key: nonce, text, additional data. */
  datatype Cipher = Cipher(seal: (bytes, bytes, bytes) -> bytes, open: (bytes, bytes, bytes) -> Option<bytes>)
  {
    /** What the record layer relies on: a tag of 16 bytes, and what was sealed opens. */
    ghost predicate Correct() {
      forall n: bytes, p: bytes, a: bytes {:trigger seal(n, p, a)} ::
        |seal(n, p, a)| == |p| + OVERHEAD && open(n, seal(n, p, a), a) == Some(p)
    }
  }

  // ---------------------------------------------------------------- TLS 1.3

  const MASK_LEN := 12
  const SEQ_LEN := 8

  lemma MaskedTwice(mask: bytes, s: bytes, off: nat)
    requires off + |s| <= |mask|
    ensures Masked(Masked(mask, s, off), s, off) == mask
  {
    forall i | 0 <= i < |mask| ensures Masked(Masked(mask, s, off), s, off)[i] == mask[i] {
      if off <= i < off + |s| { XorTwice(mask[i], s[i - off]); }
    }
  }

  /** The nonce of record number n. */
  function RecordNonce(mask: bytes, n: nat): bytes
    requires |mask| == MASK_LEN
  {
    Masked(mask, Put(SEQ_LEN, n), 4)
  }

  /** Two records under one key never share a nonce. */
  lemma RecordNoncesDiffer(mask: bytes, n: nat, n': nat)
    requires |mask| == MASK_LEN && n < Limit(SEQ_LEN) && n' < Limit(SEQ_LEN) && n != n'
    ensures RecordNonce(mask, n) != RecordNonce(mask, n')
  {
    GetPut(SEQ_LEN, n);
    GetPut(SEQ_LEN, n');
    if RecordNonce(mask, n) == RecordNonce(mask, n') {
      MaskedInjective(mask, Put(SEQ_LEN, n), Put(SEQ_LEN, n'), 4);
    }
  }

  /** A cipher whose nonce is a fixed mask with the sequence number XORed in, in place and for the call only. */
  class XorNonceAead {
    const cipher: Cipher
    const nonceMask: array<byte>

    constructor (cipher: Cipher, mask: bytes)
      requires |mask| == MASK_LEN
      ensures this.cipher == cipher && fresh(nonceMask) && nonceMask.Length == MASK_LEN && nonceMask[..] == mask
    {
      this.cipher := cipher;
      nonceMask := new byte[MASK_LEN](i requires 0 <= i < MASK_LEN => mask[i]);
    }

    method XorIn(nonce: bytes)
      requires nonceMask.Length == MASK_LEN && |nonce| == SEQ_LEN
      modifies nonceMask
      ensures nonceMask[..] == Masked(old(nonceMask[..]), nonce, 4)
    {
      for i := 0 to |nonce|
        invariant forall j :: 0 <= j < MASK_LEN ==>
          nonceMask[j] == if 4 <= j < 4 + i then Xor(old(nonceMask[j]), nonce[j - 4]) else old(nonceMask[j])
      {
        nonceMask[4 + i] := Xor(nonceMask[4 + i], nonce[i]);
      }
    }

    method Seal(nonce: bytes, plaintext: bytes, additional: bytes) returns (r: bytes)
      requires nonceMask.Length == MASK_LEN && |nonce| == SEQ_LEN
      modifies nonceMask
      ensures nonceMask[..] == old(nonceMask[..])
      ensures r == cipher.seal(Masked(nonceMask[..], nonce, 4), plaintext, additional)
    {
      ghost var mask := nonceMask[..];
      XorIn(nonce);
      r := cipher.seal(nonceMask[..], plaintext, additional);
      XorIn(nonce);
      MaskedTwice(mask, nonce, 4);
    }

    method Open(nonce: bytes, ciphertext: bytes, additional: bytes) returns (r: Option<bytes>)
      requires nonceMask.Length == MASK_LEN && |nonce| == SEQ_LEN
      modifies nonceMask
      ensures nonceMask[..] == old(nonceMask[..])
      ensures r == cipher.open(Masked(nonceMask[..], nonce, 4), ciphertext, additional)
    {
      ghost var mask := nonceMask[..];
      XorIn(nonce);
      r := cipher.open(nonceMask[..], ciphertext, additional);
      XorIn(nonce);
      MaskedTwice(mask, nonce, 4);
    }
  }

  // ---------------------------------------------------------------- HPKE

  /** A 128-bit counter in two halves. */
  datatype Uint128 = Uint128(hi: u64, lo: u64)
  {
    function Value(): nat { hi * TWO64 + lo }

    function AddOne(): Uint128 {
      if lo + 1 == TWO64 then Uint128((hi + 1) % TWO64, 0) else Uint128(hi, lo + 1)
    }

    /** The code adds up the lengths of the halves, even when the high half is in use. */
    function BitLen(): nat { Len(hi) + Len(lo) }

    function Bytes(): bytes { Put(8, hi) + Put(8, lo) }
  }

  /** Number of bits of x. */
  function Len(x: nat): nat { if x == 0 then 0 else 1 + Len(x / 2) }

  lemma {:induction false} LenAbove(x: nat, k: nat)
    ensures Len(x) > k <==> x >= Pow2(k)
  {
    if k > 0 { LenAbove(x / 2, k - 1); }
  }

  lemma Powers()
    ensures Pow2(30) == 0x4000_0000
    ensures Pow2(31) == 0x8000_0000
    ensures Pow2(63) == 0x8000_0000_0000_0000
    ensures Pow2(64) == TWO64
  {
    assert Pow2(8) == 0x100;
    assert Pow2(16) == 0x1_0000;
    assert Pow2(24) == 0x100_0000;
    assert Pow2(32) == 0x1_0000_0000;
    assert Pow2(40) == 0x100_0000_0000;
    assert Pow2(48) == 0x1_0000_0000_0000;
    assert Pow2(56) == 0x100_0000_0000_0000;
  }

  /** Where the guard stops the counter: 2^94 + 2^63. */
  const MESSAGE_LIMIT: nat := 0x4000_0000 * TWO64 + 0x8000_0000_0000_0000

  /** The guard of the counter: 95 is one less than the bits of a 12-byte nonce. */
  predicate Exhausted(u: Uint128) { u.BitLen() >= 95 }

  /** Counting up from zero, the guard fires at 2^94 + 2^63 and not before. */
  lemma GuardFiresAt(u: Uint128)
    requires u.Value() <= MESSAGE_LIMIT
    ensures Exhausted(u) <==> u.Value() == MESSAGE_LIMIT
  {
    Powers();
    LenAbove(u.hi, 30);
    LenAbove(u.hi, 31);
    LenAbove(u.lo, 63);
    LenAbove(u.lo, 64);
  }

  lemma AddOneCounts(u: Uint128)
    requires u.Value() <= MESSAGE_LIMIT
    ensures u.AddOne().Value() == u.Value() + 1
  {
  }

  /** The nonce of message u. */
  function MessageNonce(base: bytes, u: Uint128): bytes
    requires |base| == MASK_LEN
  {
    Masked(u.Bytes()[16 - MASK_LEN..], base, 0)
  }

  lemma {:induction false} PutDrop(n: nat, k: nat, x: nat)
    ensures Put(n + k, x)[k..] == Put(n, x)
  {
    if n > 0 { PutDrop(n - 1, k, x / 256); }
  }

  lemma SameMask(base: bytes, u: Uint128, u': Uint128)
    requires |base| == MASK_LEN && MessageNonce(base, u) == MessageNonce(base, u')
    ensures u.Bytes()[4..] == u'.Bytes()[4..]
  {
    var s, s' := u.Bytes()[4..], u'.Bytes()[4..];
    forall i | 0 <= i < MASK_LEN ensures s[i] == s'[i] {
      assert MessageNonce(base, u)[i] == MessageNonce(base, u')[i];
      XorSym(s[i], base[i]);
      XorSym(s'[i], base[i]);
      XorInjective(base[i], s[i], s'[i]);
    }
  }

  /** The twelve bytes a counter within the limit is told by. */
  lemma LowBytes(u: Uint128)
    requires u.Value() <= MESSAGE_LIMIT
    ensures var s := u.Bytes()[4..]; Get(s[..4]) == u.hi && Get(s[4..]) == u.lo
  {
    Limits();
    GetPut(4, u.hi);
    GetPut(8, u.lo);
    PutDrop(4, 4, u.hi);
    var s := u.Bytes()[4..];
    assert s[..4] == Put(4, u.hi) && s[4..] == Put(8, u.lo);
  }

  /** A nonce determines its message within the limit. */
  lemma NonceTellsMessage(base: bytes, u: Uint128, u': Uint128)
    requires |base| == MASK_LEN && u.Value() <= MESSAGE_LIMIT && u'.Value() <= MESSAGE_LIMIT
    requires MessageNonce(base, u) == MessageNonce(base, u')
    ensures u == u'
  {
    SameMask(base, u, u');
    LowBytes(u);
    LowBytes(u');
  }

  /** Two messages within the limit never share a nonce. */
  lemma MessageNoncesDiffer(base: bytes, u: Uint128, u': Uint128)
    requires |base| == MASK_LEN && u.Value() <= MESSAGE_LIMIT && u'.Value() <= MESSAGE_LIMIT && u != u'
    ensures MessageNonce(base, u) != MessageNonce(base, u')
  {
    if MessageNonce(base, u) == MessageNonce(base, u') { NonceTellsMessage(base, u, u'); }
  }

  /** The counter of message number i: it stays where the guard stops it. */
  function Stopped(i: nat): nat { if i < MESSAGE_LIMIT then i else MESSAGE_LIMIT }

  lemma ValueTells(u: Uint128, u': Uint128)
    requires u.Value() == u'.Value()
    ensures u == u'
  {
  }

  /** One side of an HPKE context. */
  class Context {
    const cipher: Cipher
    const baseNonce: bytes
    var seqNum: Uint128
    ghost var used: seq<Uint128>   // the counters the cipher was called with, also where the guard then fired

    /** Every message had its own counter, counted from zero, up to where the guard stops it. */
    ghost predicate Valid()
      reads this
    {
      && |baseNonce| == MASK_LEN && seqNum.Value() == Stopped(|used|)
      && forall i :: 0 <= i < |used| ==> used[i].Value() == Stopped(i)
    }

    constructor (cipher: Cipher, baseNonce: bytes)
      requires |baseNonce| == MASK_LEN
      ensures Valid() && seqNum == Uint128(0, 0) && this.cipher == cipher && this.baseNonce == baseNonce && used == []
    {
      this.cipher, this.baseNonce := cipher, baseNonce;
      seqNum, used := Uint128(0, 0), [];
    }

    /** After a message went through the cipher: the guard, then one more. */
    method IncrementNonce() returns (ok: bool)
      requires Valid()
      modifies this
      ensures Valid() && used == old(used) + [old(seqNum)]
      ensures ok <==> old(seqNum).Value() < MESSAGE_LIMIT
      ensures seqNum.Value() == old(seqNum).Value() + (if ok then 1 else 0)
    {
      GuardFiresAt(seqNum);
      used := used + [seqNum];
      if Exhausted(seqNum) { return false; }
      AddOneCounts(seqNum);
      seqNum := seqNum.AddOne();
      return true;
    }

    /**
      Seals one message under the next nonce; None where the counter has reached its limit and the
      code panics. The cipher has then been called, and the counter has not moved.
     */
    method Seal(aad: bytes, plaintext: bytes) returns (r: Option<bytes>)
      requires Valid()
      modifies this
      ensures Valid() && used == old(used) + [old(seqNum)]
      ensures r.None? <==> old(seqNum).Value() == MESSAGE_LIMIT
      ensures r.Some? ==> r.value == cipher.seal(MessageNonce(baseNonce, old(seqNum)), plaintext, aad)
      ensures seqNum.Value() == old(seqNum).Value() + (if r.Some? then 1 else 0)
    {
      var c := cipher.seal(MessageNonce(baseNonce, seqNum), plaintext, aad);
      var ok := IncrementNonce();
      r := if ok then Some(c) else None;
    }

    /** Opens one message; a message that does not open leaves the counter where it is. */
    method Open(aad: bytes, ciphertext: bytes) returns (r: Option<bytes>, panicked: bool)
      requires Valid()
      modifies this
      ensures Valid()
      ensures var p := cipher.open(MessageNonce(baseNonce, old(seqNum)), ciphertext, aad);
        && panicked == (p.Some? && old(seqNum).Value() == MESSAGE_LIMIT)
        && r == (if panicked then None else p)
        && seqNum.Value() == old(seqNum).Value() + (if r.Some? then 1 else 0)
        && used == if p.Some? then old(used) + [old(seqNum)] else old(used)
    {
      var p := cipher.open(MessageNonce(baseNonce, seqNum), ciphertext, aad);
      if p.None? { return None, false; }
      var ok := IncrementNonce();
      return if ok then p else None, !ok;
    }
  }

  /**
    In every run of a context, two messages were sealed under different nonces if and only if the
    first of them came before the limit: a caller that goes on after the guard has fired seals under
    the same nonce again and again.
   */
  lemma UsedNoncesDiffer(ctx: Context, i: nat, j: nat)
    requires ctx.Valid() && i < j < |ctx.used|
    ensures MessageNonce(ctx.baseNonce, ctx.used[i]) != MessageNonce(ctx.baseNonce, ctx.used[j]) <==> i < MESSAGE_LIMIT
  {
    if i < MESSAGE_LIMIT {
      MessageNoncesDiffer(ctx.baseNonce, ctx.used[i], ctx.used[j]);
    } else {
      ValueTells(ctx.used[i], ctx.used[j]);
    }
  }
}
