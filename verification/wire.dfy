/**
  Byte strings, big-endian numbers, the length-prefixing builder and the consuming cursor that
  every message codec of this project is written with.
 */
module Wire {

  type byte = x: int | 0 <= x < 0x100
  type bytes = seq<byte>
  type u16 = x: int | 0 <= x < 0x1_0000
  type u32 = x: int | 0 <= x < 0x1_0000_0000
  type u64 = x: int | 0 <= x < 0x1_0000_0000_0000_0000

  datatype Option<+T> = None | Some(value: T)
  {
    predicate IsFailure() { None? }

    function PropagateFailure<U>(): Option<U>
      requires None?
    {
      None
    }

    function Extract(): T
      requires Some?
    {
      value
    }
  }

  function Zeros(k: nat): (r: bytes)
    ensures |r| == k
  {
    seq(k, _ => 0)
  }

  // ---------------------------------------------------------------- numbers

  const TWO64: nat := 0x1_0000_0000_0000_0000

  /** 256^n: the number of values an n-byte field can hold. */
  function Limit(n: nat): (r: nat)
    ensures r > 0
  {
    if n == 0 then 1 else 256 * Limit(n - 1)
  }

  lemma Limits()
    ensures Limit(1) == 0x100
    ensures Limit(2) == 0x1_0000
    ensures Limit(3) == 0x100_0000
    ensures Limit(4) == 0x1_0000_0000
    ensures Limit(8) == 0x1_0000_0000_0000_0000
  {
    assert Limit(5) == 0x100_0000_0000;
  }

  /** Big-endian encoding of x in n bytes; higher bits of x are cut off. */
  function Put(n: nat, x: nat): (r: bytes)
    ensures |r| == n
  {
    if n == 0 then [] else Put(n - 1, x / 256) + [x % 256]
  }

  /** The number a big-endian byte string stands for. */
  function Get(s: bytes): (r: nat)
    ensures r < Limit(|s|)
  {
    if s == [] then 0 else Get(s[..|s| - 1]) * 256 + s[|s| - 1]
  }

  lemma {:induction false} GetPut(n: nat, x: nat)
    requires x < Limit(n)
    ensures Get(Put(n, x)) == x
  {
    if n > 0 {
      GetPut(n - 1, x / 256);
      assert Put(n, x)[..n - 1] == Put(n - 1, x / 256);
    }
  }

  lemma {:induction false} PutGet(s: bytes)
    ensures Put(|s|, Get(s)) == s
  {
    if s != [] {
      PutGet(s[..|s| - 1]);
      assert s == s[..|s| - 1] + [s[|s| - 1]];
    }
  }

  // ---------------------------------------------------------------- builder

  /** The growing output; `err` is set for good once some content overflows its length prefix. */
  datatype Builder = Builder(result: bytes, err: bool)
  {
    function Add(b: bytes): Builder {
      Builder(result + b, err)
    }

    /** Append `child` behind its own length, written in n bytes. */
    function AddLP(n: nat, child: Builder): Builder {
      Builder(result + Put(n, |child.result|) + child.result,
              err || child.err || |child.result| >= Limit(n))
    }

    /** What the builder's owner gets at the end. */
    function Bytes(): Option<bytes> {
      if err then None else Some(result)
    }
  }

  const EMPTY := Builder([], false)

  function Of(b: bytes): Builder { Builder(b, false) }

  function LP(n: nat, child: Builder): Builder { EMPTY.AddLP(n, child) }

  // ---------------------------------------------------------------- cursor

  function ReadU8(s: bytes): Option<(byte, bytes)> {
    if |s| < 1 then None else Some((s[0], s[1..]))
  }

  function ReadU16(s: bytes): Option<(u16, bytes)> {
    if |s| < 2 then None else Limits(); Some((Get(s[..2]), s[2..]))
  }

  function ReadU32(s: bytes): Option<(u32, bytes)> {
    if |s| < 4 then None else Limits(); Some((Get(s[..4]), s[4..]))
  }

  function ReadU64(s: bytes): Option<(u64, bytes)> {
    if |s| < 8 then None else Limits(); Some((Get(s[..8]), s[8..]))
  }

  /** Take an n-byte length and then that many bytes. */
  function ReadLP(n: nat, s: bytes): (r: Option<(bytes, bytes)>)
    ensures r.Some? ==> |r.value.0| + |r.value.1| + n == |s|
  {
    if |s| < n || |s| - n < Get(s[..n]) then None
    else Some((s[n..n + Get(s[..n])], s[n + Get(s[..n])..]))
  }

  lemma ReadsPut(n: nat, x: nat, rest: bytes)
    requires x < Limit(n)
    ensures (Put(n, x) + rest)[..n] == Put(n, x)
    ensures (Put(n, x) + rest)[n..] == rest
    ensures Get((Put(n, x) + rest)[..n]) == x
  {
    GetPut(n, x);
  }

  lemma ReadU16Put(x: u16, rest: bytes)
    ensures ReadU16(Put(2, x) + rest) == Some((x, rest))
  {
    Limits();
    ReadsPut(2, x, rest);
  }

  lemma ReadU32Put(x: u32, rest: bytes)
    ensures ReadU32(Put(4, x) + rest) == Some((x, rest))
  {
    Limits();
    ReadsPut(4, x, rest);
  }

  lemma ReadU64Put(x: u64, rest: bytes)
    ensures ReadU64(Put(8, x) + rest) == Some((x, rest))
  {
    Limits();
    ReadsPut(8, x, rest);
  }

  /** A length-prefixed string that did not overflow reads back, whatever follows it. */
  lemma ReadLPPut(n: nat, b: bytes, rest: bytes)
    requires |b| < Limit(n)
    ensures ReadLP(n, Put(n, |b|) + b + rest) == Some((b, rest))
    ensures ReadLP(n, Put(n, |b|) + (b + rest)) == Some((b, rest))
  {
    var s := Put(n, |b|) + (b + rest);
    assert s == Put(n, |b|) + b + rest;
    ReadsPut(n, |b|, b + rest);
    assert s[n..n + |b|] == b;
    assert s[n + |b|..] == rest;
  }

  // ---------------------------------------------------------------- lists

  /** One item at a time, as the marshalling loops write them. */
  function EncList<T>(enc: T -> bytes, xs: seq<T>): bytes {
    if xs == [] then [] else enc(xs[0]) + EncList(enc, xs[1..])
  }

  /** One item at a time until the input is used up, as the parsing loops read them. */
  function DecList<T>(dec: bytes -> Option<(T, bytes)>, s: bytes): Option<seq<T>>
    decreases |s|
  {
    if s == [] then Some([]) else
    match dec(s)
    case None => None
    case Some((x, rest)) =>
      if |rest| >= |s| then None else
      match DecList(dec, rest)
      case None => None
      case Some(xs) => Some([x] + xs)
  }

  /**
    If the parts of x fit their length prefixes, `dec` undoes `enc` on x when x satisfies `ok` and
    refuses it otherwise.
   */
  ghost predicate ItemOk<T>(enc: T -> bytes, dec: bytes -> Option<(T, bytes)>, fits: T -> bool, ok: T -> bool, x: T,
      rest: bytes) {
    fits(x) ==> |enc(x)| > 0 && dec(enc(x) + rest) == (if ok(x) then Some((x, rest)) else None)
  }

  ghost predicate ItemCodec<T(!new)>(enc: T -> bytes, dec: bytes -> Option<(T, bytes)>, fits: T -> bool,
      ok: T -> bool) {
    forall x: T, rest: bytes :: ItemOk(enc, dec, fits, ok, x, rest)
  }

  predicate All<T>(ok: T -> bool, xs: seq<T>) {
    forall i :: 0 <= i < |xs| ==> ok(xs[i])
  }

  /** Decoding an encoded list succeeds exactly when every item is acceptable, and gives the list back. */
  lemma {:induction false} ListRoundTrip<T(!new)>(enc: T -> bytes, dec: bytes -> Option<(T, bytes)>,
                                                  fits: T -> bool, ok: T -> bool, xs: seq<T>)
    requires ItemCodec(enc, dec, fits, ok) && All(fits, xs)
    ensures DecList(dec, EncList(enc, xs)) == if All(ok, xs) then Some(xs) else None
  {
    if xs != [] {
      var rest := EncList(enc, xs[1..]);
      assert EncList(enc, xs) == enc(xs[0]) + rest;
      assert ItemOk(enc, dec, fits, ok, xs[0], rest);
      if ok(xs[0]) {
        ListRoundTrip(enc, dec, fits, ok, xs[1..]);
        assert xs == [xs[0]] + xs[1..];
        assert All(ok, xs) <==> All(ok, xs[1..]);
      } else {
        assert !All(ok, xs);
      }
    }
  }

  lemma {:induction false} EncListAppend<T>(enc: T -> bytes, xs: seq<T>, ys: seq<T>)
    ensures EncList(enc, xs + ys) == EncList(enc, xs) + EncList(enc, ys)
  {
    if xs == [] {
      assert xs + ys == ys;
    } else {
      EncListAppend(enc, xs[1..], ys);
      assert (xs + ys)[1..] == xs[1..] + ys;
    }
  }

  /** The parsing loop shared by every list field: read items until the cursor is empty. */
  method ReadAll<T>(dec: bytes -> Option<(T, bytes)>, s: bytes) returns (r: Option<seq<T>>)
    ensures r == DecList(dec, s)
  {
    var rest, xs: seq<T> := s, [];
    assert DecList(dec, s).Some? ==> xs + DecList(dec, s).value == DecList(dec, s).value;
    while rest != []
      invariant DecList(dec, s) == match DecList(dec, rest) case None => None case Some(ys) => Some(xs + ys)
      decreases |rest|
    {
      var item := dec(rest);
      if item.None? || |item.value.1| >= |rest| {
        return None;
      }
      rest := item.value.1;
      ghost var tail := DecList(dec, rest);
      assert tail.Some? ==> xs + ([item.value.0] + tail.value) == (xs + [item.value.0]) + tail.value;
      xs := xs + [item.value.0];
    }
    assert xs + [] == xs;
    return Some(xs);
  }

  // ---------------------------------------------------------------- item codecs

  predicate AnyU16(x: u16) { true }

  function EncU16(x: u16): bytes { Put(2, x) }

  function DecU16(s: bytes): Option<(u16, bytes)> { ReadU16(s) }

  lemma U16Codec()
    ensures ItemCodec(EncU16, DecU16, AnyU16, AnyU16)
  {
    forall x: u16, rest: bytes ensures ItemOk(EncU16, DecU16, AnyU16, AnyU16, x, rest) {
      ReadU16Put(x, rest);
    }
  }

  lemma {:induction false} U16ListLength(xs: seq<u16>)
    ensures |EncList(EncU16, xs)| == 2 * |xs|
  {
    if xs != [] { U16ListLength(xs[1..]); }
  }
}
