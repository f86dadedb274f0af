/** The PSK binders close the ClientHello, so they can be filled in last (section 4.2.11.2 of RFC 8446). */
module PskBinders {
  import opened Wire
  import opened Extensions
  import opened ClientHello
  import opened ClientHelloRoundTrip

  /** Length of the encoded binder list. */
  function BindersLen(binders: seq<bytes>): nat {
    if binders == [] then 2 else BindersLen(binders[..|binders| - 1]) + 1 + |binders[|binders| - 1]|
  }

  /** The message up to, not including, the binder list: the bytes the binders are computed over. */
  function WithoutBinders(m: Hello): Option<bytes> {
    var full := if m.original.Some? then m.original else MarshalMsg(m, false);
    Cut(full, BindersLen(m.pskBinders))
  }

  /** A message without its last n bytes. */
  function Cut(full: Option<bytes>, n: nat): Option<bytes> {
    if full.None? || |full.value| < n then None else Some(full.value[..|full.value| - n])
  }

  /** New binders are taken over when they have the shape of the old ones. */
  predicate SameShape(old_: seq<bytes>, new_: seq<bytes>) {
    |old_| == |new_| && forall i :: 0 <= i < |old_| ==> |new_[i]| == |old_[i]|
  }

  function EncBinders(binders: seq<bytes>): bytes {
    Put(2, |EncList(EncStr8, binders)|) + EncList(EncStr8, binders)
  }

  lemma {:induction false} BindersLenIs(binders: seq<bytes>)
    ensures BindersLen(binders) == |EncBinders(binders)|
  {
    if binders != [] {
      var k := |binders| - 1;
      BindersLenIs(binders[..k]);
      EncListAppend(EncStr8, binders[..k], [binders[k]]);
      assert binders == binders[..k] + [binders[k]];
      assert EncList(EncStr8, [binders[k]]) == EncStr8(binders[k]) + [];
    }
  }

  lemma {:induction false} SameShapeSameLength(a: seq<bytes>, b: seq<bytes>)
    requires SameShape(a, b)
    ensures |EncList(EncStr8, a)| == |EncList(EncStr8, b)|
    ensures All(Fits8, a) <==> All(Fits8, b)
  {
    if a != [] {
      SameShapeSameLength(a[1..], b[1..]);
      assert forall x: seq<bytes> :: x != [] ==> (All(Fits8, x) <==> Fits8(x[0]) && All(Fits8, x[1..])) by {
        forall x: seq<bytes> | x != [] ensures All(Fits8, x) <==> Fits8(x[0]) && All(Fits8, x[1..]) {
          assert forall i :: 0 < i < |x| ==> x[i] == x[1..][i - 1];
        }
      }
    }
  }

  /** `pre` followed by a length-prefixed string that starts with p, up to k bytes before its end. */
  function Wrap(n: nat, pre: bytes, p: bytes, k: nat): bytes {
    pre + Put(n, |p| + k) + p
  }

  lemma WrapTail(n: nat, pre: bytes, p: bytes, tail: bytes)
    ensures pre + Put(n, |p + tail|) + (p + tail) == Wrap(n, pre, p, |tail|) + tail
  {
  }

  /** The message up to its binder list, which takes k bytes: it depends on the binders through k alone. */
  function Ahead(fixed: bytes, early: bytes, ids: bytes, k: nat): bytes {
    Wrap(3, [TYPE_CLIENT_HELLO], Wrap(2, fixed, early + Wrap(2, Put(2, EXT_PRE_SHARED_KEY), Put(2, |ids|) + ids, k), k),
      k)
  }

  function Before(m: Hello): bytes {
    Ahead(FixedBytes(m, m.sessionId), EncList(EncExt, Early(m)), EncList(EncPsk, m.pskIdentities),
      |EncBinders(m.pskBinders)|)
  }

  /** The extensions ahead of pre_shared_key. */
  function Early(m: Hello): seq<Ext> {
    Present([NameRow(m)] + Tls12Rows(m) + PlainRows(m) + BlockRows(m))
  }

  lemma PskExtLast(m: Hello)
    requires m.pskIdentities != []
    ensures Present(Table(m)) == Early(m) + [Ext(EXT_PRE_SHARED_KEY, PskBody(m.pskIdentities, m.pskBinders))]
  {
    PresentAppend([NameRow(m)] + Tls12Rows(m) + PlainRows(m) + BlockRows(m), [PskRow(m)]);
    PresentOne(PskRow(m));
  }

  lemma PresentOne(row: Row)
    ensures Present([row]) == if row.on then [Ext(row.typ, row.body)] else []
  {
  }

  lemma EncSnoc(es: seq<Ext>, e: Ext)
    ensures EncList(EncExt, es + [e]) == EncList(EncExt, es) + EncExt(e)
  {
    EncListAppend(EncExt, es, [e]);
    assert EncList(EncExt, [e]) == EncExt(e) + [];
  }

  lemma PskBytes(ids: seq<PskIdentity>, binders: seq<bytes>)
    ensures PskBody(ids, binders).result == Put(2, |EncList(EncPsk, ids)|) + EncList(EncPsk, ids) + EncBinders(binders)
  {
  }

  lemma LPBytes(x: bytes)
    ensures LP(2, Of(x)).result == Put(2, |x|) + x
  {
  }

  /** The full message is the bytes the binders are computed over, followed by the encoded binders. */
  lemma BindersComeLast(m: Hello, full: bytes)
    requires m.original.None? && m.pskIdentities != [] && MarshalMsg(m, false) == Some(full)
    ensures WithoutBinders(m) == Some(Before(m))
    ensures full == Before(m) + EncBinders(m.pskBinders)
  {
    PskExtLast(m);
    FullBytes(m, Early(m), full);
    BindersLenIs(m.pskBinders);
  }

  /** The extension with the binders split off its end. */
  function PskAhead(ids: seq<PskIdentity>, k: nat): bytes {
    Wrap(2, Put(2, EXT_PRE_SHARED_KEY), Put(2, |EncList(EncPsk, ids)|) + EncList(EncPsk, ids), k)
  }

  lemma PskExtBytes(ids: seq<PskIdentity>, binders: seq<bytes>)
    ensures EncExt(Ext(EXT_PRE_SHARED_KEY, PskBody(ids, binders)))
      == PskAhead(ids, |EncBinders(binders)|) + EncBinders(binders)
  {
    PskBytes(ids, binders);
    WrapTail(2, Put(2, EXT_PRE_SHARED_KEY), Put(2, |EncList(EncPsk, ids)|) + EncList(EncPsk, ids), EncBinders(binders));
  }

  lemma BlockBytes(es: seq<Ext>, e: Ext, w: bytes, tail: bytes)
    requires EncExt(e) == w + tail
    ensures EncList(EncExt, es + [e]) == EncList(EncExt, es) + w + tail
  {
    EncSnoc(es, e);
    Chain3(EncList(EncExt, es), w, tail);
  }

  lemma Chain3(a: bytes, b: bytes, c: bytes)
    ensures a + (b + c) == a + b + c
  {
  }

  lemma BodyBytes(m: Hello, es: seq<Ext>, p: bytes, tail: bytes)
    requires es != [] && !Body(m, m.sessionId, es).err && EncList(EncExt, es) == p + tail
    ensures Body(m, m.sessionId, es).result == Wrap(2, FixedBytes(m, m.sessionId), p, |tail|) + tail
  {
    BodyShape(m, m.sessionId, es);
    LPBytes(p + tail);
    Chain3(FixedBytes(m, m.sessionId), Put(2, |p + tail|), p + tail);
    WrapTail(2, FixedBytes(m, m.sessionId), p, tail);
  }

  /** A message that ends in pre_shared_key, from the inside out. */
  lemma FullBytes(m: Hello, es: seq<Ext>, full: bytes)
    requires var e := Ext(EXT_PRE_SHARED_KEY, PskBody(m.pskIdentities, m.pskBinders));
      Of([TYPE_CLIENT_HELLO]).AddLP(3, Body(m, m.sessionId, es + [e])).Bytes() == Some(full)
    ensures full == Ahead(FixedBytes(m, m.sessionId), EncList(EncExt, es), EncList(EncPsk, m.pskIdentities),
      |EncBinders(m.pskBinders)|)
                    + EncBinders(m.pskBinders)
  {
    var e := Ext(EXT_PRE_SHARED_KEY, PskBody(m.pskIdentities, m.pskBinders));
    var tail := EncBinders(m.pskBinders);
    var w := PskAhead(m.pskIdentities, |tail|);
    PskExtBytes(m.pskIdentities, m.pskBinders);
    BlockBytes(es, e, w, tail);
    BodyBytes(m, es + [e], EncList(EncExt, es) + w, tail);
    WrapTail(3, [TYPE_CLIENT_HELLO], Wrap(2, FixedBytes(m, m.sessionId), EncList(EncExt, es) + w, |tail|), tail);
  }

  /** Replacing the binders keeps every byte they were computed over, and only the binders differ. */
  lemma UpdateKeepsPrefix(m: Hello, binders: seq<bytes>, full: bytes)
    requires m.original.None? && m.pskIdentities != [] && MarshalMsg(m, false) == Some(full)
    requires SameShape(m.pskBinders, binders)
    ensures var m' := m.(pskBinders := binders);
      && WithoutBinders(m') == WithoutBinders(m)
      && WithoutBinders(m).Some?
      && MarshalMsg(m', false) == Some(WithoutBinders(m).value + EncBinders(binders))
  {
    var m' := m.(pskBinders := binders);
    StillMarshals(m, binders);
    BindersComeLast(m, full);
    BindersComeLast(m', MarshalMsg(m', false).value);
    SameBefore(m, binders);
  }

  lemma SameBefore(m: Hello, binders: seq<bytes>)
    requires SameShape(m.pskBinders, binders)
    ensures Before(m.(pskBinders := binders)) == Before(m)
  {
    SameShapeSameLength(m.pskBinders, binders);
    EarlyIgnoresBinders(m, binders);
  }

  lemma StillMarshals(m: Hello, binders: seq<bytes>)
    requires m.pskIdentities != [] && MarshalMsg(m, false).Some?
    requires SameShape(m.pskBinders, binders)
    ensures MarshalMsg(m.(pskBinders := binders), false).Some?
  {
    var m' := m.(pskBinders := binders);
    SameShapeSameLength(m.pskBinders, binders);
    EarlyIgnoresBinders(m, binders);
    PskExtLast(m);
    PskExtLast(m');
    SameLengths(m, m', Early(m), Ext(EXT_PRE_SHARED_KEY, PskBody(m.pskIdentities, m.pskBinders)),
                Ext(EXT_PRE_SHARED_KEY, PskBody(m.pskIdentities, binders)));
  }

  lemma EarlyIgnoresBinders(m: Hello, binders: seq<bytes>)
    ensures Early(m.(pskBinders := binders)) == Early(m)
  {
  }

  lemma SameLengths(m: Hello, m': Hello, es: seq<Ext>, e: Ext, e': Ext)
    requires m' == m.(pskBinders := m'.pskBinders)
    requires e.typ == e'.typ && e.body.err == e'.body.err && |e.body.result| == |e'.body.result|
    requires !Body(m, m.sessionId, es + [e]).err
    ensures !Body(m', m'.sessionId, es + [e']).err
    ensures |Body(m', m'.sessionId, es + [e']).result| == |Body(m, m.sessionId, es + [e]).result|
  {
    EncSnoc(es, e);
    EncSnoc(es, e');
    assert All(FitsExt, es + [e']) by {
      assert FitsExt((es + [e])[|es|]);
      assert forall i :: 0 <= i < |es| ==> (es + [e])[i] == (es + [e'])[i];
    }
  }

  lemma SectionsOf(m: Hello)
    ensures Exts(m, false) == Present([NameRow(m)]) + Present(Tls12Rows(m)) + Present(PlainRows(m))
      + Present(BlockRows(m)) + Present([PskRow(m)])
  {
    PresentAppend([NameRow(m)], Tls12Rows(m));
    PresentAppend([NameRow(m)] + Tls12Rows(m), PlainRows(m));
    PresentAppend([NameRow(m)] + Tls12Rows(m) + PlainRows(m), BlockRows(m));
    PresentAppend([NameRow(m)] + Tls12Rows(m) + PlainRows(m) + BlockRows(m), [PskRow(m)]);
  }
}
