/** Lists of TLS extensions: how they are written, and the loop that reads them. */
module Extensions {
  import opened Wire

  /** An extension as it stands on the wire. */
  datatype RawExt = RawExt(typ: u16, data: bytes)

  /** An extension about to be written. */
  datatype Ext = Ext(typ: u16, body: Builder)

  /** One extension the sender may write: its type, whether it is written, and its content. */
  datatype Row = Row(typ: u16, on: bool, body: Builder)

  function EncExt(e: Ext): bytes { Put(2, e.typ) + Put(2, |e.body.result|) + e.body.result }

  predicate FitsExt(e: Ext) { !e.body.err && |e.body.result| < 0x1_0000 }

  function DecExt(s: bytes): (r: Option<(RawExt, bytes)>)
    ensures r.Some? ==> |r.value.1| < |s|
  {
    match ReadU16(s)
    case None => None
    case Some((t, s1)) =>
      match ReadLP(2, s1)
      case None => None
      case Some((d, rest)) => Some((RawExt(t, d), rest))
  }

  lemma DecEncExt(e: Ext, rest: bytes)
    requires FitsExt(e)
    ensures DecExt(EncExt(e) + rest) == Some((RawExt(e.typ, e.body.result), rest))
  {
    Limits();
    var s1 := Put(2, |e.body.result|) + e.body.result + rest;
    assert EncExt(e) + rest == Put(2, e.typ) + s1;
    ReadU16Put(e.typ, s1);
    ReadLPPut(2, e.body.result, rest);
  }

  /** The extensions actually written. */
  function Present(rows: seq<Row>): seq<Ext> {
    if rows == [] then [] else Written(rows[0]) + Present(rows[1..])
  }

  function Written(row: Row): seq<Ext> { if row.on then [Ext(row.typ, row.body)] else [] }

  lemma Associates(a: seq<Ext>, b: seq<Ext>, c: seq<Ext>)
    ensures a + b + c == a + (b + c)
  {
  }

  lemma {:induction false} PresentAppend(a: seq<Row>, b: seq<Row>)
    ensures Present(a + b) == Present(a) + Present(b)
  {
    if a == [] {
      assert a + b == b;
    } else {
      PresentAppend(a[1..], b);
      assert (a + b)[0] == a[0] && (a + b)[1..] == a[1..] + b;
      Associates(Written(a[0]), Present(a[1..]), Present(b));
    }
  }

  /** Extensions as they stand in the bytes. */
  function Raw(es: seq<Ext>): (r: seq<RawExt>)
    ensures |r| == |es|
  {
    seq(|es|, i requires 0 <= i < |es| => RawExt(es[i].typ, es[i].body.result))
  }

  function TypesOf(es: seq<RawExt>): (ts: seq<u16>)
    ensures |ts| == |es|
  {
    seq(|es|, i requires 0 <= i < |es| => es[i].typ)
  }

  function ExtTypes(es: seq<Ext>): (ts: seq<u16>)
    ensures |ts| == |es| && forall i :: 0 <= i < |ts| ==> ts[i] == es[i].typ
  {
    TypesOf(Raw(es))
  }

  /**
    The reading loop. `apply` tells what one extension does to the message read so far; it also
    learns whether the extension is the last one. A repeated type refuses the message.
   */
  function ReadExts<S>(apply: (S, RawExt, bool) -> Option<S>, m: S, seen: seq<u16>, s: bytes): Option<(S, seq<u16>)>
    decreases |s|
  {
    if s == [] then Some((m, seen)) else
    match DecExt(s)
    case None => None
    case Some((e, rest)) =>
      if e.typ in seen then None else
      match apply(m, e, rest == [])
      case None => None
      case Some(m') => ReadExts(apply, m', seen + [e.typ], rest)
  }

  /**
    A path through the extensions a sender may write: `state(k)` is the message before extension k,
    `ok(k)` whether the receiver accepts extension k, `rank` the place of each extension type.
   */
  datatype Path<!S> = Path(apply: (S, RawExt, bool) -> Option<S>, rank: u16 -> nat, state: nat -> S, ok: nat -> bool)
  {
    /**
      Reading what `row` writes takes the message one state further, or is refused; a row that is
      not written leaves the message alone. Only the final row counts on being last.
     */
    ghost predicate Step(row: Row, k: nat, final: bool) {
      && rank(row.typ) == k
      && if !row.on then state(k + 1) == state(k) && ok(k) else
         FitsExt(Ext(row.typ, row.body)) ==>
           && (!final ==> apply(state(k), RawExt(row.typ, row.body.result), false)
                          == if ok(k) then Some(state(k + 1)) else None)
           && apply(state(k), RawExt(row.typ, row.body.result), true) == if ok(k) then Some(state(k + 1)) else None
    }

    /** The rows are the stretch of the path that starts at k. */
    ghost predicate Along(rows: seq<Row>, k: nat, final: bool) {
      forall i :: 0 <= i < |rows| ==> Step(rows[i], k + i, final && i == |rows| - 1)
    }

    lemma AlongAppend(a: seq<Row>, b: seq<Row>, k: nat, final: bool)
      requires Along(a, k, false) && Along(b, k + |a|, final) && b != []
      ensures Along(a + b, k, final)
    {
      var rows := a + b;
      forall i | 0 <= i < |rows| ensures Step(rows[i], k + i, final && i == |rows| - 1) {
        if i < |a| {
          assert Step(a[i], k + i, false);
        } else {
          assert Step(b[i - |a|], k + |a| + (i - |a|), final && i - |a| == |b| - 1);
        }
      }
    }

    lemma AlongSections(a: seq<Row>, b: seq<Row>, c: seq<Row>, d: seq<Row>, e: seq<Row>)
      requires b != [] && c != [] && d != [] && e != []
      requires Along(a, 0, false) && Along(b, |a|, false) && Along(c, |a| + |b|, false)
      requires Along(d, |a| + |b| + |c|, false) && Along(e, |a| + |b| + |c| + |d|, true)
      ensures Along(a + b + c + d + e, 0, true)
    {
      AlongAppend(a, b, 0, false);
      AlongAppend(a + b, c, 0, false);
      AlongAppend(a + b + c, d, 0, false);
      AlongAppend(a + b + c + d, e, 0, true);
    }

    predicate OkFrom(k: nat, n: nat) { forall i :: k <= i < n ==> ok(i) }

    /** Only types of extensions before k have been seen. */
    ghost predicate Before(seen: seq<u16>, k: nat) { forall i :: 0 <= i < |seen| ==> rank(seen[i]) < k }

    lemma SeeNext(seen: seq<u16>, k: nat, t: u16)
      requires Before(seen, k) && rank(t) == k
      ensures t !in seen && Before(seen, k + 1) && Before(seen + [t], k + 1)
    {
    }

    /** Reading back what the rows from k on wrote goes through all their states, unless one of them is refused. */
    lemma {:induction false} ReadRows(rows: seq<Row>, k: nat, seen: seq<u16>)
      requires Along(rows, 0, true) && k <= |rows| && Before(seen, k)
      requires All(FitsExt, Present(rows[k..]))
      ensures ReadExts(apply, state(k), seen, EncList(EncExt, Present(rows[k..]))) ==
              if OkFrom(k, |rows|) then Some((state(|rows|), seen + ExtTypes(Present(rows[k..])))) else None
      decreases |rows| - k
    {
      if k == |rows| {
        assert seen + ExtTypes(Present(rows[k..])) == seen;
      } else {
        var row, rest := rows[k], Present(rows[k + 1..]);
        assert rows[k..][1..] == rows[k + 1..];
        TailPresent(rows[k..], seen);
        assert Step(row, 0 + k, k == |rows| - 1);
        SeeNext(seen, k, row.typ);
        assert OkFrom(k, |rows|) <==> ok(k) && OkFrom(k + 1, |rows|);
        if row.on {
          ReadRows(rows, k + 1, seen + [row.typ]);
          ReadRow(apply, Ext(row.typ, row.body), EncList(EncExt, rest), state(k), seen);
          assert k + 1 == |rows| ==> EncList(EncExt, rest) == [];
        } else {
          ReadRows(rows, k + 1, seen);
        }
      }
    }
  }

  lemma TailPresent(rows: seq<Row>, seen: seq<u16>)
    requires rows != []
    ensures var row, rest := rows[0], Present(rows[1..]);
      if row.on then
        && Present(rows) == [Ext(row.typ, row.body)] + rest
        && EncList(EncExt, Present(rows)) == EncExt(Ext(row.typ, row.body)) + EncList(EncExt, rest)
        && seen + [row.typ] + ExtTypes(rest) == seen + ExtTypes(Present(rows))
        && (All(FitsExt, Present(rows)) <==> FitsExt(Ext(row.typ, row.body)) && All(FitsExt, rest))
      else Present(rows) == rest
  {
    var row, rest := rows[0], Present(rows[1..]);
    if row.on {
      ConsFacts(Ext(row.typ, row.body), rest, seen);
    }
  }

  lemma ConsFacts(e: Ext, rest: seq<Ext>, seen: seq<u16>)
    ensures var all := [e] + rest;
      && EncList(EncExt, all) == EncExt(e) + EncList(EncExt, rest)
      && seen + [e.typ] + ExtTypes(rest) == seen + ExtTypes(all)
      && (All(FitsExt, all) <==> FitsExt(e) && All(FitsExt, rest))
  {
    var all := [e] + rest;
    assert all[1..] == rest;
    assert forall k :: 0 <= k < |rest| ==> rest[k] == all[k + 1];
  }

  /** The types have increasing ranks between lo and hi. */
  ghost predicate Ranked(rank: u16 -> nat, es: seq<Ext>, lo: nat, hi: nat) {
    && (forall i :: 0 <= i < |es| ==> lo <= rank(es[i].typ) < hi)
    && (forall i, j :: 0 <= i < j < |es| ==> rank(es[i].typ) < rank(es[j].typ))
  }

  /** The extensions written keep the order of their ranks. */
  lemma {:induction false} PresentRanked(rank: u16 -> nat, rows: seq<Row>, k: nat)
    requires forall i :: 0 <= i < |rows| ==> rank(rows[i].typ) == k + i
    ensures Ranked(rank, Present(rows), k, k + |rows|)
  {
    if rows != [] {
      assert forall i :: 0 <= i < |rows[1..]| ==> rows[1..][i] == rows[i + 1];
      PresentRanked(rank, rows[1..], k + 1);
    }
  }

  /** One turn of the loop on an extension that was just written. */
  lemma ReadRow<S>(apply: (S, RawExt, bool) -> Option<S>, e: Ext, s: bytes, m: S, seen: seq<u16>)
    requires FitsExt(e) && e.typ !in seen
    ensures ReadExts(apply, m, seen, EncExt(e) + s) ==
            match apply(m, RawExt(e.typ, e.body.result), s == [])
            case None => None
            case Some(m') => ReadExts(apply, m', seen + [e.typ], s)
  {
    DecEncExt(e, s);
  }
}
