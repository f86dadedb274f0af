/** The ClientHello as the program holds it: an object whose fields the parser fills in place. */
module ClientHelloMsg {
  import opened Wire
  import opened Extensions
  import opened ClientHello
  import opened ClientHelloRoundTrip
  import opened PskBinders

  // ---------------------------------------------------------------- writing

  /** One extension appended to the block. */
  function Emit(b: Builder, row: Row): Builder {
    if row.on then b.Add(Put(2, row.typ)).AddLP(2, row.body) else b
  }

  /** The builder holds exactly these extensions. */
  ghost predicate Holds(b: Builder, es: seq<Ext>) { b == Items(EncExt, FitsExt, es) }

  /** The rows appended one after the other. */
  method EmitRows(b: Builder, rows: seq<Row>, ghost es: seq<Ext>) returns (r: Builder)
    requires Holds(b, es)
    ensures Holds(r, es + Present(rows))
  {
    r := b;
    assert es + [] == es;
    for i := 0 to |rows|
      invariant Holds(r, es + Present(rows[..i]))
    {
      PresentSnoc(rows, i);
      EmitStep(r, es + Present(rows[..i]), rows[i]);
      Associates(es, Present(rows[..i]), Present([rows[i]]));
      r := Emit(r, rows[i]);
    }
    assert rows[..|rows|] == rows;
  }

  lemma PresentSnoc(rows: seq<Row>, i: nat)
    requires i < |rows|
    ensures Present(rows[..i + 1]) == Present(rows[..i]) + Present([rows[i]])
  {
    assert rows[..i + 1] == rows[..i] + [rows[i]];
    PresentAppend(rows[..i], [rows[i]]);
  }

  lemma EmitStep(r: Builder, es: seq<Ext>, row: Row)
    requires Holds(r, es)
    ensures Holds(Emit(r, row), es + Present([row]))
  {
    PresentOne(row);
    if row.on {
      Limits();
      var e := Ext(row.typ, row.body);
      EncSnoc(es, e);
      FitsSnoc(es, e);
      assert r.result + Put(2, row.typ) + Put(2, |row.body.result|) + row.body.result == r.result + EncExt(e);
    } else {
      assert es + [] == es;
    }
  }

  lemma FitsSnoc(es: seq<Ext>, e: Ext)
    ensures All(FitsExt, es + [e]) <==> All(FitsExt, es) && FitsExt(e)
  {
    var all := es + [e];
    assert forall i :: 0 <= i < |es| ==> all[i] == es[i];
    assert all[|es|] == e;
  }

  /** The list of types that stands for the block of an inner hello. */
  function StandInRow(es: seq<Ext>): Row {
    Row(EXT_ECH_OUTER_EXTENSIONS, es != [], LP(1, U16s(ExtTypes(es))))
  }

  lemma ExtsBySections(m: Hello, echInner: bool)
    ensures Exts(m, echInner) ==
      [] + Present([NameRow(m)]) + (if echInner then [] else Present(Tls12Rows(m))) + Present(PlainRows(m))
      + (if echInner then Present([StandInRow(Present(BlockRows(m)))]) else Present(BlockRows(m)))
        + Present([PskRow(m)])
  {
    var name, plain, block, psk := Present([NameRow(m)]), Present(PlainRows(m)), Present(BlockRows(m)),
      Present([PskRow(m)]);
    if echInner {
      PresentOne(StandInRow(block));
      WithoutTls12(name, plain, StandIn(block), psk);
    } else {
      SectionsOf(m);
      WithTls12(name, Present(Tls12Rows(m)), plain, block, psk);
    }
  }

  lemma WithoutTls12(a: seq<Ext>, b: seq<Ext>, c: seq<Ext>, d: seq<Ext>)
    ensures [] + a + [] + b + c + d == a + b + c + d
  {
    assert [] + a == a && a + [] == a;
  }

  lemma WithTls12(a: seq<Ext>, b: seq<Ext>, c: seq<Ext>, d: seq<Ext>, e: seq<Ext>)
    ensures [] + a + b + c + d + e == a + b + c + d + e
  {
    assert [] + a == a;
  }

  /** The length of the encoded binder list. */
  method SumBinders(binders: seq<bytes>) returns (n: nat)
    ensures n == BindersLen(binders)
  {
    n := 2;
    for i := 0 to |binders|
      invariant n == BindersLen(binders[..i])
    {
      assert binders[..i + 1][..i] == binders[..i];
      n := n + 1 + |binders[i]|;
    }
    assert binders[..|binders|] == binders;
  }

  // ---------------------------------------------------------------- reading

  /** The switch over the extension type: reads the content with a cursor of its own. */
  method ReadContent(name: bytes, e: RawExt, last: bool) returns (f: Option<Field>)
    ensures f == Decode(name, e, last)
  {
    var d := e.data;
    if e.typ in {EXT_SUPPORTED_CURVES, EXT_SIGNATURE_ALGORITHMS, EXT_SIGNATURE_ALGORITHMS_CERT,
      EXT_SUPPORTED_VERSIONS} {
      var list := Only(if e.typ == EXT_SUPPORTED_VERSIONS then 1 else 2, d);
      if list.None? || list.value == [] { return None; }
      var xs := ReadAll(DecU16, list.value);
      if xs.None? { return None; }
      f := Some(if e.typ == EXT_SUPPORTED_CURVES then Curves(xs.value)
                else if e.typ == EXT_SIGNATURE_ALGORITHMS then SigAlgs(xs.value)
                else if e.typ == EXT_SIGNATURE_ALGORITHMS_CERT then SigAlgsCert(xs.value)
                else Versions(xs.value));
    } else if e.typ == EXT_SERVER_NAME {
      f := ReadServerName(d, name);
    } else if e.typ == EXT_ALPN {
      var list := Only(2, d);
      if list.None? || list.value == [] { return None; }
      var xs := ReadAll(DecStr8, list.value);
      f := if xs.None? then None else Some(Alpn(xs.value));
    } else if e.typ == EXT_KEY_SHARE {
      var list := Only(2, d);
      if list.None? { return None; }
      var xs := ReadAll(DecKeyShare, list.value);
      f := if xs.None? then None else Some(KeyShares(xs.value));
    } else if e.typ == EXT_PRE_SHARED_KEY {
      if !last { return None; }
      f := ReadPsk(d);
    } else {
      f := Decode(name, e, last);
    }
  }

  /** The server_name loop. */
  method ReadServerName(d: bytes, name: bytes) returns (f: Option<Field>)
    ensures f == match ParseServerName(d, name) case None => None case Some(x) => Some(ServerName(x))
  {
    var list := Only(2, d);
    if list.None? || list.value == [] { return None; }
    var rest, cur := list.value, name;
    while rest != []
      invariant ParseNames(list.value, name) == ParseNames(rest, cur)
      decreases |rest|
    {
      var nameType := rest[0];
      var n := ReadLP(2, rest[1..]);
      if n.None? || n.value.0 == [] { return None; }
      if nameType == 0 {
        if cur != [] || n.value.0[|n.value.0| - 1] == DOT { return None; }
        cur := n.value.0;
      }
      rest := n.value.1;
    }
    return Some(ServerName(cur));
  }

  method ReadPsk(d: bytes) returns (f: Option<Field>)
    ensures f == match ParsePsk(d) case None => None case Some((ids, binders)) => Some(Psk(ids, binders))
  {
    var ids := ReadLP(2, d);
    if ids.None? || ids.value.0 == [] { return None; }
    var xs := ReadAll(DecPsk, ids.value.0);
    if xs.None? { return None; }
    var b := Only(2, ids.value.1);
    if b.None? || b.value == [] { return None; }
    var ys := ReadAll(DecStr8, b.value);
    return if ys.None? then None else Some(Psk(xs.value, ys.value));
  }

  // ---------------------------------------------------------------- the object

  class Msg {
    var fields: Hello          // every field but the list of extension types
    var extensions: seq<u16>

    function Value(): Hello
      reads this
    {
      fields.(extensions := extensions)
    }

    constructor (m: Hello)
      ensures Value() == m
    {
      fields, extensions := m, m.extensions;
    }

    /** Fills the object from the bytes of a message; on false its fields mean nothing. */
    method Unmarshal(data: bytes) returns (ok: bool)
      modifies this
      ensures ok == Parse(data).Some?
      ensures ok ==> Value() == Parse(data).value
    {
      if |data| < 4 { return false; }
      var f := ReadFixed(data[4..]);
      if f.None? { return false; }
      var fixed, s := f.value.0, f.value.1;
      var suites := ReadAll(DecU16, fixed.suites);
      if suites.None? { return false; }
      Limits();
      fields := Blank(data, Get(fixed.versionAndRandom[..2]), fixed.versionAndRandom[2..], fixed.sessionId,
        suites.value, fixed.compression);
      extensions := [];
      if s == [] { return true; }
      var block := Only(2, s);
      if block.None? { return false; }
      ok := ReadBlock(block.value);
    }

    /** The loop over the extensions. */
    method ReadBlock(s: bytes) returns (ok: bool)
      requires extensions == []
      modifies this
      ensures ok == ParseExts(old(fields), s).Some?
      ensures ok ==> Value() == ParseExts(old(fields), s).value
    {
      var rest, seen: set<u16> := s, {};
      while rest != []
        invariant seen == set t | t in extensions
        invariant ReadExts(ApplyExt, old(fields), [], s) == ReadExts(ApplyExt, fields, extensions, rest)
        decreases |rest|
      {
        var e := DecExt(rest);
        if e.None? || e.value.0.typ in seen { return false; }
        var f := ReadContent(fields.serverName, e.value.0, e.value.1 == []);
        if f.None? { return false; }
        fields := Update(fields, f.value);
        seen := seen + {e.value.0.typ};
        extensions := extensions + [e.value.0.typ];
        rest := e.value.1;
      }
      ok := true;
    }

    /** The bytes of the message; None when some part of it is too long. */
    method Marshal(echInner: bool) returns (r: Option<bytes>)
      ensures r == MarshalMsg(Value(), echInner)
    {
      var m := Value();
      ghost var es := [];
      var exts := EmitRows(EMPTY, [NameRow(m)], es);
      es := es + Present([NameRow(m)]);
      if !echInner {
        exts := EmitRows(exts, Tls12Rows(m), es);
      } else {
        assert es + [] == es;
      }
      es := es + (if echInner then [] else Present(Tls12Rows(m)));
      exts := EmitRows(exts, PlainRows(m), es);
      es := es + Present(PlainRows(m));
      var block := if echInner then [StandInRow(Present(BlockRows(m)))] else BlockRows(m);
      exts := EmitRows(exts, block, es);
      es := es + Present(block);
      exts := EmitRows(exts, [PskRow(m)], es);
      es := es + Present([PskRow(m)]);
      ExtsBySections(m, echInner);
      EncExtsEmpty(es);
      if exts.err { return None; }
      var body := Builder(Put(2, m.vers) + m.random, |m.random| != 32)
        .AddLP(1, Of(if echInner then [] else m.sessionId)).AddLP(2, U16s(m.cipherSuites))
        .AddLP(1, Of(m.compressionMethods));
      if |exts.result| > 0 { body := body.AddLP(2, exts); }
      r := Of([TYPE_CLIENT_HELLO]).AddLP(3, body).Bytes();
    }

    /** The message up to the binder list; None also where the list is longer than the message. */
    method MarshalWithoutBinders() returns (r: Option<bytes>)
      ensures r == WithoutBinders(Value())
    {
      var bindersLen := SumBinders(fields.pskBinders);
      var full := fields.original;
      if full.None? { full := Marshal(false); }
      r := Cut(full, bindersLen);
    }

    /** Replaces the binders by others of the same lengths; anything else is an error and changes nothing. */
    method UpdateBinders(binders: seq<bytes>) returns (ok: bool)
      modifies this
      ensures ok == SameShape(old(fields.pskBinders), binders)
      ensures Value() == if ok then old(Value()).(pskBinders := binders) else old(Value())
    {
      if |binders| != |fields.pskBinders| { return false; }
      for i := 0 to |binders|
        invariant forall j :: 0 <= j < i ==> |binders[j]| == |fields.pskBinders[j]|
        invariant Value() == old(Value())
      {
        if |binders[i]| != |fields.pskBinders[i]| { return false; }
      }
      fields := fields.(pskBinders := binders);
      ok := true;
    }
  }
}
