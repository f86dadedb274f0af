/** The ECH encoder and decoder as the program runs them: cursors that advance and a builder that grows. */
module EchMsg {
  import opened Wire
  import opened Extensions
  import opened ClientHello
  import opened ClientHelloMsg
  import opened Ech

  method EncodeInnerClientHello(inner: Msg, maxNameLength: nat) returns (r: Option<bytes>)
    ensures r == EncodeInner(inner.Value(), maxNameLength)
  {
    var h := inner.Marshal(true);
    r := PadInner(h, |inner.fields.serverName|, maxNameLength);
  }

  /** The length of the name is worked into the padding, then overwritten by the rounding. */
  method PadInner(h: Option<bytes>, name: nat, maxNameLength: nat) returns (r: Option<bytes>)
    ensures r == PadMessage(h, name, maxNameLength)
  {
    if h.None? || |h.value| <= 4 { return None; }
    var s := h.value[4..];
    var paddingLen := if name != 0 then (if maxNameLength > name then maxNameLength - name else 0)
      else maxNameLength + 9;
    paddingLen := 31 - (|s| + paddingLen - 1) % 32;
    r := Some(s + Zeros(paddingLen));
  }

  method ExtractRawExtensions(outer: Hello) returns (r: Result<seq<RawExt>>)
    ensures r == RawExtensions(outer)
  {
    if outer.original.None? || |outer.original.value| < 4 { return Err(MalformedOuter); }
    var f := ReadFixed(outer.original.value[4..]);
    if f.None? { return Err(MalformedOuter); }
    var x := ReadLP(2, f.value.1);
    if x.None? { return Err(MalformedOuter); }
    var es := ReadAll(DecExt, x.value.0);
    r := if es.None? then Err(InvalidInner) else Ok(es.value);
  }

  /** The recipe for the rest, added to what is done. */
  function After(done: seq<RawExt>, rest: Result<seq<RawExt>>): Result<seq<RawExt>> {
    match rest case Err(e) => Err(e) case Ok(es) => Ok(done + es)
  }

  ghost predicate HoldsCopies(b: Builder, es: seq<RawExt>) { b == Items(EncExt, FitsExt, CopiedAll(es)) }

  method AddCopy(b: Builder, e: RawExt, ghost done: seq<RawExt>) returns (r: Builder)
    requires HoldsCopies(b, done)
    ensures HoldsCopies(r, done + [e])
  {
    EmitStep(b, CopiedAll(done), Row(e.typ, true, Of(e.data)));
    assert CopiedAll(done + [e]) == CopiedAll(done) + Present([Row(e.typ, true, Of(e.data))]);
    r := b.Add(Put(2, e.typ)).AddLP(2, Of(e.data));
  }

  lemma AfterNil(rest: Result<seq<RawExt>>)
    ensures After([], rest) == rest
  {
    if rest.Ok? { assert [] + rest.value == rest.value; }
  }

  lemma AfterCons(done: seq<RawExt>, e: RawExt, rest: Result<seq<RawExt>>)
    ensures After(done, After([e], rest)) == After(done + [e], rest)
  {
    if rest.Ok? { assert done + ([e] + rest.value) == (done + [e]) + rest.value; }
  }

  /** Copies the outer extensions named by a list of types; one index runs over the outer hello. */
  method CopyOuter(b: Builder, list: bytes, raw: seq<RawExt>, ghost done: seq<RawExt>)
    returns (r: Result<Builder>)
    requires HoldsCopies(b, done)
    ensures match Pick(list, raw, 0)
            case Err(e) => r == Err(e)
            case Ok(es) => r == Ok(Items(EncExt, FitsExt, CopiedAll(done + es)))
  {
    var s, i, out := list, 0, b;
    ghost var es: seq<RawExt> := [];
    assert done + es == done;
    AfterNil(Pick(list, raw, 0));
    while s != []
      invariant i <= |raw|
      invariant HoldsCopies(out, done + es)
      invariant Pick(list, raw, 0) == After(es, Pick(s, raw, i))
      decreases |s|
    {
      var t := ReadU16(s);
      if t.None? { return Err(InvalidInner); }
      if t.value.0 == EXT_ECH { return Err(InvalidOuterExtensions); }
      ghost var from := i;
      while i < |raw| && raw[i].typ != t.value.0
        invariant from <= i <= |raw|
        invariant Find(raw, t.value.0, from) == Find(raw, t.value.0, i)
      {
        i := i + 1;
      }
      if i == |raw| { return Err(InvalidOuterExtensions); }
      s := t.value.1;
      AfterCons(es, raw[i], Pick(s, raw, i));
      out := AddCopy(out, raw[i], done + es);
      assert done + es + [raw[i]] == done + (es + [raw[i]]);
      es := es + [raw[i]];
    }
    assert After(es, Ok([])) == Ok(es) by { assert es + [] == es; }
    r := Ok(out);
  }

  /** The loop over the encoded extensions. */
  method ExpandExtensions(s0: bytes, raw: seq<RawExt>) returns (r: Result<Builder>)
    ensures match Expand(s0, raw)
            case Err(e) => r == Err(e)
            case Ok(es) => r.Ok? && HoldsCopies(r.value, es)
  {
    var s, out := s0, EMPTY;
    ghost var done: seq<RawExt> := [];
    assert CopiedAll(done) == [];
    AfterNil(Expand(s0, raw));
    while s != []
      invariant HoldsCopies(out, done)
      invariant Expand(s0, raw) == After(done, Expand(s, raw))
      decreases |s|
    {
      var e := DecExt(s);
      if e.None? { return Err(InvalidInner); }
      var ext, rest := e.value.0, e.value.1;
      if ext.typ == EXT_ECH_OUTER_EXTENSIONS {
        var ts := ReadLP(1, ext.data);
        if ts.None? { return Err(InvalidInner); }
        var copied := CopyOuter(out, ts.value.0, raw, done);
        if copied.Err? { return Err(copied.error); }
        out := copied.value;
        ghost var es := Pick(ts.value.0, raw, 0).value;
        AfterAppend(done, es, Expand(rest, raw));
        done := done + es;
      } else {
        out := AddCopy(out, ext, done);
        AfterAppend(done, [ext], Expand(rest, raw));
        done := done + [ext];
      }
      s := rest;
    }
    assert After(done, Ok([])) == Ok(done) by { assert done + [] == done; }
    r := Ok(out);
  }

  lemma AfterAppend(done: seq<RawExt>, es: seq<RawExt>, rest: Result<seq<RawExt>>)
    ensures After(done, After(es, rest)) == After(done + es, rest)
  {
    if rest.Ok? { assert done + (es + rest.value) == (done + es) + rest.value; }
  }

  method DecodeInnerClientHello(outer: Hello, encoded: bytes) returns (r: Result<Hello>)
    ensures r == DecodeInner(outer, encoded)
  {
    var p := ReadParts(encoded);
    if p.None? { return Err(InvalidInner); }
    var ok := CheckZero(p.value.padding);
    if !ok { return Err(InvalidInner); }
    r := ExpandAndFinish(outer, p.value);
  }

  method CheckZero(pad: bytes) returns (ok: bool)
    ensures ok == AllZero(pad)
  {
    for i := 0 to |pad|
      invariant forall j :: 0 <= j < i ==> pad[j] == 0
    {
      if pad[i] != 0 { return false; }
    }
    return true;
  }

  /** Puts the outer extensions back, then reads the message in full. */
  method ExpandAndFinish(outer: Hello, p: Parts) returns (r: Result<Hello>)
    ensures r == DecodeParts(outer, p)
  {
    var raw := ExtractRawExtensions(outer);
    if raw.Err? { return Err(raw.error); }
    var exts := ExpandExtensions(p.extensions, raw.value);
    if exts.Err? { return Err(exts.error); }
    r := FinishInner(p.fixed, outer.sessionId, exts.value, Expand(p.extensions, raw.value).value);
  }

  method FinishInner(f: Fixed, sid: bytes, exts: Builder, ghost es: seq<RawExt>) returns (r: Result<Hello>)
    requires HoldsCopies(exts, es)
    ensures r == Finish(f, sid, es)
  {
    var recon := Of([TYPE_CLIENT_HELLO]).AddLP(3,
      Of(f.versionAndRandom).AddLP(1, Of(sid)).AddLP(2, Of(f.suites)).AddLP(1, Of(f.compression))
      .AddLP(2, exts)).Bytes();
    if recon.None? { return Err(TooLong); }
    var m := new Msg(Blank([], 0, [], [], [], []));
    var ok := m.Unmarshal(recon.value);
    if !ok { return Err(InvalidReconstructed); }
    r := CheckInner(m.Value());
  }

  method CheckInner(inner: Hello) returns (r: Result<Hello>)
    ensures r == Check(inner)
  {
    if inner.ech != [INNER_ECH_EXT] { return Err(InvalidEchExt); }
    var vs, has13 := inner.supportedVersions, false;
    for i := 0 to |vs|
      invariant CheckVersions(vs, false) == CheckVersions(vs[i..], has13)
    {
      assert vs[i..][1..] == vs[i + 1..];
      if !IsGrease(vs[i]) {
        if vs[i] == VERSION_TLS13 {
          has13 := true;
        } else if vs[i] < VERSION_TLS13 {
          return Err(UnsupportedVersions);
        }
      }
    }
    r := if has13 then Ok(inner) else Err(NoTls13);
  }
}
