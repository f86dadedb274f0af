/** The bytes the binders of a received ClientHello are checked over. */
module PskReceived {
  import opened Wire
  import opened Extensions
  import opened ClientHello
  import opened PskBinders

  predicate EndsIn(s: bytes, t: bytes) { |t| <= |s| && s[|s| - |t|..] == t }

  lemma EndsBehind(front: bytes, s: bytes, t: bytes)
    requires EndsIn(s, t)
    ensures EndsIn(front + s, t)
  {
    assert (front + s)[|front + s| - |t|..] == s[|s| - |t|..];
  }

  lemma EndsSelf(s: bytes)
    ensures EndsIn(s, s)
  {
  }

  /** What was read as a length and that many bytes stands so in the input. */
  lemma ReadLPInverse(n: nat, s: bytes)
    requires ReadLP(n, s).Some?
    ensures var (x, rest) := ReadLP(n, s).value; s == Put(n, |x|) + x + rest && |s| >= n
  {
    PutGet(s[..n]);
    var k := Get(s[..n]);
    assert s == s[..n] + s[n..n + k] + s[n + k..];
  }

  /** A list that was read is the encoding of its items. */
  lemma {:induction false} Str8Inverse(s: bytes)
    requires DecList(DecStr8, s).Some?
    ensures EncList(EncStr8, DecList(DecStr8, s).value) == s
    decreases |s|
  {
    if s != [] {
      var (x, rest) := DecStr8(s).value;
      ReadLPInverse(1, s);
      Str8Inverse(rest);
      var xs := DecList(DecStr8, rest).value;
      assert ([x] + xs)[0] == x && ([x] + xs)[1..] == xs;
    }
  }

  /** The content of pre_shared_key ends in the encoded binders. */
  lemma PskEnds(d: bytes)
    requires ParsePsk(d).Some?
    ensures EndsIn(d, EncBinders(ParsePsk(d).value.1))
  {
    var (l, s1) := ReadLP(2, d).value;
    ReadLPInverse(2, d);
    ReadLPInverse(2, s1);
    var b := Only(2, s1).value;
    Str8Inverse(b);
    assert s1 == Put(2, |b|) + b + [] == EncBinders(ParsePsk(d).value.1);
    EndsSelf(s1);
    EndsBehind(Put(2, |l|) + l, s1, s1);
  }

  lemma ExtEnds(s: bytes, t: bytes)
    requires DecExt(s).Some? && EndsIn(DecExt(s).value.0.data + DecExt(s).value.1, t)
    ensures EndsIn(s, t)
  {
    var (d, rest) := ReadLP(2, s[2..]).value;
    ReadLPInverse(2, s[2..]);
    assert s == (s[..2] + Put(2, |d|)) + (d + rest);
    EndsBehind(s[..2] + Put(2, |d|), d + rest, t);
  }

  /** Identities and binders come from pre_shared_key alone, which has to be the last extension. */
  lemma PskDecodes(name: bytes, e: RawExt, last: bool)
    requires Decode(name, e, last).Some? && Decode(name, e, last).value.Psk?
    ensures last && ParsePsk(e.data) == Some((Decode(name, e, last).value.ids, Decode(name, e, last).value.binders))
  {
  }

  /** No other extension touches them, and none the bytes of the message. */
  lemma UpdateKeeps(m: Hello, f: Field)
    ensures Update(m, f).original == m.original
    ensures f.Psk? || (Update(m, f).pskIdentities == m.pskIdentities && Update(m, f).pskBinders == m.pskBinders)
  {
    match f {
      case ServerName(_) => case Status(_) => case Curves(_) => case Points(_) => case Ticket(_) =>
      case SigAlgs(_) => case SigAlgsCert(_) => case Renegotiation(_) => case ExtendedMasterSecret =>
      case Alpn(_) => case Sct => case Versions(_) => case Cookie(_) => case KeyShares(_) => case EarlyData =>
      case PskModes(_) => case Quic(_) => case Psk(_, _) => case Ech(_) => case Unknown =>
    }
  }

  /** A block that was read ends in the binders it brought. */
  lemma {:induction false} BlockEnds(m: Hello, seen: seq<u16>, s: bytes)
    requires ReadExts(ApplyExt, m, seen, s).Some? && m.pskIdentities == [] && m.pskBinders == []
    ensures var m' := ReadExts(ApplyExt, m, seen, s).value.0;
      m'.original == m.original && (m'.pskIdentities != [] ==> EndsIn(s, EncBinders(m'.pskBinders)))
    decreases |s|
  {
    if s != [] {
      var (e, rest) := DecExt(s).value;
      var f := Decode(m.serverName, e, rest == []).value;
      var m1 := Update(m, f);
      UpdateKeeps(m, f);
      if f.Psk? {
        PskDecodes(m.serverName, e, rest == []);
        PskEnds(e.data);
        assert e.data + rest == e.data && m1.pskBinders == f.binders;
        ExtEnds(s, EncBinders(f.binders));
      } else {
        BlockEnds(m1, seen + [e.typ], rest);
        var m' := ReadExts(ApplyExt, m, seen, s).value.0;
        if m'.pskIdentities != [] {
          EndsBehind(e.data, rest, EncBinders(m'.pskBinders));
          ExtEnds(s, EncBinders(m'.pskBinders));
        }
      }
    }
  }

  lemma FixedEnds(data: bytes)
    requires ParseFixed(data).Some?
    ensures EndsIn(data, ParseFixed(data).value.1)
    ensures var m := ParseFixed(data).value.0; m.original == Some(data) && m.pskIdentities == [] && m.pskBinders == []
  {
    var s := data[4..];
    var (sid, s1) := ReadLP(1, s[34..]).value;
    var (cs, s2) := ReadLP(2, s1).value;
    var (comp, s3) := ReadLP(1, s2).value;
    ReadLPInverse(1, s[34..]);
    ReadLPInverse(2, s1);
    ReadLPInverse(1, s2);
    EndsSelf(s3);
    EndsBehind(Put(1, |comp|) + comp, s3, s3);
    EndsBehind(Put(2, |cs|) + cs, s2, s3);
    EndsBehind(Put(1, |sid|) + sid, s1, s3);
    assert data == data[..38] + s[34..];
    EndsBehind(data[..38], s[34..], s3);
  }

  lemma CutAt(data: bytes, t: bytes)
    requires EndsIn(data, t)
    ensures data == data[..|data| - |t|] + t
  {
  }

  /** The length and the block, then the fixed fields in front of them. */
  lemma MessageEnds(data: bytes, s: bytes, x: bytes, t: bytes)
    requires EndsIn(data, s) && Only(2, s) == Some(x) && EndsIn(x, t)
    ensures EndsIn(data, t)
  {
    ReadLPInverse(2, s);
    assert s == Put(2, |x|) + x;
    EndsBehind(Put(2, |x|), x, t);
    CutAt(data, s);
    EndsBehind(data[..|data| - |s|], s, t);
  }

  /**
   * A received hello with identities is what the binders are checked over, followed by the binders:
   * nothing stands behind them, and the cut falls right in front of them.
   */
  lemma ReceivedBindersComeLast(data: bytes)
    requires Parse(data).Some? && Parse(data).value.pskIdentities != []
    ensures var m := Parse(data).value;
      WithoutBinders(m).Some? && data == WithoutBinders(m).value + EncBinders(m.pskBinders)
  {
    var (m0, s) := ParseFixed(data).value;
    var m := Parse(data).value;
    FixedEnds(data);
    var x := Only(2, s).value;
    BlockEnds(m0, [], x);
    var t := EncBinders(m.pskBinders);
    MessageEnds(data, s, x, t);
    CutAt(data, t);
    BindersLenIs(m.pskBinders);
  }
}
