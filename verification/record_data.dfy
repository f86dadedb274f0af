/** What a run of the record layer delivers, in terms of the data handed to it. */
module RecordData {
  import opened Wire
  import opened Nonce
  import opened Aead
  import opened Record
  import opened RecordRun

  // ---------------------------------------------------------------- bytes and their content type

  /** The bytes of one piece, each with the content type it goes under. */
  function Tag(piece: (byte, bytes)): (r: seq<(byte, byte)>)
    ensures |r| == |piece.1|
  {
    seq(|piece.1|, i requires 0 <= i < |piece.1| => (piece.0, piece.1[i]))
  }

  /** The same over pieces: where one piece ends and the next of its type starts no longer shows. */
  function Tagged(pieces: seq<(byte, bytes)>): seq<(byte, byte)> {
    if pieces == [] then [] else Tag(pieces[0]) + Tagged(pieces[1..])
  }

  /** The data handed to the record layer, in order. */
  function Sends(steps: seq<Step>): seq<(byte, bytes)> {
    if steps == [] then []
    else (if steps[0].Send? then [(steps[0].typ, steps[0].data)] else []) + Sends(steps[1..])
  }

  lemma Associates(a: seq<(byte, byte)>, b: seq<(byte, byte)>, c: seq<(byte, byte)>)
    ensures a + b + c == a + (b + c)
  {
  }

  lemma {:induction false} TaggedAppend(a: seq<(byte, bytes)>, b: seq<(byte, bytes)>)
    ensures Tagged(a + b) == Tagged(a) + Tagged(b)
  {
    if a == [] {
      assert a + b == b;
      assert [] + Tagged(b) == Tagged(b);
    } else {
      TaggedAppend(a[1..], b);
      assert (a + b)[0] == a[0] && (a + b)[1..] == a[1..] + b;
      Associates(Tag(a[0]), Tagged(a[1..]), Tagged(b));
    }
  }

  lemma TaggedOne(piece: (byte, bytes))
    ensures Tagged([piece]) == Tag(piece)
  {
    assert [piece][1..] == [];
    assert Tag(piece) + [] == Tag(piece);
  }

  lemma TagSplit(typ: byte, data: bytes, m: nat)
    requires m <= |data|
    ensures Tag((typ, data)) == Tag((typ, data[..m])) + Tag((typ, data[m..]))
  {
  }

  // ---------------------------------------------------------------- which data arrives unchanged

  /** No fragment of a handshake write, cut every 16384 bytes, starts like a session ticket. */
  predicate NoTicket(data: bytes)
    decreases |data|
  {
    data == [] || (data[0] != NEW_SESSION_TICKET && (|data| > MAX_PLAINTEXT ==> NoTicket(data[MAX_PLAINTEXT..])))
  }

  /** Whether a write leaves its data as it is: the slots are not armed for it, or it is no session ticket. */
  predicate Untouched(slots: Slots, typ: byte, data: bytes) { Armed(slots, typ) ==> NoTicket(data) }

  predicate StepUntouched(slots: Slots, step: Step) { step.Send? ==> Untouched(slots, step.typ, step.data) }

  /** Pieces never carry more than was handed over, and carry the same if and only if `clean`. */
  predicate Arrives(pieces: seq<(byte, bytes)>, sent: seq<(byte, byte)>, clean: bool) {
    |Tagged(pieces)| <= |sent| && (Tagged(pieces) == sent <==> clean)
  }

  lemma ArrivesJoin(a: seq<(byte, bytes)>, s: seq<(byte, byte)>, c: bool, b: seq<(byte, bytes)>, t: seq<(byte, byte)>,
      d: bool)
    requires Arrives(a, s, c) && Arrives(b, t, d)
    ensures Arrives(a + b, s + t, c && d)
  {
    TaggedAppend(a, b);
    var x, y := Tagged(a), Tagged(b);
    if x + y == s + t {
      assert |x| == |s|;
      assert x == (x + y)[..|x|] == s;
      assert y == (x + y)[|x|..] == t;
    }
  }

  /** One record: only a session ticket in an armed slot arrives as something else. */
  lemma OneArrives(slots: Slots, typ: byte, piece: bytes)
    requires piece != []
    ensures Arrives([Delivered(slots, typ, piece)], Tag((typ, piece)),
      !(Armed(slots, typ) && piece[0] == NEW_SESSION_TICKET))
  {
    var d := Delivered(slots, typ, piece);
    TaggedOne(d);
    if Armed(slots, typ) && piece[0] == NEW_SESSION_TICKET && |piece| > 1 {
      assert Tag(d)[0] == (typ, APPLICATION_DATA) && Tag((typ, piece))[0] == (typ, NEW_SESSION_TICKET);
    }
  }

  /** Sealing uses up slots, never the one that arms them. */
  lemma StaysArmed(k: Keys, w: Writer, typ: byte, piece: bytes, other: byte)
    requires |k.mask| == MASK_LEN && piece != []
    ensures Armed(One(k, Counted(w, typ), typ, piece).w.slots, other) == Armed(w.slots, other)
  {
  }

  lemma HandshakeChunk(w: Writer, data: bytes)
    requires data != []
    ensures Chunk(w, HANDSHAKE, data) == if |data| > MAX_PLAINTEXT then MAX_PLAINTEXT else |data|
  {
  }

  lemma UntouchedSplit(w: Writer, typ: byte, data: bytes)
    requires data != []
    ensures var m := Chunk(w, typ, data);
      Untouched(w.slots, typ, data) <==>
      !(Armed(w.slots, typ) && data[0] == NEW_SESSION_TICKET) && Untouched(w.slots, typ, data[m..])
  {
    if typ == HANDSHAKE { HandshakeChunk(w, data); }
  }

  lemma {:induction false} WriteDelivers(k: Keys, w: Writer, typ: byte, data: bytes)
    requires |k.mask| == MASK_LEN && Write(k, w, typ, data).stop.None?
    ensures Arrives(Write(k, w, typ, data).pieces, Tag((typ, data)), Untouched(w.slots, typ, data))
    ensures forall other :: Armed(Write(k, w, typ, data).w.slots, other) == Armed(w.slots, other)
    decreases |data|
  {
    if data != [] {
      var m := Chunk(w, typ, data);
      var a := One(k, Counted(w, typ), typ, data[..m]);
      var b := Write(k, a.w, typ, data[m..]);
      forall other ensures Armed(a.w.slots, other) == Armed(w.slots, other) { StaysArmed(k, w, typ, data[..m], other); }
      WriteDelivers(k, a.w, typ, data[m..]);
      OneArrives(w.slots, typ, data[..m]);
      UntouchedSplit(w, typ, data);
      TagSplit(typ, data, m);
      ArrivesJoin(a.pieces, Tag((typ, data[..m])), !(Armed(w.slots, typ) && data[0] == NEW_SESSION_TICKET),
                  b.pieces, Tag((typ, data[m..])), Untouched(w.slots, typ, data[m..]));
    }
  }

  predicate AllUntouched(slots: Slots, steps: seq<Step>) {
    forall i :: 0 <= i < |steps| ==> StepUntouched(slots, steps[i])
  }

  lemma TaggedSends(steps: seq<Step>)
    requires steps != []
    ensures Tagged(Sends(steps)) ==
      (if steps[0].Send? then Tag((steps[0].typ, steps[0].data)) else []) + Tagged(Sends(steps[1..]))
  {
    if steps[0].Send? {
      var piece := (steps[0].typ, steps[0].data);
      TaggedOne(piece);
      TaggedAppend([piece], Sends(steps[1..]));
    } else {
      assert [] + Sends(steps[1..]) == Sends(steps[1..]);
      assert [] + Tagged(Sends(steps[1..])) == Tagged(Sends(steps[1..]));
    }
  }

  lemma DoDelivers(k: Keys, w: Writer, step: Step)
    requires |k.mask| == MASK_LEN && Do(k, w, step).stop.None?
    ensures Arrives(Do(k, w, step).pieces, if step.Send? then Tag((step.typ, step.data)) else [],
                    StepUntouched(w.slots, step))
    ensures forall other :: Armed(Do(k, w, step).w.slots, other) == Armed(w.slots, other)
  {
    if step.Send? { WriteDelivers(k, w, step.typ, step.data); }
  }

  lemma AllUntouchedCons(w: Slots, w': Slots, steps: seq<Step>)
    requires steps != [] && forall typ :: Armed(w', typ) == Armed(w, typ)
    ensures AllUntouched(w, steps) <==> StepUntouched(w, steps[0]) && AllUntouched(w', steps[1..])
  {
    if StepUntouched(w, steps[0]) && AllUntouched(w', steps[1..]) {
      forall i | 0 <= i < |steps| ensures StepUntouched(w, steps[i]) {
        if i > 0 { assert StepUntouched(w', steps[1..][i - 1]); }
      }
    }
    if AllUntouched(w, steps) {
      forall i | 0 <= i < |steps[1..]| ensures StepUntouched(w', steps[1..][i]) {
        assert StepUntouched(w, steps[i + 1]);
      }
    }
  }

  lemma {:induction false} PiecesArrive(k: Keys, w: Writer, steps: seq<Step>)
    requires |k.mask| == MASK_LEN && Run(k, w, steps).stop.None?
    ensures Arrives(Run(k, w, steps).pieces, Tagged(Sends(steps)), AllUntouched(w.slots, steps))
    decreases |steps|
  {
    if steps != [] {
      var a := Do(k, w, steps[0]);
      var b := Run(k, a.w, steps[1..]);
      DoDelivers(k, w, steps[0]);
      PiecesArrive(k, a.w, steps[1..]);
      TaggedSends(steps);
      AllUntouchedCons(w.slots, a.w.slots, steps);
      ArrivesJoin(a.pieces, if steps[0].Send? then Tag((steps[0].typ, steps[0].data)) else [],
                  StepUntouched(w.slots, steps[0]), b.pieces, Tagged(Sends(steps[1..])),
                  AllUntouched(a.w.slots, steps[1..]));
    }
  }

  /**
    Over every run that did not stop: reading what it added to the wire as a byte stream gives the
    data of its writes, in order and each byte under its own type, if and only if no fragment that
    starts like a session ticket met an armed slot.
   */
  lemma RunArrives(k: Keys, w: Writer, steps: seq<Step>)
    requires k.Valid() && w.Tidy() && forall i :: 0 <= i < |steps| ==> Proper(steps[i])
    requires Run(k, w, steps).stop.None?
    ensures var wire := Run(k, w, steps).w.Wire();
      && w.Wire() <= wire
      && var read := ReadStream(k, w.n, wire[|w.Wire()|..]);
        read.Some? && (Tagged(read.value) == Tagged(Sends(steps)) <==> AllUntouched(w.slots, steps))
  {
    StreamRoundTrip(k, w, steps);
    PiecesArrive(k, w, steps);
  }

  // ---------------------------------------------------------------- a run that stopped

  predicate SameOutput(a: Written, b: Written) {
    a.records == b.records && a.inners == b.inners && a.pieces == b.pieces && a.targets == b.targets
  }

  /** The run ended at the record that was to carry the front of `rest`, from the state w. */
  predicate RefusedAt(k: Keys, w: Writer, typ: byte, rest: bytes, r: Written)
    requires |k.mask| == MASK_LEN && rest != []
  {
    var f := One(k, Counted(w, typ), typ, rest[..Chunk(w, typ, rest)]);
    f.stop.Some? && r.stop == f.stop && r.w == f.w
  }

  /** What a stopped run put out is what `kept` did, which did not stop; then the front of `rest` was refused. */
  predicate StoppedAfter(k: Keys, typ: byte, rest: bytes, r: Written, kept: Written)
    requires |k.mask| == MASK_LEN && rest != []
  {
    kept.stop.None? && SameOutput(r, kept) && RefusedAt(k, kept.w, typ, rest, r)
  }

  lemma StoppedBehind(k: Keys, typ: byte, rest: bytes, a: Written, r: Written, kept: Written)
    requires |k.mask| == MASK_LEN && rest != [] && StoppedAfter(k, typ, rest, r, kept)
    ensures StoppedAfter(k, typ, rest, Join(a, r), Join(a, kept))
  {
  }

  lemma ShorterChunk(w: Writer, typ: byte, data: bytes, m: nat)
    requires data != [] && Chunk(w, typ, data) <= m <= |data|
    ensures Chunk(w, typ, data[..m]) == Chunk(w, typ, data)
  {
  }

  /** Writing the data up to c + m or all of it starts with the same record, c being what that record takes. */
  lemma WriteFirst(k: Keys, w: Writer, typ: byte, data: bytes, c: nat, m: nat)
    requires |k.mask| == MASK_LEN && data != [] && c == Chunk(w, typ, data) && c + m <= |data|
    ensures var a := One(k, Counted(w, typ), typ, data[..c]);
      a.stop.None? ==> Write(k, w, typ, data[..c + m]) == Join(a, Write(k, a.w, typ, data[c..][..m]))
  {
    ShorterChunk(w, typ, data, c + m);
    assert data[..c + m][..c] == data[..c] && data[..c + m][c..] == data[c..][..m];
  }

  /** A write that goes on behind its first record, and the write of a part of the data that takes this record in. */
  predicate GoesOn(k: Keys, w: Writer, typ: byte, data: bytes, c: nat, a: Written, m: nat)
    requires |k.mask| == MASK_LEN && c <= |data|
  {
    c + m <= |data| ==> Write(k, w, typ, data[..c + m]) == Join(a, Write(k, a.w, typ, data[c..][..m]))
  }

  /** The first record of a write: the write stops there, or goes on behind it. */
  lemma FirstRecord(k: Keys, w: Writer, typ: byte, data: bytes) returns (c: nat, a: Written)
    requires |k.mask| == MASK_LEN && data != []
    ensures 0 < c <= |data|
    ensures a.stop.None? ==> Write(k, w, typ, data) == Join(a, Write(k, a.w, typ, data[c..]))
    ensures a.stop.None? ==> forall m: nat :: GoesOn(k, w, typ, data, c, a, m)
    ensures a.stop.Some? ==> StoppedAfter(k, typ, data[0..], Write(k, w, typ, data), Write(k, w, typ, data[..0]))
  {
    c := Chunk(w, typ, data);
    a := One(k, Counted(w, typ), typ, data[..c]);
    assert data[0..] == data && data[..0] == [];
    if a.stop.None? {
      forall m: nat ensures GoesOn(k, w, typ, data, c, a, m) {
        if c + m <= |data| { WriteFirst(k, w, typ, data, c, m); }
      }
    }
  }

  lemma StopsLater(k: Keys, w: Writer, typ: byte, data: bytes, c: nat, m: nat, a: Written)
    requires |k.mask| == MASK_LEN && c + m < |data| && GoesOn(k, w, typ, data, c, a, m)
    requires Write(k, w, typ, data) == Join(a, Write(k, a.w, typ, data[c..]))
    requires StoppedAfter(k, typ, data[c..][m..], Write(k, a.w, typ, data[c..]), Write(k, a.w, typ, data[c..][..m]))
    ensures StoppedAfter(k, typ, data[c + m..], Write(k, w, typ, data), Write(k, w, typ, data[..c + m]))
  {
    assert data[c + m..] == data[c..][m..];
    StoppedBehind(k, typ, data[c + m..], a, Write(k, a.w, typ, data[c..]), Write(k, a.w, typ, data[c..][..m]));
  }

  /** Where a write stopped: it put out what writing the data ahead of m does. */
  lemma {:induction false} WriteStops(k: Keys, w: Writer, typ: byte, data: bytes) returns (m: nat)
    requires |k.mask| == MASK_LEN && Write(k, w, typ, data).stop.Some?
    ensures m < |data| && StoppedAfter(k, typ, data[m..], Write(k, w, typ, data), Write(k, w, typ, data[..m]))
    decreases |data|
  {
    var c, a := FirstRecord(k, w, typ, data);
    if a.stop.Some? {
      m := 0;
    } else {
      var m' := WriteStops(k, a.w, typ, data[c..]);
      m := c + m';
      assert GoesOn(k, w, typ, data, c, a, m');
      StopsLater(k, w, typ, data, c, m', a);
    }
  }

  /** Where a run stopped, as the run that ends just before. */
  function Until(steps: seq<Step>, j: nat, m: nat): seq<Step>
    requires j < |steps| && steps[j].Send? && m <= |steps[j].data|
  {
    steps[..j] + [Send(steps[j].typ, steps[j].data[..m])]
  }

  /**
    A run that stopped put out exactly the records of the run of everything ahead of the failing
    fragment, which did not stop, and it stopped because that fragment was refused in the state reached.
   */
  lemma {:induction false} RunStops(k: Keys, w: Writer, steps: seq<Step>) returns (j: nat, m: nat)
    requires |k.mask| == MASK_LEN && Run(k, w, steps).stop.Some?
    ensures j < |steps| && steps[j].Send? && m < |steps[j].data|
    ensures StoppedAfter(k, steps[j].typ, steps[j].data[m..], Run(k, w, steps), Run(k, w, Until(steps, j, m)))
    decreases |steps|
  {
    var a := Do(k, w, steps[0]);
    if a.stop.Some? {
      j := 0;
      m := WriteStops(k, w, steps[0].typ, steps[0].data);
      RunOfOne(k, w, Send(steps[0].typ, steps[0].data[..m]));
      assert Until(steps, 0, m) == [Send(steps[0].typ, steps[0].data[..m])];
    } else {
      var j', m' := RunStops(k, a.w, steps[1..]);
      j, m := j' + 1, m';
      assert Until(steps, j, m)[0] == steps[0] && Until(steps, j, m)[1..] == Until(steps[1..], j', m);
      StoppedBehind(k, steps[j].typ, steps[j].data[m..], a, Run(k, a.w, steps[1..]),
                    Run(k, a.w, Until(steps[1..], j', m)));
    }
  }

  lemma RunOfOne(k: Keys, w: Writer, step: Step)
    requires |k.mask| == MASK_LEN
    ensures Run(k, w, [step]) == Do(k, w, step)
  {
    var a := Do(k, w, step);
    assert [step][1..] == [];
    assert a.stop.None? ==> Join(a, Nothing(a.w, None)) == a;
  }

  lemma {:induction false} SendsUntil(steps: seq<Step>, j: nat, m: nat)
    requires j < |steps| && steps[j].Send? && m <= |steps[j].data|
    ensures Tagged(Sends(Until(steps, j, m))) == Tagged(Sends(steps[..j])) + Tag((steps[j].typ, steps[j].data[..m]))
    decreases j
  {
    var last := (steps[j].typ, steps[j].data[..m]);
    var until := Until(steps, j, m);
    TaggedSends(until);
    if j == 0 {
      assert until == [Send(last.0, last.1)] && until[1..] == [] && steps[..0] == [];
      assert Tag(last) + [] == Tag(last) == [] + Tag(last);
    } else {
      SendsUntil(steps[1..], j - 1, m);
      assert until[0] == steps[0] && until[1..] == Until(steps[1..], j - 1, m);
      assert steps[..j][0] == steps[0] && steps[..j][1..] == steps[1..][..j - 1];
      TaggedSends(steps[..j]);
      Associates(if steps[0].Send? then Tag((steps[0].typ, steps[0].data)) else [],
                 Tagged(Sends(steps[1..][..j - 1])), Tag(last));
    }
  }

  /**
    What a stopped run delivered: the writes ahead of the failing one and the fragments ahead of the
    failing fragment.
   */
  lemma StoppedRunArrives(k: Keys, w: Writer, steps: seq<Step>) returns (j: nat, m: nat)
    requires k.Valid() && w.Tidy() && forall i :: 0 <= i < |steps| ==> Proper(steps[i])
    requires Run(k, w, steps).stop.Some?
    ensures j < |steps| && steps[j].Send? && m < |steps[j].data|
    ensures var wire := Run(k, w, steps).w.Wire();
      && w.Wire() <= wire
      && var read := ReadStream(k, w.n, wire[|w.Wire()|..]);
        read.Some? && (AllUntouched(w.slots, Until(steps, j, m)) <==>
          Tagged(read.value) == Tagged(Sends(steps[..j])) + Tag((steps[j].typ, steps[j].data[..m])))
    ensures RefusedAt(k, Run(k, w, Until(steps, j, m)).w, steps[j].typ, steps[j].data[m..], Run(k, w, steps))
  {
    j, m := RunStops(k, w, steps);
    StreamRoundTrip(k, w, steps);
    PiecesArrive(k, w, Until(steps, j, m));
    SendsUntil(steps, j, m);
  }
}
