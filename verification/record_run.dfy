/** Whole runs of the record layer under one traffic key: fragmentation, sealing, buffering, framing, opening. */
module RecordRun {
  import opened Wire
  import opened Nonce
  import opened Aead
  import opened Record

  const TCP_MSS := 1208
  const BOOST_THRESHOLD := 131072
  const SERVER_HELLO: byte := 2

  /** The writing side between two records; bytesSent counts what was handed to the network. */
  datatype Writer = Writer(n: nat, slots: Slots, packetsSent: nat, bytesSent: nat, fixedSize: bool,
                           buffering: bool, sent: bytes, sendBuf: bytes)
  {
    /** Everything written so far, in order. */
    function Wire(): bytes { sent + sendBuf }

    /** Buffering ends only by emptying the buffer, and the sequence number has not wrapped. */
    predicate Tidy() { (!buffering ==> sendBuf == []) && SmallSlots(slots) && n < Limit(SEQ_LEN) }
  }

  predicate SmallSlots(slots: Slots) { forall i :: 0 <= i < 7 ==> slots[i] <= MAX_PLAINTEXT }

  /** Whether a record takes part in the slow start of record sizes. */
  predicate Starting(w: Writer, typ: byte) {
    !w.fixedSize && typ == APPLICATION_DATA && w.bytesSent < BOOST_THRESHOLD
  }

  /** Application data starts in records of one TCP segment and grows; everything else may fill a record. */
  function MaxPayload(w: Writer, typ: byte): (r: nat)
    ensures 0 < r <= MAX_PLAINTEXT
  {
    if !Starting(w, typ) || w.packetsSent > 1000 then MAX_PLAINTEXT else
    var n := (TCP_MSS - HEADER_LEN - OVERHEAD - 1) * (w.packetsSent + 1);
    if n > MAX_PLAINTEXT then MAX_PLAINTEXT else n
  }

  function Counted(w: Writer, typ: byte): Writer {
    if Starting(w, typ) then w.(packetsSent := w.packetsSent + 1) else w
  }

  function Emit(w: Writer, data: bytes): Writer {
    if w.buffering then w.(sendBuf := w.sendBuf + data)
    else w.(sent := w.sent + data, bytesSent := w.bytesSent + |data|)
  }

  /** Flushing an empty buffer does not end the buffering. */
  function Flushed(w: Writer): Writer {
    if w.sendBuf == [] then w
    else w.(sent := w.sent + w.sendBuf, bytesSent := w.bytesSent + |w.sendBuf|, sendBuf := [], buffering := false)
  }

  // ---------------------------------------------------------------- what a run does

  /**
    The records a run puts out, the text under each seal, what they carry, the lengths their slots
    ask for, and how it ended.
   */
  datatype Written = Written(records: seq<bytes>, inners: seq<bytes>, pieces: seq<(byte, bytes)>,
                             targets: seq<Option<nat>>, w: Writer, stop: Option<Sealed>)

  function Nothing(w: Writer, stop: Option<Sealed>): Written { Written([], [], [], [], w, stop) }

  function Join(a: Written, b: Written): Written {
    Written(a.records + b.records, a.inners + b.inners, a.pieces + b.pieces, a.targets + b.targets, b.w, b.stop)
  }

  function One(k: Keys, w: Writer, typ: byte, piece: bytes): Written
    requires |k.mask| == MASK_LEN && piece != []
  {
    var e, used := Encrypt(k, w.n, w.slots, typ, piece), w.(slots := SlotsAfter(w.slots, typ, piece));
    if !e.Sealed? then Nothing(used, Some(e)) else
    Written([e.record], [Inner(w.slots, typ, piece)], [Delivered(w.slots, typ, piece)],
            [if Armed(w.slots, typ) then Some(Target(w.slots, piece[0])) else None],
            Emit(used.(n := w.n + 1), e.record), None)
  }

  function Chunk(w: Writer, typ: byte, data: bytes): (m: nat)
    requires data != []
    ensures 0 < m <= |data| && m <= MAX_PLAINTEXT
  {
    if |data| > MaxPayload(w, typ) then MaxPayload(w, typ) else |data|
  }

  /** One write, cut into records. */
  function Write(k: Keys, w: Writer, typ: byte, data: bytes): Written
    requires |k.mask| == MASK_LEN
    decreases |data|
  {
    if data == [] then Nothing(w, None) else
    var m := Chunk(w, typ, data);
    var a := One(k, Counted(w, typ), typ, data[..m]);
    if a.stop.Some? then a else Join(a, Write(k, a.w, typ, data[m..]))
  }

  datatype Step = Send(typ: byte, data: bytes) | StartBuffering | Flush

  function Do(k: Keys, w: Writer, step: Step): Written
    requires |k.mask| == MASK_LEN
  {
    match step
    case Send(typ, data) => Write(k, w, typ, data)
    case StartBuffering => Nothing(w.(buffering := true), None)
    case Flush => Nothing(Flushed(w), None)
  }

  /** Steps one after the other, up to the first that fails. */
  function Run(k: Keys, w: Writer, steps: seq<Step>): Written
    requires |k.mask| == MASK_LEN
    decreases |steps|
  {
    if steps == [] then Nothing(w, None) else
    var a := Do(k, w, steps[0]);
    if a.stop.Some? then a else Join(a, Run(k, a.w, steps[1..]))
  }

  // ---------------------------------------------------------------- what the peer reads

  function Open(k: Keys, n: nat, record: bytes): Option<(byte, bytes)> {
    if |k.mask| != MASK_LEN || |record| < HEADER_LEN then None else
    match Decrypt(k, n, record) case Opened(typ, data) => Some((typ, data)) case _ => None
  }

  /** Opens records one after the other, the first being number n. */
  function OpenAll<T>(open: (nat, bytes) -> Option<T>, n: nat, records: seq<bytes>): Option<seq<T>>
    decreases |records|
  {
    if records == [] then Some([]) else
    var piece :- open(n, records[0]);
    var rest :- OpenAll(open, n + 1, records[1..]);
    Some([piece] + rest)
  }

  function Receive(k: Keys, n: nat, records: seq<bytes>): Option<seq<(byte, bytes)>> {
    OpenAll((i: nat, r: bytes) => Open(k, i, r), n, records)
  }

  function Same(r: bytes): bytes { r }

  predicate AnyRecord(r: bytes) { true }

  /** One record off the front of the stream, as long as its header says. */
  function DecRecord(s: bytes): Option<(bytes, bytes)> {
    if |s| < HEADER_LEN || |s| < HEADER_LEN + Get(s[3..5]) then None
    else Some((s[..HEADER_LEN + Get(s[3..5])], s[HEADER_LEN + Get(s[3..5])..]))
  }

  function ReadStream(k: Keys, n: nat, stream: bytes): Option<seq<(byte, bytes)>>
    requires |k.mask| == MASK_LEN
  {
    var records :- DecList(DecRecord, stream);
    Receive(k, n, records)
  }

  // ---------------------------------------------------------------- the proof

  ghost predicate Lengths(r: Written) {
    && |r.records| == |r.targets|
    && (forall i :: 0 <= i < |r.records| ==> Framed(r.records[i]))
    && (forall i :: 0 <= i < |r.records| ==> r.targets[i].Some? ==> |r.records[i]| == r.targets[i].value)
  }

  /** Record i is its text sealed under the nonce of number n + i. */
  ghost predicate SealedInOrder(k: Keys, n: nat, r: Written)
    requires |k.mask| == MASK_LEN
  {
    |r.inners| == |r.records| && forall i :: 0 <= i < |r.records| ==> r.records[i] == SealedAs(k, n + i, r.inners[i])
  }

  /** What holds of every run that starts from w. */
  ghost predicate Good(k: Keys, w: Writer, r: Written)
    requires |k.mask| == MASK_LEN
  {
    && Receive(k, w.n, r.records) == Some(r.pieces)
    && r.w.n == w.n + |r.records|
    && Lengths(r)
    && SealedInOrder(k, w.n, r)
    && r.w.Wire() == w.Wire() + EncList(Same, r.records)
    && r.w.Tidy()
  }

  lemma {:induction false} OpenAllAppend<T>(open: (nat, bytes) -> Option<T>, n: nat, a: seq<bytes>, b: seq<bytes>)
    requires OpenAll(open, n, a).Some? && OpenAll(open, n + |a|, b).Some?
    ensures OpenAll(open, n, a + b) == Some(OpenAll(open, n, a).value + OpenAll(open, n + |a|, b).value)
    decreases |a|
  {
    if a == [] {
      assert a + b == b && n + |a| == n;
      assert [] + OpenAll(open, n, b).value == OpenAll(open, n, b).value;
    } else {
      OpenAllAppend(open, n + 1, a[1..], b);
      assert (a + b)[0] == a[0] && (a + b)[1..] == a[1..] + b;
      var x, y, piece := OpenAll(open, n + 1, a[1..]).value, OpenAll(open, n + |a|, b).value, open(n, a[0]).value;
      assert [piece] + x + y == [piece] + (x + y);
    }
  }

  lemma ReceiveOne(k: Keys, n: nat, record: bytes, piece: (byte, bytes))
    requires Open(k, n, record) == Some(piece)
    ensures Receive(k, n, [record]) == Some([piece])
  {
    var open := (i: nat, r: bytes) => Open(k, i, r);
    assert [record][1..] == [] && [piece] + [] == [piece];
    assert OpenAll(open, n + 1, [record][1..]) == Some([]);
    assert open(n, [record][0]) == Some(piece);
  }

  lemma LengthsJoin(a: Written, b: Written)
    requires Lengths(a) && Lengths(b)
    ensures Lengths(Join(a, b))
  {
    var j := Join(a, b);
    forall i | 0 <= i < |j.records|
      ensures Framed(j.records[i]) && (j.targets[i].Some? ==> |j.records[i]| == j.targets[i].value) {
      if i < |a.records| {
        assert j.records[i] == a.records[i] && j.targets[i] == a.targets[i];
      } else {
        assert j.records[i] == b.records[i - |a.records|] && j.targets[i] == b.targets[i - |a.records|];
      }
    }
  }

  lemma ReceiveJoin(k: Keys, n: nat, a: Written, b: Written)
    requires Receive(k, n, a.records) == Some(a.pieces) && Receive(k, n + |a.records|, b.records) == Some(b.pieces)
    ensures Receive(k, n, Join(a, b).records) == Some(Join(a, b).pieces)
  {
    OpenAllAppend((i: nat, r: bytes) => Open(k, i, r), n, a.records, b.records);
  }

  lemma SealedJoin(k: Keys, n: nat, a: Written, b: Written)
    requires |k.mask| == MASK_LEN && SealedInOrder(k, n, a) && SealedInOrder(k, n + |a.records|, b)
    ensures SealedInOrder(k, n, Join(a, b))
  {
    var j, m := Join(a, b), |a.records|;
    forall i | 0 <= i < |j.records| ensures j.records[i] == SealedAs(k, n + i, j.inners[i]) {
      if i >= m {
        assert j.records[i] == b.records[i - m] && j.inners[i] == b.inners[i - m] && n + i == (n + m) + (i - m);
      }
    }
  }

  lemma GoodJoin(k: Keys, w: Writer, a: Written, b: Written)
    requires |k.mask| == MASK_LEN && Good(k, w, a) && Good(k, a.w, b)
    ensures Good(k, w, Join(a, b))
  {
    ReceiveJoin(k, w.n, a, b);
    LengthsJoin(a, b);
    SealedJoin(k, w.n, a, b);
    EncListAppend(Same, a.records, b.records);
    WireJoin(w.Wire(), EncList(Same, a.records), EncList(Same, b.records));
  }

  lemma WireJoin(a: bytes, b: bytes, c: bytes)
    ensures a + b + c == a + (b + c)
  {
  }

  lemma SlotsStaySmall(slots: Slots, typ: byte, payload: bytes)
    requires SmallSlots(slots) && payload != []
    ensures SmallSlots(SlotsAfter(slots, typ, payload))
  {
  }

  lemma EmitAppends(w: Writer, data: bytes)
    requires w.Tidy()
    ensures Emit(w, data).Wire() == w.Wire() + data && Emit(w, data).Tidy() && Emit(w, data).n == w.n
  {
  }

  lemma SingleIsGood(k: Keys, w: Writer, w': Writer, record: bytes, inner: bytes, piece: (byte, bytes),
      target: Option<nat>)
    requires |k.mask| == MASK_LEN && Open(k, w.n, record) == Some(piece) && record == SealedAs(k, w.n, inner)
    requires Framed(record) && (target.Some? ==> |record| == target.value)
    requires w'.Tidy() && w'.n == w.n + 1 && w'.Wire() == w.Wire() + record
    ensures Good(k, w, Written([record], [inner], [piece], [target], w', None))
  {
    ReceiveOne(k, w.n, record, piece);
    assert [record][1..] == [];
    assert EncList(Same, [record]) == record;
  }

  lemma OneIsGood(k: Keys, w: Writer, typ: byte, piece: bytes)
    requires k.Valid() && w.Tidy() && typ != 0 && 0 < |piece| <= MAX_PLAINTEXT
    ensures Good(k, w, One(k, w, typ, piece))
  {
    SlotsStaySmall(w.slots, typ, piece);
    var e, used := Encrypt(k, w.n, w.slots, typ, piece), w.(slots := SlotsAfter(w.slots, typ, piece));
    if e.Sealed? {
      OpenUndoesSeal(k, w.n, w.slots, typ, piece);
      EmitAppends(used.(n := w.n + 1), e.record);
      SingleIsGood(k, w, Emit(used.(n := w.n + 1), e.record), e.record, Inner(w.slots, typ, piece),
                   Delivered(w.slots, typ, piece),
                   if Armed(w.slots, typ) then Some(Target(w.slots, piece[0])) else None);
    }
  }

  lemma {:induction false} WriteIsGood(k: Keys, w: Writer, typ: byte, data: bytes)
    requires k.Valid() && w.Tidy() && typ != 0
    ensures Good(k, w, Write(k, w, typ, data))
    decreases |data|
  {
    if data != [] {
      var m := Chunk(w, typ, data);
      var a := One(k, Counted(w, typ), typ, data[..m]);
      OneIsGood(k, Counted(w, typ), typ, data[..m]);
      if a.stop.None? {
        WriteIsGood(k, a.w, typ, data[m..]);
        GoodJoin(k, Counted(w, typ), a, Write(k, a.w, typ, data[m..]));
      }
    }
  }

  predicate Proper(step: Step) { step.Send? ==> step.typ != 0 }

  lemma {:induction false} RunIsGood(k: Keys, w: Writer, steps: seq<Step>)
    requires k.Valid() && w.Tidy() && forall i :: 0 <= i < |steps| ==> Proper(steps[i])
    ensures Good(k, w, Run(k, w, steps))
    decreases |steps|
  {
    if steps != [] {
      var a := Do(k, w, steps[0]);
      if steps[0].Send? { WriteIsGood(k, w, steps[0].typ, steps[0].data); }
      assert Good(k, w, a);
      if a.stop.None? {
        RunIsGood(k, a.w, steps[1..]);
        GoodJoin(k, w, a, Run(k, a.w, steps[1..]));
      }
    }
  }

  lemma RecordCodec()
    ensures ItemCodec(Same, DecRecord, Framed, AnyRecord)
  {
    forall r: bytes, rest: bytes ensures ItemOk(Same, DecRecord, Framed, AnyRecord, r, rest) {
      if Framed(r) {
        var s := r + rest;
        assert s[3..5] == r[3..5];
        assert s[..|r|] == r && s[|r|..] == rest;
      }
    }
  }

  /** Reading back what the records of a run make of the byte stream. */
  lemma GoodReads(k: Keys, w: Writer, r: Written)
    requires |k.mask| == MASK_LEN && Good(k, w, r)
    ensures w.Wire() <= r.w.Wire() && r.w.Wire()[|w.Wire()|..] == EncList(Same, r.records)
    ensures ReadStream(k, w.n, r.w.Wire()[|w.Wire()|..]) == Some(r.pieces)
  {
    RecordCodec();
    ListRoundTrip(Same, DecRecord, Framed, AnyRecord, r.records);
    assert (w.Wire() + EncList(Same, r.records))[|w.Wire()|..] == EncList(Same, r.records);
  }

  /**
    Over every run under one key: what the run adds to the wire, read as a byte stream, gives back
    in order what every record carried; the record number moves by the records sent; and a handshake
    record sent while the slots are armed has exactly its slot's length.
   */
  lemma StreamRoundTrip(k: Keys, w: Writer, steps: seq<Step>)
    requires k.Valid() && w.Tidy() && forall i :: 0 <= i < |steps| ==> Proper(steps[i])
    ensures var r := Run(k, w, steps);
      && w.Wire() <= r.w.Wire()
      && ReadStream(k, w.n, r.w.Wire()[|w.Wire()|..]) == Some(r.pieces)
      && r.w.n == w.n + |r.records|
      && Lengths(r)
  {
    RunIsGood(k, w, steps);
    GoodReads(k, w, Run(k, w, steps));
  }

  lemma GoodSeals(k: Keys, w: Writer, r: Written)
    requires |k.mask| == MASK_LEN && Good(k, w, r)
    ensures |r.inners| == |r.records| && w.n + |r.records| == r.w.n < Limit(SEQ_LEN)
    ensures forall i :: 0 <= i < |r.records| ==> r.records[i] == SealedAs(k, w.n + i, r.inners[i])
  {
  }

  /** Record i of a run is sealed under the nonce of number w.n + i, and no number comes near wrapping. */
  lemma RunSeals(k: Keys, w: Writer, steps: seq<Step>)
    requires k.Valid() && w.Tidy() && forall x :: 0 <= x < |steps| ==> Proper(steps[x])
    ensures var r := Run(k, w, steps);
      && |r.inners| == |r.records| && w.n + |r.records| == r.w.n < Limit(SEQ_LEN)
      && forall i :: 0 <= i < |r.records| ==> r.records[i] == SealedAs(k, w.n + i, r.inners[i])
  {
    RunIsGood(k, w, steps);
    GoodSeals(k, w, Run(k, w, steps));
  }

  /** The outside of a record: type 23, version 0x0303 and the length of the rest. */
  predicate LooksLikeData(r: bytes) {
    |r| >= 5 && r[0] == 23 && r[1] == 3 && r[2] == 3 && |r| == 5 + (r[3] as int) * 256 + (r[4] as int)
  }

  /** Every record of a run looks like application data of TLS 1.2 from outside, whatever it carries. */
  lemma RunLooks(k: Keys, w: Writer, steps: seq<Step>, i: nat)
    requires k.Valid() && w.Tidy() && forall x :: 0 <= x < |steps| ==> Proper(steps[x])
    requires i < |Run(k, w, steps).records|
    ensures LooksLikeData(Run(k, w, steps).records[i])
  {
    RunIsGood(k, w, steps);
    GoodLooks(k, w, Run(k, w, steps), i);
  }

  lemma GoodLooks(k: Keys, w: Writer, r: Written, i: nat)
    requires |k.mask| == MASK_LEN && Good(k, w, r) && i < |r.records|
    ensures LooksLikeData(r.records[i])
  {
    var x := r.records[i];
    assert Framed(x) && x == SealedAs(k, w.n + i, r.inners[i]);
    LengthBytes(x[3..5]);
  }

  lemma LengthBytes(s: bytes)
    requires |s| == 2
    ensures Get(s) == (s[0] as int) * 256 + (s[1] as int)
  {
    assert s[..1] == [s[0]] && [s[0]][..0] == [];
    assert Get([s[0]]) == s[0];
  }

  lemma GoodNoncesDiffer(k: Keys, w: Writer, r: Written, i: nat, j: nat)
    requires |k.mask| == MASK_LEN && Good(k, w, r) && i < j < |r.records|
    ensures SealedApart(k, w.n, r, i, j)
  {
    GoodSeals(k, w, r);
    RecordNoncesDiffer(k.mask, w.n + i, w.n + j);
  }

  /** Records i and j are sealed under the nonces of their own numbers, and these differ. */
  ghost predicate SealedApart(k: Keys, n: nat, r: Written, i: nat, j: nat)
    requires |k.mask| == MASK_LEN && i < j < |r.records|
  {
    && |r.inners| == |r.records|
    && r.records[i] == SealedAs(k, n + i, r.inners[i]) && r.records[j] == SealedAs(k, n + j, r.inners[j])
    && RecordNonce(k.mask, n + i) != RecordNonce(k.mask, n + j)
  }

  /** Within one epoch no two records are sealed under the same nonce. */
  lemma RunNoncesDiffer(k: Keys, w: Writer, steps: seq<Step>, i: nat, j: nat)
    requires k.Valid() && w.Tidy() && forall x :: 0 <= x < |steps| ==> Proper(steps[x])
    requires i < j < |Run(k, w, steps).records|
    ensures SealedApart(k, w.n, Run(k, w, steps), i, j)
  {
    RunIsGood(k, w, steps);
    GoodNoncesDiffer(k, w, Run(k, w, steps), i, j);
  }

  // ---------------------------------------------------------------- single messages and records

  /**
    A handshake message of one record, other than a session ticket, is sent whole in one record or
    not at all; and when not sent it is because it is longer than its slot, or a fixed buffer or
    the sequence number is exhausted.
   */
  lemma MessageArrives(k: Keys, w: Writer, message: bytes)
    requires |k.mask| == MASK_LEN && 0 < |message| <= MAX_PLAINTEXT && message[0] != NEW_SESSION_TICKET
    ensures var r, p := Write(k, w, HANDSHAKE, message), Padding(w.slots, HANDSHAKE, message);
      if 0 <= p <= ZERO_BUFFER_LEN && w.n + 1 < Limit(SEQ_LEN)
      then r.stop.None? && r.pieces == [(HANDSHAKE, message)] && |r.records| == 1
      else r.pieces == [] && r.records == [] && r.w.n == w.n && r.stop == Some(if p < 0 then TooLong else Panic)
  {
    assert message[..|message|] == message;
    var a := One(k, w, HANDSHAKE, message);
    if a.stop.None? {
      assert Write(k, a.w, HANDSHAKE, message[|message|..]) == Nothing(a.w, None);
      assert Join(a, Nothing(a.w, None)) == a;
    }
  }

  /**
    Slow start: the first record of application data fits one TCP segment, record number p + 1 at
    most p + 1 of them, and the size allowed never goes down until records may be full.
   */
  lemma SlowStart(k: Keys, w: Writer, data: bytes)
    requires k.Valid() && w.Tidy() && data != [] && Starting(w, APPLICATION_DATA) && w.packetsSent <= 1000
    ensures var r := One(k, Counted(w, APPLICATION_DATA), APPLICATION_DATA, data[..Chunk(w, APPLICATION_DATA, data)]);
      && (r.stop.None? ==> |r.records| == 1 && |r.records[0]| <= TCP_MSS * (w.packetsSent + 1))
      && MaxPayload(w, APPLICATION_DATA) <= MaxPayload(r.w, APPLICATION_DATA)
      && r.w.packetsSent == w.packetsSent + 1
  {
  }

  /**
    The size a record of application data may have: one segment more with each of the first thirteen
    records, then and for everything else a full record.
   */
  lemma GrowsForThirteenRecords(w: Writer, typ: byte)
    ensures MaxPayload(w, typ) ==
      if typ == 23 && !w.fixedSize && w.bytesSent < 131072 && w.packetsSent < 13 then 1186 * (w.packetsSent + 1)
        else 16384
  {
  }

  /** A slot serves one record: a second message of its kind is refused while the slots stay armed. */
  lemma SlotServesOnce(k: Keys, w: Writer, first: bytes, second: bytes)
    requires |k.mask| == MASK_LEN && first != [] && second != [] && first[0] == second[0]
    requires Armed(w.slots, HANDSHAKE)
    ensures One(k, One(k, w, HANDSHAKE, first).w, HANDSHAKE, second).stop == Some(TooLong)
  {
    var slots := SlotsAfter(w.slots, HANDSHAKE, first);
    assert One(k, w, HANDSHAKE, first).w.slots == slots;
    assert Target(slots, second[0]) == 0;
  }

  // ---------------------------------------------------------------- buffering

  /**
    A flush hands everything written so far to the network, and counts it; it ends the buffering
    unless there was nothing.
   */
  lemma FlushHandsOver(k: Keys, w: Writer)
    requires |k.mask| == MASK_LEN
    ensures var f := Run(k, w, [Flush]).w;
      && f.sent == w.sent + w.sendBuf && f.sendBuf == [] && f.bytesSent == w.bytesSent + |w.sendBuf|
      && f.buffering == (w.buffering && w.sendBuf == [])
  {
    assert [Flush][1..] == [];
    assert Run(k, Flushed(w), []) == Nothing(Flushed(w), None);
    assert w.sendBuf == [] ==> w.sent + w.sendBuf == w.sent;
  }

  lemma {:induction false} WriteHeldBack(k: Keys, w: Writer, typ: byte, data: bytes)
    requires |k.mask| == MASK_LEN && w.buffering
    ensures var v := Write(k, w, typ, data).w; v.buffering && v.sent == w.sent && v.bytesSent == w.bytesSent
    decreases |data|
  {
    if data != [] {
      var m := Chunk(w, typ, data);
      var a := One(k, Counted(w, typ), typ, data[..m]);
      if a.stop.None? { WriteHeldBack(k, a.w, typ, data[m..]); }
    }
  }

  /** While records are buffered nothing reaches the network before the next flush. */
  lemma {:induction false} HeldUntilFlush(k: Keys, w: Writer, steps: seq<Step>)
    requires |k.mask| == MASK_LEN && w.buffering && Flush !in steps
    ensures var v := Run(k, w, steps).w; v.buffering && v.sent == w.sent && v.bytesSent == w.bytesSent
    decreases |steps|
  {
    if steps != [] {
      assert steps[0] in steps;
      if steps[0].Send? { WriteHeldBack(k, w, steps[0].typ, steps[0].data); }
      var a := Do(k, w, steps[0]);
      if a.stop.None? { HeldUntilFlush(k, a.w, steps[1..]); }
    }
  }

  lemma {:induction false} WriteGoesOut(k: Keys, w: Writer, typ: byte, data: bytes)
    requires |k.mask| == MASK_LEN && !w.buffering
    ensures var v := Write(k, w, typ, data).w;
      !v.buffering && v.sendBuf == w.sendBuf && v.bytesSent - w.bytesSent == |v.sent| - |w.sent|
    decreases |data|
  {
    if data != [] {
      var m := Chunk(w, typ, data);
      var a := One(k, Counted(w, typ), typ, data[..m]);
      if a.stop.None? { WriteGoesOut(k, a.w, typ, data[m..]); }
    }
  }

  // ---------------------------------------------------------------- coalesced flights

  /** One handshake message: while a buffer is set up it collects everything up to Finished. */
  function Collect(buf: Option<bytes>, message: bytes): (Option<bytes>, Option<bytes>) {
    if buf.None? || message == [] || message[0] == SERVER_HELLO then (buf, Some(message))
    else if message[0] != FINISHED then (Some(buf.value + message), None)
    else (None, Some(buf.value + message))
  }

  /** Messages one after the other; what is handed to the record layer, in order. */
  function CollectAll(buf: Option<bytes>, messages: seq<bytes>): (Option<bytes>, seq<bytes>)
    decreases |messages|
  {
    if messages == [] then (buf, []) else
    var one := Collect(buf, messages[0]);
    var rest := CollectAll(one.0, messages[1..]);
    (rest.0, (if one.1.Some? then [one.1.value] else []) + rest.1)
  }

  function Concat(messages: seq<bytes>): bytes {
    if messages == [] then [] else messages[0] + Concat(messages[1..])
  }

  predicate MidFlight(message: bytes) { message != [] && message[0] != SERVER_HELLO && message[0] != FINISHED }

  /** A buffered flight leaves as one write, its messages in order, and the buffer is gone afterwards. */
  lemma {:induction false} FlightIsOneWrite(buf: bytes, messages: seq<bytes>, finished: bytes)
    requires (forall i :: 0 <= i < |messages| ==> MidFlight(messages[i])) && finished != [] && finished[0] == FINISHED
    ensures CollectAll(Some(buf), messages + [finished]) == (None, [buf + Concat(messages) + finished])
    decreases |messages|
  {
    if messages == [] {
      assert messages + [finished] == [finished] && [finished][1..] == [];
      assert buf + Concat(messages) == buf;
      var one := Collect(Some(buf), finished);
      assert CollectAll(one.0, [finished][1..]) == (None, []);
      assert [one.1.value] + [] == [one.1.value];
    } else {
      assert MidFlight(messages[0]);
      FlightIsOneWrite(buf + messages[0], messages[1..], finished);
      assert (messages + [finished])[0] == messages[0] && (messages + [finished])[1..] == messages[1..] + [finished];
      assert buf + messages[0] + Concat(messages[1..]) == buf + Concat(messages);
      var rest := CollectAll(Some(buf + messages[0]), messages[1..] + [finished]).1;
      assert [] + rest == rest;
    }
  }

  function Held(buf: Option<bytes>): bytes { if buf.Some? then buf.value else [] }

  /** A message goes out ahead of bytes that are still held: only a ServerHello does. */
  predicate Overtakes(buf: Option<bytes>, message: bytes) {
    Held(buf) != [] && message != [] && message[0] == SERVER_HELLO
  }

  /** Some message of the sequence overtakes what is held when it comes. */
  predicate Reorders(buf: Option<bytes>, messages: seq<bytes>)
    decreases |messages|
  {
    messages != [] && (Overtakes(buf, messages[0]) || Reorders(Collect(buf, messages[0]).0, messages[1..]))
  }

  /** What is held does not begin like a ServerHello, which is never held. */
  predicate HoldsNoHello(buf: Option<bytes>) { Held(buf) == [] || Held(buf)[0] != SERVER_HELLO }

  lemma CollectOneKeeps(buf: Option<bytes>, message: bytes)
    ensures !Overtakes(buf, message) ==>
      Held(Collect(buf, message).1) + Held(Collect(buf, message).0) == Held(buf) + message
    ensures multiset(Held(Collect(buf, message).1)) + multiset(Held(Collect(buf, message).0))
      == multiset(Held(buf)) + multiset(message)
    ensures HoldsNoHello(buf) ==> HoldsNoHello(Collect(buf, message).0)
  {
    if message == [] { assert Held(buf) + message == message + Held(buf); }
  }

  lemma ConcatCons(out: Option<bytes>, rest: seq<bytes>)
    ensures Concat((if out.Some? then [out.value] else []) + rest) == Held(out) + Concat(rest)
  {
    if out.Some? {
      assert ([out.value] + rest)[1..] == rest;
    } else {
      assert [] + rest == rest;
    }
  }

  /** A common front can be taken off both sides. */
  lemma Shift(out: bytes, rest: bytes, last: bytes, held: bytes, tail: bytes, buf: bytes, message: bytes)
    requires out + held == buf + message
    ensures out + rest + last == buf + (message + tail) <==> rest + last == held + tail
  {
    var front := out + (rest + last);
    assert out + rest + last == front;
    assert buf + (message + tail) == (buf + message) + tail == out + (held + tail);
    assert front[|out|..] == rest + last && (out + (held + tail))[|out|..] == held + tail;
  }

  /** The record layer's input, in order: what was handed on, then what is still held. */
  function Through(buf: Option<bytes>, messages: seq<bytes>): bytes {
    Concat(CollectAll(buf, messages).1) + Held(CollectAll(buf, messages).0)
  }

  lemma Recount(out: bytes, rest: bytes, last: bytes, held: bytes, tail: bytes, buf: bytes, message: bytes)
    requires multiset(rest + last) == multiset(held + tail)
    requires multiset(out) + multiset(held) == multiset(buf) + multiset(message)
    ensures multiset(out + rest + last) == multiset(buf + (message + tail))
  {
    assert out + rest + last == out + (rest + last) && buf + (message + tail) == buf + message + tail;
    var o, h, t := multiset(out), multiset(held), multiset(tail);
    assert multiset(rest + last) == h + t && multiset(buf + message) == o + h;
    assert o + (h + t) == o + h + t;
  }

  /** Nothing is lost, whatever is written. */
  lemma {:induction false} CollectConserves(buf: Option<bytes>, messages: seq<bytes>)
    ensures multiset(Through(buf, messages)) == multiset(Held(buf) + Concat(messages))
    decreases |messages|
  {
    if messages == [] {
      assert Held(buf) + [] == [] + Held(buf);
    } else {
      var one := Collect(buf, messages[0]);
      CollectConserves(one.0, messages[1..]);
      var rest := CollectAll(one.0, messages[1..]);
      CollectOneKeeps(buf, messages[0]);
      ConcatCons(one.1, rest.1);
      Recount(Held(one.1), Concat(rest.1), Held(rest.0), Held(one.0), Concat(messages[1..]), Held(buf), messages[0]);
    }
  }

  lemma FirstDiffers(out: bytes, rest: bytes, last: bytes, buf: bytes, tail: bytes)
    requires out != [] && buf != [] && out[0] != buf[0]
    ensures out + rest + last != buf + tail
  {
    assert (out + rest + last)[0] == out[0] && (buf + tail)[0] == buf[0];
  }

  /**
    The order is kept if and only if no ServerHello comes while bytes are held: then what was handed
    on, followed by what is still held, is what was written.
   */
  lemma {:induction false} CollectKeeps(buf: Option<bytes>, messages: seq<bytes>)
    requires HoldsNoHello(buf)
    ensures Through(buf, messages) == Held(buf) + Concat(messages) <==> !Reorders(buf, messages)
    decreases |messages|
  {
    if messages == [] {
      assert Held(buf) + [] == [] + Held(buf);
    } else {
      var one := Collect(buf, messages[0]);
      var rest := CollectAll(one.0, messages[1..]);
      CollectOneKeeps(buf, messages[0]);
      ConcatCons(one.1, rest.1);
      if Overtakes(buf, messages[0]) {
        FirstDiffers(Held(one.1), Concat(rest.1), Held(rest.0), Held(buf), Concat(messages));
      } else {
        CollectKeeps(one.0, messages[1..]);
        Shift(Held(one.1), Concat(rest.1), Held(rest.0), Held(one.0), Concat(messages[1..]), Held(buf), messages[0]);
      }
    }
  }
}
