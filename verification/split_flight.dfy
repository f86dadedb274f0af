/**
  A flight of one record per message, each as long as the target's: the whole of it, or up to the
  message that is refused.
 */
module SplitFlight {
  import opened Wire
  import opened Aead
  import opened Record
  import opened RecordRun
  import opened Fidelity

  /** The messages of a flight, each with the place of its slot; no slot is used twice. */
  predicate Flight(messages: seq<bytes>, places: seq<nat>) {
    && |messages| == |places|
    && (forall i :: 0 <= i < |messages| ==>
          messages[i] != [] && places[i] < 6 && SlotOf(messages[i][0]) == Some(places[i]))
    && (forall i, j :: 0 <= i < j < |places| ==> places[i] != places[j])
  }

  function Sends(messages: seq<bytes>): seq<Step> {
    if messages == [] then [] else [Send(HANDSHAKE, messages[0])] + Sends(messages[1..])
  }

  /**
    A record of `slot` bytes can carry a message of `len` bytes as record number n: header, type,
    tag and zeros fill it up.
   */
  predicate Carries(slot: nat, len: nat, n: nat) { 22 + len <= slot <= 22 + len + 8192 && n + 1 < Limit(SEQ_LEN) }

  function Refusal(slot: nat, len: nat): Sealed { if slot < 22 + len then TooLong else Panic }

  /** One record per message, as long as the message's slot, up to the first message its slot cannot carry. */
  ghost predicate Imitated(n: nat, slots: Slots, messages: seq<bytes>, places: seq<nat>, r: Written)
    requires Flight(messages, places)
  {
    && |r.pieces| == |r.records| <= |messages|
    && (forall i :: 0 <= i < |r.records| ==>
          && |r.records[i]| == slots[places[i]] && r.pieces[i] == (HANDSHAKE, messages[i])
          && Carries(slots[places[i]], |messages[i]|, n + i))
    && var j := |r.records|;
      if j == |messages| then r.stop == None
      else r.stop == Some(Refusal(slots[places[j]], |messages[j]|)) && !Carries(slots[places[j]], |messages[j]|, n + j)
  }

  /** One message: sent into its slot, which is then used up while the others stay, or refused. */
  lemma OneMessage(k: Keys, w: Writer, message: bytes, place: nat)
    requires k.Valid() && w.Tidy() && Armed(w.slots, HANDSHAKE)
    requires message != [] && place < 6 && SlotOf(message[0]) == Some(place)
    ensures var r, slot := Write(k, w, HANDSHAKE, message), w.slots[place];
      if Carries(slot, |message|, w.n) then
        && r.stop == None && r.pieces == [(HANDSHAKE, message)] && |r.records| == 1 && |r.records[0]| == slot
        && r.w.slots == w.slots[place := 0] && r.w.n == w.n + 1 && r.w.Tidy()
      else r.records == [] && r.pieces == [] && r.stop == Some(Refusal(slot, |message|))
  {
    MessageOutcome(k, w, message);
    WriteIsGood(k, w, HANDSHAKE, message);
    if Carries(w.slots[place], |message|, w.n) { SlotsAfterOne(k, w, message); }
  }

  lemma SlotsAfterOne(k: Keys, w: Writer, message: bytes)
    requires |k.mask| == MASK_LEN && 0 < |message| <= MAX_PLAINTEXT && Write(k, w, HANDSHAKE, message).stop == None
    ensures Write(k, w, HANDSHAKE, message).w.slots == SlotsAfter(w.slots, HANDSHAKE, message)
  {
    assert message[..|message|] == message;
    var a := One(k, w, HANDSHAKE, message);
    assert Write(k, a.w, HANDSHAKE, message[|message|..]) == Nothing(a.w, None);
  }

  lemma FlightTail(messages: seq<bytes>, places: seq<nat>)
    requires Flight(messages, places) && messages != []
    ensures Flight(messages[1..], places[1..])
  {
  }

  lemma ImitatedJoin(n: nat, slots: Slots, messages: seq<bytes>, places: seq<nat>, a: Written, b: Written)
    requires Flight(messages, places) && messages != [] && Flight(messages[1..], places[1..])
    requires a.pieces == [(HANDSHAKE, messages[0])] && |a.records| == 1 && |a.records[0]| == slots[places[0]]
    requires Carries(slots[places[0]], |messages[0]|, n)
    requires Imitated(n + 1, slots[places[0] := 0], messages[1..], places[1..], b)
    ensures Imitated(n, slots, messages, places, Join(a, b))
  {
    var r, slots' := Join(a, b), slots[places[0] := 0];
    forall i | 0 < i < |messages|
      ensures places[1..][i - 1] == places[i] && messages[1..][i - 1] == messages[i]
        && slots'[places[i]] == slots[places[i]]
    {
    }
    forall i | 0 <= i < |r.records|
      ensures |r.records[i]| == slots[places[i]] && r.pieces[i] == (HANDSHAKE, messages[i])
      ensures Carries(slots[places[i]], |messages[i]|, n + i)
    {
      if i > 0 {
        assert r.records[i] == b.records[i - 1] && r.pieces[i] == b.pieces[i - 1];
        assert Carries(slots'[places[1..][i - 1]], |messages[1..][i - 1]|, n + 1 + (i - 1));
      }
    }
    var j := |b.records|;
    if j < |messages[1..]| { assert n + 1 + j == n + (j + 1); }
  }

  lemma ImitatedNone(n: nat, slots: Slots, messages: seq<bytes>, places: seq<nat>, r: Written)
    requires Flight(messages, places) && messages != [] && r.records == [] && r.pieces == []
    requires r.stop == Some(Refusal(slots[places[0]], |messages[0]|)) && !Carries(slots[places[0]], |messages[0]|, n)
    ensures Imitated(n, slots, messages, places, r)
  {
  }

  lemma RunSends(k: Keys, w: Writer, messages: seq<bytes>)
    requires |k.mask| == MASK_LEN && messages != []
    ensures var a := Write(k, w, HANDSHAKE, messages[0]);
      Run(k, w, Sends(messages)) == if a.stop.Some? then a else Join(a, Run(k, a.w, Sends(messages[1..])))
  {
    var steps := Sends(messages);
    assert steps[0] == Send(HANDSHAKE, messages[0]) && steps[1..] == Sends(messages[1..]);
  }

  lemma FirstPlace(messages: seq<bytes>, places: seq<nat>)
    requires Flight(messages, places) && messages != []
    ensures messages[0] != [] && places[0] < 6 && SlotOf(messages[0][0]) == Some(places[0]) && places[0] != 1
  {
  }

  lemma {:induction false} FlightRun(k: Keys, w: Writer, messages: seq<bytes>, places: seq<nat>)
    requires k.Valid() && w.Tidy() && Armed(w.slots, HANDSHAKE) && Flight(messages, places)
    ensures Imitated(w.n, w.slots, messages, places, Run(k, w, Sends(messages)))
    decreases |messages|
  {
    if messages != [] {
      FirstPlace(messages, places);
      OneMessage(k, w, messages[0], places[0]);
      RunSends(k, w, messages);
      var a := Write(k, w, HANDSHAKE, messages[0]);
      if a.stop == None {
        FlightTail(messages, places);
        FlightRun(k, a.w, messages[1..], places[1..]);
        ImitatedJoin(w.n, w.slots, messages, places, a, Run(k, a.w, Sends(messages[1..])));
      } else {
        ImitatedNone(w.n, w.slots, messages, places, a);
      }
    }
  }

  /**
    The server's flight with a record of its own for each message. EncryptedExtensions (type 8),
    Certificate (11), CertificateVerify (15) and Finished (20) leave as records of exactly the lengths
    in slots 2, 3, 4 and 5, up to the first that its slot cannot carry; that one is refused because it
    is too long, or because its padding or its number runs out, and nothing of it is sent.
   */
  lemma SplitFlightImitates(k: Keys, w: Writer, ee: bytes, cert: bytes, verify: bytes, finished: bytes)
    requires k.Valid() && w.Tidy() && Armed(w.slots, HANDSHAKE)
    requires ee != [] && ee[0] == 8 && cert != [] && cert[0] == 11
    requires verify != [] && verify[0] == 15 && finished != [] && finished[0] == 20
    ensures Flight([ee, cert, verify, finished], [2, 3, 4, 5])
    ensures Imitated(w.n, w.slots, [ee, cert, verify, finished], [2, 3, 4, 5],
                     Run(k, w, [Send(22, ee), Send(22, cert), Send(22, verify), Send(22, finished)]))
  {
    var messages := [ee, cert, verify, finished];
    assert Flight(messages, [2, 3, 4, 5]);
    FlightRun(k, w, messages, [2, 3, 4, 5]);
    SendsOf(ee, cert, verify, finished);
  }

  lemma SendsOf(a: bytes, b: bytes, c: bytes, d: bytes)
    ensures Sends([a, b, c, d]) == [Send(22, a), Send(22, b), Send(22, c), Send(22, d)]
  {
    assert [a, b, c, d][1..] == [b, c, d] && [b, c, d][1..] == [c, d] && [c, d][1..] == [d] && [d][1..] == [];
    assert Sends([d]) == [Send(22, d)];
    assert Sends([c, d]) == [Send(22, c), Send(22, d)];
    assert Sends([b, c, d]) == [Send(22, b), Send(22, c), Send(22, d)];
  }

  /** Where every slot carries its message, all four are sent. */
  lemma WholeFlight(k: Keys, w: Writer, ee: bytes, cert: bytes, verify: bytes, finished: bytes)
    requires k.Valid() && w.Tidy() && w.slots[1] != 0
    requires ee != [] && ee[0] == 8 && cert != [] && cert[0] == 11
    requires verify != [] && verify[0] == 15 && finished != [] && finished[0] == 20
    requires Carries(w.slots[2], |ee|, w.n) && Carries(w.slots[3], |cert|, w.n + 1)
    requires Carries(w.slots[4], |verify|, w.n + 2) && Carries(w.slots[5], |finished|, w.n + 3)
    ensures var r := Run(k, w, [Send(22, ee), Send(22, cert), Send(22, verify), Send(22, finished)]);
      && r.stop == None && r.pieces == [(22, ee), (22, cert), (22, verify), (22, finished)] && |r.records| == 4
      && |r.records[0]| == w.slots[2] && |r.records[1]| == w.slots[3]
      && |r.records[2]| == w.slots[4] && |r.records[3]| == w.slots[5]
  {
    SplitFlightImitates(k, w, ee, cert, verify, finished);
    var r := Run(k, w, [Send(22, ee), Send(22, cert), Send(22, verify), Send(22, finished)]);
    ImitatedAll(w.n, w.slots, ee, cert, verify, finished, r);
  }

  lemma ImitatedAll(n: nat, slots: Slots, ee: bytes, cert: bytes, verify: bytes, finished: bytes, r: Written)
    requires Flight([ee, cert, verify, finished], [2, 3, 4, 5])
    requires Imitated(n, slots, [ee, cert, verify, finished], [2, 3, 4, 5], r)
    requires Carries(slots[2], |ee|, n) && Carries(slots[3], |cert|, n + 1)
    requires Carries(slots[4], |verify|, n + 2) && Carries(slots[5], |finished|, n + 3)
    ensures r.stop == None && r.pieces == [(22, ee), (22, cert), (22, verify), (22, finished)] && |r.records| == 4
    ensures |r.records[0]| == slots[2] && |r.records[1]| == slots[3]
    ensures |r.records[2]| == slots[4] && |r.records[3]| == slots[5]
  {
    var messages, places := [ee, cert, verify, finished], [2, 3, 4, 5];
    assert forall j :: 0 <= j < 4 ==> Carries(slots[places[j]], |messages[j]|, n + j);
    assert |r.records| == 4;
    assert r.pieces[0] == (22, messages[0]) && r.pieces[1] == (22, messages[1]);
    assert r.pieces[2] == (22, messages[2]) && r.pieces[3] == (22, messages[3]);
  }

  /** A session ticket (type 4) takes slot 6: one record of that length, or none. */
  lemma TicketImitates(k: Keys, w: Writer, ticket: bytes)
    requires k.Valid() && w.Tidy() && w.slots[1] != 0 && 0 < |ticket| <= 16384 && ticket[0] == 4
    ensures var r := One(k, w, 22, ticket);
      if Carries(w.slots[6], |ticket|, w.n)
      then r.stop == None && |r.records| == 1 && |r.records[0]| == w.slots[6] && r.w.slots == w.slots[6 := 0]
      else r.records == [] && r.stop == Some(Refusal(w.slots[6], |ticket|))
  {
    if Carries(w.slots[6], |ticket|, w.n) { OpenUndoesSeal(k, w.n, w.slots, 22, ticket); }
  }

  /**
    Any other handshake message, such as a CertificateRequest (13) or a KeyUpdate (24), is refused
    while slots are armed.
   */
  lemma NoSlotRefused(k: Keys, w: Writer, message: bytes)
    requires |k.mask| == MASK_LEN && w.slots[1] != 0 && message != [] && message[0] !in {8, 11, 15, 20, 4}
    ensures var r := One(k, w, 22, message); r.stop == Some(TooLong) && r.records == [] && r.w.slots == w.slots
  {
  }
}
