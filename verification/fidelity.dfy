/** From an observed profile to the records the server sends: the lengths that are imitated, end to end. */
module Fidelity {
  import opened Wire
  import opened Amortize
  import Aead
  import Record
  import RecordRun
  import RecordConn
  import CertPlan

  /** Lengths under an explicit mode: coalesced ones need a large first encrypted record. */
  predicate ValidLensIn(lens: Lens, mode: byte) {
    ValidLens(lens) && (mode == Record.COALESCED && lens[2] != 0 ==> lens[2] > 512)
  }

  method ValidateRecordLensMode(lens: Lens, mode: byte) returns (ok: bool)
    ensures ok == ValidLensIn(lens, mode)
  {
    for i := 0 to 7
      invariant forall j :: 0 <= j < i ==> lens[j] == 0 || 5 <= lens[j] <= 16384
    {
      if lens[i] != 0 && (lens[i] < 5 || lens[i] > 16384) { return false; }
    }
    if lens[1] != 0 && lens[1] != 6 { return false; }
    if mode == Record.COALESCED && lens[2] != 0 && lens[2] <= 512 { return false; }
    return true;
  }

  /** The slots a profile arms the record layer with. */
  function SlotsOf(lens: Lens): Record.Slots
    requires ValidLens(lens)
  {
    seq(7, i requires 0 <= i < 7 => lens[i])
  }

  /**
    Under the mode the lengths themselves suggest, only the lengths decide; valid ones can serve as
    record slots, and arm them exactly when the target sent a change_cipher_spec.
   */
  lemma ValidLensSuffice(lens: Lens)
    ensures ValidLensIn(lens, InferMode(lens)) <==> ValidLens(lens)
    ensures ValidLens(lens) ==>
      RecordRun.SmallSlots(SlotsOf(lens)) && (Record.Armed(SlotsOf(lens), Record.HANDSHAKE) <==> lens[1] == 6)
  {
  }

  /**
    An explicit mode adds one condition: lengths are valid for coalesced flights exactly when they are
    valid at all and would be taken for such a flight, or tell nothing of the first encrypted record.
   */
  lemma ModeAdds(lens: Lens)
    ensures ValidLensIn(lens, Record.SPLIT) <==> ValidLens(lens)
    ensures ValidLensIn(lens, Record.COALESCED) <==> ValidLens(lens) && (lens[2] == 0 || InferMode(lens) == 1)
    ensures InferMode(lens) == 1 <==> lens[2] >= 513
  {
  }

  /** A handshake message, not a ticket, that its slot can take. */
  predicate Takes(w: RecordRun.Writer, message: bytes) {
    && 0 < |message| <= Record.MAX_PLAINTEXT && message[0] != Record.NEW_SESSION_TICKET
    && 0 <= Record.Padding(w.slots, Record.HANDSHAKE, message) <= Record.ZERO_BUFFER_LEN
    && w.n + 1 < Limit(Aead.SEQ_LEN)
  }

  /** While the slots are armed such a message goes out whole, in one record of exactly its slot's length. */
  lemma RecordImitates(k: Record.Keys, w: RecordRun.Writer, message: bytes)
    requires k.Valid() && w.Tidy() && Record.Armed(w.slots, Record.HANDSHAKE) && Takes(w, message)
    ensures var r := RecordRun.Write(k, w, Record.HANDSHAKE, message);
      && r.stop.None? && r.pieces == [(Record.HANDSHAKE, message)]
      && |r.records| == 1 && |r.records[0]| == Record.Target(w.slots, message[0])
  {
    RecordRun.MessageArrives(k, w, message);
    assert message[..|message|] == message;
    Record.OpenUndoesSeal(k, w.n, w.slots, Record.HANDSHAKE, message);
    var a := RecordRun.One(k, w, Record.HANDSHAKE, message);
    assert RecordRun.Write(k, a.w, Record.HANDSHAKE, message[|message|..]).records == [];
  }

  /** A message longer than a record is cut, and its first piece is longer than any slot. */
  lemma LongRefused(k: Record.Keys, w: RecordRun.Writer, message: bytes)
    requires |k.mask| == Aead.MASK_LEN && w.Tidy() && Record.Armed(w.slots, Record.HANDSHAKE)
    requires |message| > Record.MAX_PLAINTEXT
    ensures var r := RecordRun.Write(k, w, Record.HANDSHAKE, message);
      r.stop == Some(Record.TooLong) && r.records == [] && r.pieces == []
  {
    assert message[..Record.MAX_PLAINTEXT][0] == message[0];
  }

  /** Header, content type, tag and padding make up the slot. */
  function Slack(slots: Record.Slots, message: byte, len: nat): int {
    Record.Target(slots, message) - (CertPlan.RECORD_OVERHEAD + len)
  }

  /**
    What becomes of a handshake message while the slots are armed: one record of exactly its slot's
    length, or nothing.
   */
  ghost predicate Outcome(k: Record.Keys, w: RecordRun.Writer, message: bytes, slack: int)
    requires |k.mask| == Aead.MASK_LEN && message != []
  {
    var r := RecordRun.Write(k, w, Record.HANDSHAKE, message);
    if 0 <= slack <= Record.ZERO_BUFFER_LEN && w.n + 1 < Limit(Aead.SEQ_LEN)
    then && r.stop.None? && r.pieces == [(Record.HANDSHAKE, message)]
         && |r.records| == 1 && |r.records[0]| == Record.Target(w.slots, message[0])
    else r.records == [] && r.pieces == [] && r.stop == Some(if slack < 0 then Record.TooLong else Record.Panic)
  }

  lemma MessageOutcome(k: Record.Keys, w: RecordRun.Writer, message: bytes)
    requires k.Valid() && w.Tidy() && Record.Armed(w.slots, Record.HANDSHAKE)
    requires message != [] && message[0] != Record.NEW_SESSION_TICKET
    ensures Outcome(k, w, message, Slack(w.slots, message[0], |message|))
  {
    if |message| > Record.MAX_PLAINTEXT {
      LongRefused(k, w, message);
    } else {
      RecordRun.MessageArrives(k, w, message);
      if Takes(w, message) { RecordImitates(k, w, message); }
    }
  }

  /**
    The Certificate record, authenticator and signature written: exactly as long as the target's if
    the planned length leaves the slot some slack the zero buffer can fill, and not sent otherwise.
   */
  lemma CertificateImitates(k: Record.Keys, w: RecordRun.Writer, p: CertPlan.Plan, certs: seq<bytes>)
    requires k.Valid() && w.Tidy() && Record.Armed(w.slots, Record.HANDSHAKE) && p.Exact() && CertPlan.Filled(p, certs)
    ensures |CertPlan.CertificateMsg(certs).result| == p.inner > 0
    ensures Outcome(k, w, CertPlan.CertificateMsg(certs).result, w.slots[3] - (CertPlan.RECORD_OVERHEAD + p.inner))
  {
    CertPlan.FilledLength(p, certs);
    MessageOutcome(k, w, CertPlan.CertificateMsg(certs).result);
  }

  /** A coalesced flight: one record as long as the target's under the same condition on all its messages together. */
  lemma FlightImitates(k: Record.Keys, w: RecordRun.Writer, p: CertPlan.Plan, certs: seq<bytes>, ee: bytes, cv: bytes,
      finished: bytes)
    requires k.Valid() && w.Tidy() && Record.Armed(w.slots, Record.HANDSHAKE) && p.Exact() && CertPlan.Filled(p, certs)
    requires ee != [] && ee[0] == Record.ENCRYPTED_EXTENSIONS
    ensures Outcome(k, w, ee + CertPlan.CertificateMsg(certs).result + cv + finished,
                    w.slots[2] - (CertPlan.RECORD_OVERHEAD + |ee| + p.inner + |cv| + |finished|))
  {
    CertPlan.FilledLength(p, certs);
    var flight := ee + CertPlan.CertificateMsg(certs).result + cv + finished;
    assert flight[0] == ee[0];
    MessageOutcome(k, w, flight);
  }

  /** Within its budget, with the other messages within reserve and safety, a flight is never refused for its length. */
  lemma FlightWithinReserve(slots: Record.Slots, p: CertPlan.Plan, p90: Option<int>, rest: nat)
    requires CertPlan.CoalescedBudgetFor(slots[2], p90) > 0
    requires CertPlan.Fits(Record.COALESCED, p, CertPlan.CoalescedBudgetFor(slots[2], p90))
    requires rest <= CertPlan.Reserve(p90) + CertPlan.FLIGHT_SAFETY
    ensures slots[2] - (CertPlan.RECORD_OVERHEAD + p.inner + rest) >= 0
  {
  }

  // ---------------------------------------------------------------- choosing and sending

  lemma RecordSent(k: Record.Keys, w: RecordRun.Writer, message: bytes)
    requires k.Valid() && w.Tidy()
    ensures var r := RecordRun.Write(k, w, Record.HANDSHAKE, message);
      && w.Wire() <= r.w.Wire()
      && RecordRun.ReadStream(k, w.n, r.w.Wire()[|w.Wire()|..]) == Some(r.pieces)
      && (|r.records| == 1 ==> |r.w.Wire()| == |w.Wire()| + |r.records[0]|)
      && (r.records == [] ==> r.w.Wire() == w.Wire())
  {
    RecordRun.WriteIsGood(k, w, Record.HANDSHAKE, message);
    var r := RecordRun.Write(k, w, Record.HANDSHAKE, message);
    RecordRun.GoodReads(k, w, r);
    if |r.records| == 1 { assert r.records[1..] == []; }
  }

  /**
    From w, the certificates are refused or leave as one record as long as slot 3, which the peer
    reads as the Certificate message.
   */
  ghost predicate CertificateSent(k: Record.Keys, w: RecordRun.Writer, p: CertPlan.Plan, certs: seq<bytes>,
                                  stop: Option<Record.Sealed>, after: RecordRun.Writer)
    requires |k.mask| == Aead.MASK_LEN
  {
    var slack := w.slots[3] - (CertPlan.RECORD_OVERHEAD + p.inner);
    && stop == (if slack < 0 then Some(Record.TooLong)
                else if slack > Record.ZERO_BUFFER_LEN || w.n + 1 >= Limit(Aead.SEQ_LEN) then Some(Record.Panic)
                else None)
    && (stop == Some(Record.TooLong) ==> after.Wire() == w.Wire())
    && (stop == None ==>
      && w.Wire() <= after.Wire() && |after.Wire()| == |w.Wire()| + w.slots[3]
      && RecordRun.ReadStream(k, w.n, after.Wire()[|w.Wire()|..])
         == Some([(Record.HANDSHAKE, CertPlan.CertificateMsg(certs).result)]))
  }

  lemma CertificateResult(k: Record.Keys, w: RecordRun.Writer, p: CertPlan.Plan, certs: seq<bytes>)
    requires k.Valid() && w.Tidy() && Record.Armed(w.slots, Record.HANDSHAKE) && p.Exact() && CertPlan.Filled(p, certs)
    ensures var r := RecordRun.Write(k, w, Record.HANDSHAKE, CertPlan.CertificateMsg(certs).result);
      CertificateSent(k, w, p, certs, r.stop, r.w)
  {
    CertificateImitates(k, w, p, certs);
    CertPlan.FilledLength(p, certs);
    RecordSent(k, w, CertPlan.CertificateMsg(certs).result);
  }

  /** The plan for a budget, authenticator and signature written. */
  method ChooseCertificate(cache: CertPlan.PlanCache, mk: CertPlan.Maker, budget: int, mldsa: bool, mode: byte,
                           meta: nat, shape: Option<CertPlan.Shape>, mac: bytes, signature: Option<bytes>)
    returns (p: CertPlan.Plan, certs: Option<seq<bytes>>)
    requires cache.Valid() && cache.fallback.Of(mldsa).Some? && cache.fallback.Of(mldsa).value.Sound()
    requires |mac| == CertPlan.MAC_LEN && (signature.Some? ==> |signature.value| == CertPlan.MLDSA_LEN)
    modifies cache
    ensures cache.Valid() && p.Sound() && (certs.Some? ==> CertPlan.Filled(p, certs.value))
    ensures certs.None? <==> CertPlan.Signs(p, signature) && p.mldsaAt + CertPlan.MLDSA_LEN > |p.leaf|
    ensures CertPlan.Fits(mode, cache.fallback.Of(mldsa).value, budget) ==> CertPlan.Fits(mode, p, budget)
  {
    var plan := cache.ServerPlan(mk, budget, mldsa, mode, meta, shape);
    p := plan.value;
    certs := CertPlan.Materialize(p, mac, signature);
  }

  /**
    The server's Certificate with a record of its own: choose a plan for slot 3, fill it in, send it.
    Where the historical certificate fits the slot, length is never a reason to refuse.
   */
  method SendCertificate(cache: CertPlan.PlanCache, conn: RecordConn.Conn, mk: CertPlan.Maker, mldsa: bool, meta: nat,
                         shape: Option<CertPlan.Shape>, mac: bytes, signature: Option<bytes>)
    returns (p: CertPlan.Plan, certs: Option<seq<bytes>>, stop: Option<Record.Sealed>)
    requires cache.Valid() && conn.Valid() && conn.out.Key().Valid() && conn.State().Tidy()
    requires conn.handshakeBuf == None && conn.State().slots[2] <= 512
      && Record.Armed(conn.State().slots, Record.HANDSHAKE)
    requires cache.fallback.Of(mldsa).Some? && cache.fallback.Of(mldsa).value.Sound()
    requires |mac| == CertPlan.MAC_LEN && (signature.Some? ==> |signature.value| == CertPlan.MLDSA_LEN)
    modifies cache, conn`packetsSent, conn`sent, conn`sendBuf, conn`bytesSent, conn`handshakeBuf
    modifies conn.out.seqNum, conn.out.handshakeLen, conn.out.aead.nonceMask
    ensures cache.Valid() && p.Sound()
    ensures certs.None? <==> CertPlan.Signs(p, signature) && p.mldsaAt + CertPlan.MLDSA_LEN > |p.leaf|
    ensures certs.None? ==> stop == None && conn.State() == old(conn.State())
    ensures certs.Some? ==> CertPlan.Filled(p, certs.value)
    ensures certs.Some? ==> CertificateSent(old(conn.out.Key()), old(conn.State()), p, certs.value, stop, conn.State())
    ensures var slot := old(conn.State()).slots[3];
      slot > 0 && CertPlan.Fits(Record.SPLIT, cache.fallback.Of(mldsa).value, slot) ==> stop != Some(Record.TooLong)
  {
    ghost var k, w := conn.out.Key(), conn.State();
    p, certs := ChooseCertificate(cache, mk, conn.out.handshakeLen[3], mldsa, Record.SPLIT, meta, shape, mac,
      signature);
    stop := None;
    if certs.None? { return; }
    CertificateResult(k, w, p, certs.value);
    stop := conn.WriteHandshakeRecord(CertPlan.CertificateMsg(certs.value).result);
  }
}
