/** The connection's record layer as it is written: counters, slots and buffers updated in place. */
module RecordConn {
  import opened Wire
  import opened Nonce
  import opened Aead
  import opened Record
  import opened RecordRun

  /** The content type is found scanning from the end. */
  method FindType(plain: bytes) returns (r: Option<(byte, bytes)>)
    ensures r == Strip(plain)
  {
    var i := |plain|;
    assert plain[..i] == plain;
    while i > 0
      invariant 0 <= i <= |plain| && Strip(plain) == Strip(plain[..i])
    {
      i := i - 1;
      assert plain[..i + 1][..i] == plain[..i];
      if plain[i] != 0 { return Some((plain[i], plain[..i])); }
    }
    return None;
  }

  lemma {:induction false} ZeroNumber(s: bytes)
    requires forall i :: 0 <= i < |s| ==> s[i] == 0
    ensures Get(s) == 0
  {
    if s != [] { ZeroNumber(s[..|s| - 1]); }
  }

  lemma SealedText(slots: Slots, typ: byte, payload: bytes, first: bytes)
    requires payload != [] && |first| == HEADER_LEN && Padding(slots, typ, payload) >= 0
    ensures var record := first + payload + [typ];
      var marked := if Armed(slots, typ) && payload[0] == NEW_SESSION_TICKET
                    then record[5 := APPLICATION_DATA][6 := 0] else record;
      marked[..HEADER_LEN] == first && marked[HEADER_LEN..] == Content(slots, typ, payload)
  {
    var record := first + payload + [typ];
    assert record[HEADER_LEN..] == payload + [typ];
    assert record[..HEADER_LEN] == first;
  }

  /** One direction of a connection under one traffic key. */
  class HalfConn {
    const aead: XorNonceAead
    const seqNum: array<byte>
    const handshakeLen: array<nat>

    ghost predicate Valid() {
      seqNum.Length == SEQ_LEN && handshakeLen.Length == 7 && aead.nonceMask.Length == MASK_LEN
        && seqNum != aead.nonceMask
    }

    ghost function Key(): (k: Keys)
      requires Valid()
      reads aead.nonceMask
      ensures |k.mask| == MASK_LEN
    {
      Keys(aead.cipher, aead.nonceMask[..])
    }

    ghost function Number(): nat
      reads seqNum
    {
      Get(seqNum[..])
    }

    ghost function Lens(): Slots
      requires Valid()
      reads handshakeLen
    {
      handshakeLen[..]
    }

    /** A new key starts a new epoch: the sequence number is zero again. */
    constructor (cipher: Cipher, mask: bytes)
      requires |mask| == MASK_LEN
      ensures Valid() && fresh(seqNum) && fresh(handshakeLen) && fresh(aead) && fresh(aead.nonceMask)
      ensures Key() == Keys(cipher, mask) && Number() == 0 && Lens() == [0, 0, 0, 0, 0, 0, 0]
    {
      aead := new XorNonceAead(cipher, mask);
      seqNum := new byte[SEQ_LEN](i => 0);
      handshakeLen := new nat[7](i => 0);
      new;
      ZeroNumber(seqNum[..]);
    }

    /** The length to imitate for this message; each is handed out once. */
    method TakeSlot(message: byte) returns (n: nat)
      requires Valid()
      modifies handshakeLen
      ensures n == Target(old(Lens()), message)
      ensures Lens() == match SlotOf(message) case None => old(Lens()) case Some(k) => old(Lens())[k := 0]
    {
      if message == ENCRYPTED_EXTENSIONS { n := handshakeLen[2]; handshakeLen[2] := 0; }
      else if message == CERTIFICATE { n := handshakeLen[3]; handshakeLen[3] := 0; }
      else if message == CERTIFICATE_VERIFY { n := handshakeLen[4]; handshakeLen[4] := 0; }
      else if message == FINISHED { n := handshakeLen[5]; handshakeLen[5] := 0; }
      else if message == NEW_SESSION_TICKET { n := handshakeLen[6]; handshakeLen[6] := 0; }
      else { n := 0; }
    }

    /** Appends content type and padding; the padding is negative when the payload is longer than its slot. */
    method Pad(first: bytes, typ: byte, payload: bytes) returns (padding: int, text: bytes)
      requires Valid() && payload != [] && |first| == HEADER_LEN
      modifies handshakeLen
      ensures Lens() == SlotsAfter(old(Lens()), typ, payload)
      ensures padding == Padding(old(Lens()), typ, payload)
      ensures 0 <= padding <= ZERO_BUFFER_LEN ==> text == Inner(old(Lens()), typ, payload)
    {
      var record := first + payload + [typ];
      padding := 0;
      if typ == HANDSHAKE && handshakeLen[1] != 0 {
        padding := TakeSlot(payload[0]);
        if payload[0] == NEW_SESSION_TICKET { record := record[5 := APPLICATION_DATA][6 := 0]; }
        padding := padding - (|record| + OVERHEAD);
      }
      text := [];
      if 0 <= padding <= ZERO_BUFFER_LEN {
        SealedText(old(Lens()), typ, payload, first);
        text := record[HEADER_LEN..] + Zeros(padding);
      }
    }

    method EncryptRecord(first: bytes, typ: byte, payload: bytes) returns (r: Sealed)
      requires Valid() && payload != [] && |first| == HEADER_LEN
      modifies seqNum, handshakeLen, aead.nonceMask
      ensures Key() == old(Key()) && Lens() == SlotsAfter(old(Lens()), typ, payload)
      ensures r == Encrypt(old(Key()), old(Number()), old(Lens()), typ, payload)
      ensures r.Sealed? ==> Number() == old(Number()) + 1
      ensures r.TooLong? ==> Number() == old(Number())
    {
      var padding, text := Pad(first, typ, payload);
      if padding < 0 { return TooLong; }
      if padding > ZERO_BUFFER_LEN { return Panic; }
      var header := Header(|text| + OVERHEAD);
      PutGet(seqNum[..]);
      var sealed := aead.Seal(seqNum[..], text, header);
      IncIs(seqNum[..]);
      var ok := IncSeq(seqNum);
      r := if ok then Sealed(header + sealed) else Panic;
    }

    method DecryptRecord(record: bytes) returns (r: Opened)
      requires Valid() && |record| >= HEADER_LEN
      modifies seqNum, aead.nonceMask
      ensures Key() == old(Key()) && r == Decrypt(old(Key()), old(Number()), record)
      ensures r.Opened? && record[0] != CHANGE_CIPHER_SPEC ==> Number() == old(Number()) + 1
      ensures r.Refused? || record[0] == CHANGE_CIPHER_SPEC ==> Number() == old(Number())
    {
      var typ := record[0];
      if typ == CHANGE_CIPHER_SPEC { return Opened(typ, record[HEADER_LEN..]); }
      PutGet(seqNum[..]);
      var text := aead.Open(seqNum[..], record[HEADER_LEN..], record[..HEADER_LEN]);
      if text.None? { return Refused(BadRecordMac); }
      var plain := text.value;
      if typ != APPLICATION_DATA { return Refused(UnexpectedMessage); }
      if |plain| > MAX_PLAINTEXT + 1 { return Refused(RecordOverflow); }
      if plain != [] {
        var found := FindType(plain);
        if found.None? { return Refused(UnexpectedMessage); }
        typ, plain := found.value.0, found.value.1;
      }
      IncIs(seqNum[..]);
      var ok := IncSeq(seqNum);
      r := if ok then Opened(typ, plain) else Wrapped;
    }
  }

  lemma JoinAssociates(a: Written, b: Written, c: Written)
    ensures Join(Join(a, b), c) == Join(a, Join(b, c))
  {
  }

  /** The writing side of a connection in one TLS 1.3 epoch. */
  class Conn {
    const out: HalfConn
    var packetsSent: nat
    var bytesSent: nat
    var fixedSize: bool
    var buffering: bool
    var sent: bytes
    var sendBuf: bytes
    var handshakeBuf: Option<bytes>

    ghost predicate Valid() { out.Valid() }

    ghost function State(): Writer
      requires Valid()
      reads this, out.seqNum, out.handshakeLen
    {
      Writer(out.Number(), out.Lens(), packetsSent, bytesSent, fixedSize, buffering, sent, sendBuf)
    }

    constructor (out: HalfConn, fixedSize: bool)
      requires out.Valid()
      ensures Valid() && this.out == out && handshakeBuf == None
      ensures State() == Writer(out.Number(), out.Lens(), 0, 0, fixedSize, false, [], [])
    {
      this.out := out;
      packetsSent, bytesSent, this.fixedSize, buffering := 0, 0, fixedSize, false;
      sent, sendBuf, handshakeBuf := [], [], None;
    }

    method MaxPayloadSizeForWrite(typ: byte) returns (n: nat)
      requires Valid()
      modifies this`packetsSent
      ensures n == MaxPayload(old(State()), typ) && State() == Counted(old(State()), typ)
    {
      if fixedSize || typ != APPLICATION_DATA || bytesSent >= BOOST_THRESHOLD { return MAX_PLAINTEXT; }
      var payloadBytes := TCP_MSS - HEADER_LEN - OVERHEAD - 1;
      var pkt := packetsSent;
      packetsSent := packetsSent + 1;
      if pkt > 1000 { return MAX_PLAINTEXT; }
      n := payloadBytes * (pkt + 1);
      if n > MAX_PLAINTEXT { n := MAX_PLAINTEXT; }
    }

    method WriteBytes(data: bytes)
      requires Valid()
      modifies this`sent, this`sendBuf, this`bytesSent
      ensures State() == Emit(old(State()), data)
    {
      if buffering {
        sendBuf := sendBuf + data;
      } else {
        sent := sent + data;
        bytesSent := bytesSent + |data|;
      }
    }

    method Flush()
      requires Valid()
      modifies this`sent, this`sendBuf, this`bytesSent, this`buffering
      ensures State() == Flushed(old(State()))
    {
      if sendBuf == [] { return; }
      sent, bytesSent := sent + sendBuf, bytesSent + |sendBuf|;
      sendBuf, buffering := [], false;
    }

    /** One record: seal it and write it out. */
    method WriteOne(typ: byte, piece: bytes) returns (stop: Option<Sealed>)
      requires Valid() && piece != []
      modifies this`sent, this`sendBuf, this`bytesSent, out.seqNum, out.handshakeLen, out.aead.nonceMask
      ensures out.Key() == old(out.Key())
      ensures stop == One(old(out.Key()), old(State()), typ, piece).stop
      ensures stop != Some(Panic) ==> State() == One(old(out.Key()), old(State()), typ, piece).w
    {
      var first := [typ, 3, 3, |piece| / 256 % 256, |piece| % 256];
      var r := out.EncryptRecord(first, typ, piece);
      if !r.Sealed? { return Some(r); }
      WriteBytes(r.record);
      return None;
    }

    /** Cuts the data into records; stops at the first that cannot be sent. */
    method WriteRecordLocked(typ: byte, data: bytes) returns (stop: Option<Sealed>)
      requires Valid()
      modifies this`packetsSent, this`sent, this`sendBuf, this`bytesSent, out.seqNum, out.handshakeLen,
        out.aead.nonceMask
      ensures out.Key() == old(out.Key())
      ensures stop == Write(old(out.Key()), old(State()), typ, data).stop
      ensures stop != Some(Panic) ==> State() == Write(old(out.Key()), old(State()), typ, data).w
    {
      var rest := data;
      ghost var k, w0 := out.Key(), State();
      ghost var done := Nothing(w0, None);
      while rest != []
        invariant out.Key() == k
        invariant Write(k, w0, typ, data) == Join(done, Write(k, State(), typ, rest))
        decreases |rest|
      {
        ghost var w := State();
        var m := |rest|;
        var maxPayload := MaxPayloadSizeForWrite(typ);
        if m > maxPayload { m := maxPayload; }
        ghost var a := One(k, Counted(w, typ), typ, rest[..m]);
        stop := WriteOne(typ, rest[..m]);
        if stop.Some? { return; }
        JoinAssociates(done, a, Write(k, a.w, typ, rest[m..]));
        done := Join(done, a);
        rest := rest[m..];
      }
      stop := None;
    }

    /** A handshake message: held back while a flight is being collected, written otherwise. */
    method WriteHandshakeRecord(message: bytes) returns (stop: Option<Sealed>)
      requires Valid()
      modifies this`packetsSent, this`sent, this`sendBuf, this`bytesSent, this`handshakeBuf,
               out.seqNum, out.handshakeLen, out.aead.nonceMask
      ensures handshakeBuf == Collect(old(handshakeBuf), message).0
      ensures match Collect(old(handshakeBuf), message).1
        case None => stop == None && State() == old(State())
        case Some(data) =>
          var r := Write(old(out.Key()), old(State()), HANDSHAKE, data);
          stop == r.stop && (stop != Some(Panic) ==> State() == r.w)
    {
      var data := message;
      if handshakeBuf.Some? && message != [] && message[0] != SERVER_HELLO {
        handshakeBuf := Some(handshakeBuf.value + message);
        if message[0] != FINISHED { return None; }
        data := handshakeBuf.value;
        handshakeBuf := None;
      }
      stop := WriteRecordLocked(HANDSHAKE, data);
    }
  }
}
