/**
  TLS 1.3 records with REALITY's record-length slots (sections 5.2 to 5.4 of RFC 8446): what is
  sealed, how long it gets, and that the receiver reads back what was written.
 */
module Record {
  import opened Wire
  import opened Nonce
  import opened Aead

  const HEADER_LEN := 5
  const MAX_PLAINTEXT := 16384
  const MAX_CIPHERTEXT := MAX_PLAINTEXT + 256
  const ZERO_BUFFER_LEN := 8192

  const CHANGE_CIPHER_SPEC: byte := 20
  const HANDSHAKE: byte := 22
  const APPLICATION_DATA: byte := 23

  const NEW_SESSION_TICKET: byte := 4
  const ENCRYPTED_EXTENSIONS: byte := 8
  const CERTIFICATE: byte := 11
  const CERTIFICATE_VERIFY: byte := 15
  const FINISHED: byte := 20

  /** How a target lays out its encrypted flight: a record per message, or one for all. */
  const SPLIT: byte := 0
  const COALESCED: byte := 1

  /** The traffic key of one epoch, with its nonce mask. */
  datatype Keys = Keys(cipher: Cipher, mask: bytes)
  {
    ghost predicate Valid() { |mask| == MASK_LEN && cipher.Correct() }
  }

  /** The outer record lengths still to be imitated, one slot per message of the target's flight. */
  type Slots = s: seq<nat> | |s| == 7 witness [0, 0, 0, 0, 0, 0, 0]

  // ---------------------------------------------------------------- sealing one record

  /** Slot 1, the change_cipher_spec of the target, arms the padding of handshake records. */
  predicate Armed(slots: Slots, typ: byte) { typ == HANDSHAKE && slots[1] != 0 }

  function SlotOf(message: byte): Option<nat> {
    if message == ENCRYPTED_EXTENSIONS then Some(2)
    else if message == CERTIFICATE then Some(3)
    else if message == CERTIFICATE_VERIFY then Some(4)
    else if message == FINISHED then Some(5)
    else if message == NEW_SESSION_TICKET then Some(6)
    else None
  }

  /** The length to imitate; a message without slot, like a slot already used, has none. */
  function Target(slots: Slots, message: byte): nat {
    match SlotOf(message) case None => 0 case Some(k) => slots[k]
  }

  /** A slot is used up even if the record then turns out not to fit. */
  function SlotsAfter(slots: Slots, typ: byte, payload: bytes): Slots
    requires payload != []
  {
    if !Armed(slots, typ) || SlotOf(payload[0]).None? then slots else slots[SlotOf(payload[0]).value := 0]
  }

  function Padding(slots: Slots, typ: byte, payload: bytes): int
    requires payload != []
  {
    if Armed(slots, typ) then Target(slots, payload[0]) - (HEADER_LEN + |payload| + 1 + OVERHEAD) else 0
  }

  /** Payload and content type; a session ticket's first two bytes are overwritten. */
  function Content(slots: Slots, typ: byte, payload: bytes): (r: bytes)
    requires payload != []
    ensures |r| == |payload| + 1
  {
    if Armed(slots, typ) && payload[0] == NEW_SESSION_TICKET then [APPLICATION_DATA, 0] + (payload + [typ])[2..]
    else payload + [typ]
  }

  datatype Sealed = Sealed(record: bytes) | TooLong | Panic

  function Header(n: nat): bytes { [APPLICATION_DATA, 3, 3, n / 256 % 256, n % 256] }

  /** The text under the seal. */
  function Inner(slots: Slots, typ: byte, payload: bytes): (r: bytes)
    requires payload != [] && Padding(slots, typ, payload) >= 0
    ensures |r| == |payload| + 1 + Padding(slots, typ, payload)
  {
    Content(slots, typ, payload) + Zeros(Padding(slots, typ, payload))
  }

  /** The record that carries `inner` under the nonce of number n, its header authenticated with it. */
  function SealedAs(k: Keys, n: nat, inner: bytes): bytes
    requires |k.mask| == MASK_LEN
  {
    var header := Header(|inner| + OVERHEAD);
    header + k.cipher.seal(RecordNonce(k.mask, n), inner, header)
  }

  /** Record number n. The zeros come from a fixed buffer, and the sequence number must not wrap. */
  function Encrypt(k: Keys, n: nat, slots: Slots, typ: byte, payload: bytes): Sealed
    requires |k.mask| == MASK_LEN && payload != []
  {
    var p := Padding(slots, typ, payload);
    if p < 0 then TooLong
    else if p > ZERO_BUFFER_LEN || n + 1 >= Limit(SEQ_LEN) then Panic
    else Sealed(SealedAs(k, n, Inner(slots, typ, payload)))
  }

  // ---------------------------------------------------------------- opening one record

  datatype Alert = BadRecordMac | UnexpectedMessage | RecordOverflow

  datatype Opened = Opened(typ: byte, data: bytes) | Refused(alert: Alert) | Wrapped

  /** The content type is the last byte that is not zero. */
  function Strip(s: bytes): Option<(byte, bytes)> {
    if s == [] then None
    else if s[|s| - 1] != 0 then Some((s[|s| - 1], s[..|s| - 1]))
    else Strip(s[..|s| - 1])
  }

  function Decrypt(k: Keys, n: nat, record: bytes): Opened
    requires |k.mask| == MASK_LEN && |record| >= HEADER_LEN
  {
    if record[0] == CHANGE_CIPHER_SPEC then Opened(CHANGE_CIPHER_SPEC, record[HEADER_LEN..]) else
    match k.cipher.open(RecordNonce(k.mask, n), record[HEADER_LEN..], record[..HEADER_LEN])
    case None => Refused(BadRecordMac)
    case Some(plain) =>
      if record[0] != APPLICATION_DATA then Refused(UnexpectedMessage)
      else if |plain| > MAX_PLAINTEXT + 1 then Refused(RecordOverflow)
      else if plain != [] && Strip(plain).None? then Refused(UnexpectedMessage)
      else if n + 1 >= Limit(SEQ_LEN) then Wrapped
      else if plain == [] then Opened(APPLICATION_DATA, [])
      else Opened(Strip(plain).value.0, Strip(plain).value.1)
  }

  /** What arrives of a payload: the payload itself, except for a session ticket sent into an armed slot. */
  function Delivered(slots: Slots, typ: byte, payload: bytes): (byte, bytes)
    requires payload != []
  {
    if !(Armed(slots, typ) && payload[0] == NEW_SESSION_TICKET) then (typ, payload)
    else if |payload| == 1 then (APPLICATION_DATA, [])
    else (typ, [APPLICATION_DATA, 0] + payload[2..])
  }

  lemma {:induction false} StripZeros(s: bytes, k: nat)
    ensures Strip(s + Zeros(k)) == Strip(s)
  {
    if k == 0 {
      assert s + Zeros(0) == s;
    } else {
      StripZeros(s, k - 1);
      var t := s + Zeros(k);
      assert t[..|t| - 1] == s + Zeros(k - 1);
    }
  }

  lemma StripContent(slots: Slots, typ: byte, payload: bytes)
    requires payload != [] && typ != 0
    ensures Strip(Content(slots, typ, payload)) == Some(Delivered(slots, typ, payload))
  {
    var c := Content(slots, typ, payload);
    if Armed(slots, typ) && payload[0] == NEW_SESSION_TICKET {
      if |payload| == 1 {
        assert c == [APPLICATION_DATA, 0];
        assert c[..1] == [APPLICATION_DATA];
        assert Strip([APPLICATION_DATA]) == Some((APPLICATION_DATA, [])) by { assert [APPLICATION_DATA][..0] == []; }
      } else {
        assert c == [APPLICATION_DATA, 0] + payload[2..] + [typ];
        assert c[..|c| - 1] == [APPLICATION_DATA, 0] + payload[2..];
      }
    } else {
      assert c[..|c| - 1] == payload;
    }
  }

  /**
    A session ticket (type 4) in an armed slot arrives with its first two bytes replaced, or, if it
    is one byte, as nothing.
   */
  lemma TicketIsSpoiled(slots: Slots, payload: bytes)
    requires slots[1] != 0 && payload != [] && payload[0] == 4
    ensures Delivered(slots, 22, payload) == if |payload| == 1 then (23, []) else (22, [23, 0] + payload[2..])
  {
  }

  /** Record sizes the slots and the fragmentation allow. */
  predicate Sizes(slots: Slots, payload: bytes) {
    0 < |payload| <= MAX_PLAINTEXT && forall i :: 0 <= i < 7 ==> slots[i] <= MAX_PLAINTEXT
  }

  lemma InnerSize(slots: Slots, typ: byte, payload: bytes)
    requires Sizes(slots, payload) && Padding(slots, typ, payload) >= 0
    ensures |Inner(slots, typ, payload)| <= MAX_PLAINTEXT + 1
    ensures Armed(slots, typ) ==> HEADER_LEN + |Inner(slots, typ, payload)| + OVERHEAD == Target(slots, payload[0])
  {
  }

  /** A record is its header followed by as many bytes as the header says. */
  predicate Framed(r: bytes) { |r| >= HEADER_LEN && |r| == HEADER_LEN + Get(r[3..5]) }

  lemma HeaderLength(n: nat, rest: bytes)
    requires n < 0x1_0000 && |rest| == n
    ensures Framed(Header(n) + rest)
    ensures (Header(n) + rest)[..HEADER_LEN] == Header(n) && (Header(n) + rest)[HEADER_LEN..] == rest
  {
    Limits();
    var r := Header(n) + rest;
    assert r[3..5] == [n / 256 % 256, n % 256];
    assert r[3..5][..1] == [n / 256 % 256];
    assert [n / 256 % 256][..0] == [];
    assert Get([n / 256 % 256]) == n / 256 % 256;
  }

  /** A sealed text opens under its own number, and the peer finds content and type ahead of the zeros. */
  lemma SealedOpens(k: Keys, n: nat, inner: bytes)
    requires k.Valid() && 0 < |inner| <= MAX_PLAINTEXT + 1 && Strip(inner).Some? && n + 1 < Limit(SEQ_LEN)
    ensures var r := SealedAs(k, n, inner);
      && Framed(r) && |r| == HEADER_LEN + |inner| + OVERHEAD
      && Decrypt(k, n, r) == Opened(Strip(inner).value.0, Strip(inner).value.1)
  {
    var header := Header(|inner| + OVERHEAD);
    HeaderLength(|inner| + OVERHEAD, k.cipher.seal(RecordNonce(k.mask, n), inner, header));
  }

  /** What the peer makes of any sealed text: the checks in their order, with their alerts. */
  lemma SealedOutcome(k: Keys, n: nat, inner: bytes)
    requires k.Valid() && inner != []
    ensures |SealedAs(k, n, inner)| >= 5
    ensures Decrypt(k, n, SealedAs(k, n, inner)) ==
      if |inner| > 16385 then Refused(RecordOverflow) else
      match Strip(inner)
      case None => Refused(UnexpectedMessage)
      case Some((typ, data)) => if n + 1 >= Limit(SEQ_LEN) then Wrapped else Opened(typ, data)
  {
    var header := Header(|inner| + OVERHEAD);
    var r := SealedAs(k, n, inner);
    assert r[..HEADER_LEN] == header && r[HEADER_LEN..] == k.cipher.seal(RecordNonce(k.mask, n), inner, header);
  }

  /**
    The content type is the last byte that is not zero, and the content what is ahead of it; without
    one there is neither.
   */
  lemma {:induction false} StripFinds(s: bytes)
    ensures Strip(s).None? <==> forall i :: 0 <= i < |s| ==> s[i] == 0
    ensures Strip(s).Some? ==>
      var (typ, data) := Strip(s).value;
      typ != 0 && |data| < |s| && s == data + [typ] + Zeros(|s| - |data| - 1)
  {
    if s != [] {
      var k := |s| - 1;
      assert s == s[..k] + [s[k]];
      if s[k] == 0 {
        StripFinds(s[..k]);
        if Strip(s[..k]).Some? {
          var (typ, data) := Strip(s[..k]).value;
          assert Zeros(|s| - |data| - 1) == Zeros(k - |data| - 1) + [0];
        }
      }
    }
  }

  /**
    A record that was sealed opens to what was written, is framed and small enough to be accepted,
    and while the slots are armed it is exactly as long as its slot says.
   */
  lemma OpenUndoesSeal(k: Keys, n: nat, slots: Slots, typ: byte, payload: bytes)
    requires k.Valid() && Sizes(slots, payload) && typ != 0
    requires Encrypt(k, n, slots, typ, payload).Sealed?
    ensures var r := Encrypt(k, n, slots, typ, payload).record;
      && Framed(r) && |r| <= HEADER_LEN + MAX_CIPHERTEXT
      && Decrypt(k, n, r) == Opened(Delivered(slots, typ, payload).0, Delivered(slots, typ, payload).1)
      && (Armed(slots, typ) ==> |r| == Target(slots, payload[0]))
  {
    InnerSize(slots, typ, payload);
    StripZeros(Content(slots, typ, payload), Padding(slots, typ, payload));
    StripContent(slots, typ, payload);
    SealedOpens(k, n, Inner(slots, typ, payload));
  }
}
