/** Messages: their packets, and the sealing of their payloads between two people. */
module Messages {
  import opened Bytes
  import opened Wrappers
  import opened Box
  import opened Accounts
  import opened Packets
  import opened Payloads

  datatype Failure =
    | NotAMessage | TooShort       // not a message packet
    | NotEncrypted | Construction      // of a packet to be sent
    | Mismatch | NoData | NonePayload
    | BufferSize | CryptoError
    | PadTooLong                     // a pad longer than the data
    | BadPayload
    | Undefined                       // the source reads past an empty vector

  /** The fields of a Message object; fields.payload is m_payloadData. */
  datatype State = State(kind: Word32, fields: Fields, payload: Payload)

  // ----- padding -----

  function PadLength(random: nat): (val: nat)
    ensures 1 <= val <= 255
  {
    if random % 256 == 0 then 1 else random % 256
  }

  function Pad(val: Byte): (s: seq<Byte>)
    ensures |s| == val
  {
    seq(val, i => val)
  }

  /** Every byte added is the number of bytes added. */
  method AddPadding(data: seq<Byte>, random: nat) returns (r: seq<Byte>)
    ensures r == data + Pad(PadLength(random))
    ensures 1 <= |r| - |data| <= 255 && forall i :: |data| <= i < |r| ==> r[i] == |r| - |data|
  {
    var val := random % 256;
    if val == 0 {
      val := val + 1;
    }
    r := data + Pad(val);
  }

  /** The last byte says how many to drop; more than there are is a length error. */
  function Stripped(data: seq<Byte>): Result<seq<Byte>, Failure>
  {
    if data == [] then Err(Undefined)
    else if data[|data| - 1] > |data| then Err(PadTooLong)
    else Ok(data[..|data| - data[|data| - 1]])
  }

  lemma StripPadded(data: seq<Byte>, val: Byte)
    ensures Stripped(data + Pad(val)) == Ok(data) <==> val != 0 || (data != [] && data[|data| - 1] == 0)
  {
    var s := data + Pad(val);
    if val != 0 {
      assert s[|s| - 1] == val && s[..|s| - val] == data;
    } else if data != [] {
      assert s == data;
    }
  }

  // ----- sealing and opening -----

  function Plain(p: Payload, random: nat): seq<Byte>
    requires p != NoPayload
  {
    [KindOf(p)] + Serialized(p) + Pad(PadLength(random))
  }

  function Encrypted(c: Functions, s: State, sender: Account, recipient: Contact, random: nat): (State, Option<Failure>)
  {
    if sender.id != s.fields.sender || recipient.id != s.fields.recipient then (s, Some(Mismatch))
    else if s.payload == NoPayload then (s, Some(NonePayload))
    else
      match Seal(c, recipient.pk, sender.sk, s.fields.nonce, Plain(s.payload, random))
      case None => (s, Some(CryptoError))
      case Some(box) => (s.(fields := s.fields.(payload := box)), None)
  }

  /** What is left of the data stays in the object when the padding or the payload is bad. */
  function Decrypted(c: Functions, codecs: Codecs, s: State, sender: Contact, recipient: Account): (State, Option<Failure>)
  {
    if s.fields.payload == [] then (s, Some(NoData))
    else if sender.id != s.fields.sender || recipient.id != s.fields.recipient then (s, Some(Mismatch))
    else if |s.fields.payload| < MAC_BYTES then (s, Some(BufferSize))
    else
      match Open(c, sender.pk, recipient.sk, s.fields.nonce, s.fields.payload)
      case None => (s, Some(CryptoError))
      case Some(data) =>
        match Stripped(data)
        case Err(e) => (Holding(s, data), Some(e))
        case Ok(rest) =>
          if rest == [] then (Holding(s, rest), Some(Undefined))
          else
            match Deserialized(codecs, rest[0], rest[1..])
            case Err(e) => (Holding(s, rest), Some(if e == PastEnd then Undefined else BadPayload))
            case Ok(p) => (Holding(s, []).(payload := p), None)
  }

  function Holding(s: State, data: seq<Byte>): State
  {
    s.(fields := s.fields.(payload := data))
  }

  class Message {
    var kind: Word32
    var sender: Id
    var recipient: Id
    var id: Id
    var time: Word32
    var flags: Word32
    var nick: seq<Byte>
    var nonce: Nonce
    var payloadData: seq<Byte>
    var payload: Payload

    ghost function Content(): Fields
      reads this
    {
      Fields(sender, recipient, id, time, flags, nick, nonce, payloadData)
    }

    ghost function Model(): State
      reads this
    {
      State(kind, Content(), payload)
    }

    constructor (s: State)
      ensures Model() == s
    {
      kind, payload := s.kind, s.payload;
      sender, recipient, id := s.fields.sender, s.fields.recipient, s.fields.id;
      time, flags, nick, nonce, payloadData := s.fields.time, s.fields.flags, s.fields.nick, s.fields.nonce, s.fields.payload;
    }

    /** The fields of fixed size before the nick. */
    method PutHead(packet: array<Byte>) returns (iter: nat)
      requires packet.Length >= 36
      modifies packet
      ensures iter == 36
      ensures packet[..36] == Le(kind, 4) + sender + recipient + id + Le(time, 4) + Le(flags, 4)
    {
      iter := Copy(packet, 0, Le(kind, 4));
      iter := Copy(packet, iter, sender);
      iter := Copy(packet, iter, recipient);
      assert packet[..iter] == Le(kind, 4) + sender + recipient;
      iter := Copy(packet, iter, id);
      iter := Copy(packet, iter, Le(time, 4));
      iter := Copy(packet, iter, Le(flags, 4));
    }

    method PutNick(packet: array<Byte>, at: nat) returns (iter: nat)
      requires at + NICKNAME_SIZE <= packet.Length
      modifies packet
      ensures iter == at + NICKNAME_SIZE && packet[..iter] == old(packet[..at]) + NickField(nick)
    {
      iter := at;
      if |nick| >= NICKNAME_SIZE {
        iter := Copy(packet, iter, nick[..NICKNAME_SIZE]);
      } else {
        var remainder := NICKNAME_SIZE - |nick|;
        iter := Copy(packet, iter, nick);
        iter := Copy(packet, iter, Zeros(remainder));
      }
    }

    /** The packet is exactly filled, so the check on the final position never fails. */
    method ToPacket() returns (r: Result<seq<Byte>, Failure>)
      ensures r == if payloadData == [] then Err(NotEncrypted) else Ok(PrintMessage(kind, Content()))
    {
      if |payloadData| == 0 {
        return Err(NotEncrypted);
      }
      var packet := new Byte[MESSAGE_HEADER_SIZE + |payloadData| - MAC_BYTES](_ => 0);
      var iter := PutHead(packet);
      iter := PutNick(packet, iter);
      ghost var head := packet[..iter];
      iter := Copy(packet, iter, nonce);
      iter := Copy(packet, iter, payloadData);
      if iter != packet.Length {
        return Err(Construction);
      }
      assert packet[..] == head + nonce + payloadData;
      return Ok(packet[..]);
    }

    method Encrypt(c: Functions, from: Account, to: Contact, random: nat) returns (failure: Option<Failure>)
      modifies this
      ensures (Model(), failure) == Encrypted(c, old(Model()), from, to, random)
    {
      if from.id != sender || to.id != recipient {
        return Some(Mismatch);
      }
      var data := Serialize(payload);
      if data.None? {
        return Some(NonePayload);
      }
      var padded := AddPadding([KindOf(payload)] + data.value, random);
      var box := Seal(c, to.pk, from.sk, nonce, padded);
      if box.None? {
        return Some(CryptoError);
      }
      payloadData := box.value;
      return None;
    }

    method StripPadding() returns (failure: Option<Failure>)
      modifies this`payloadData
      ensures match old(Stripped(payloadData))
              case Err(e) => failure == Some(e) && payloadData == old(payloadData)
              case Ok(rest) => failure == None && payloadData == rest
    {
      if |payloadData| == 0 {
        return Some(Undefined);
      }
      var val := payloadData[|payloadData| - 1];
      if val > |payloadData| {
        return Some(PadTooLong);
      }
      payloadData := payloadData[..|payloadData| - val];
      return None;
    }

    method Decrypt(c: Functions, codecs: Codecs, from: Contact, to: Account) returns (failure: Option<Failure>)
      modifies this
      ensures (Model(), failure) == Decrypted(c, codecs, old(Model()), from, to)
    {
      if |payloadData| == 0 {
        return Some(NoData);
      }
      if from.id != sender || to.id != recipient {
        return Some(Mismatch);
      }
      if |payloadData| < MAC_BYTES {
        return Some(BufferSize);
      }
      var data := Open(c, from.pk, to.sk, nonce, payloadData);
      if data.None? {
        return Some(CryptoError);
      }
      payloadData := data.value;
      failure := StripPadding();
      if failure.Some? {
        return;
      }
      if |payloadData| == 0 {
        return Some(Undefined);
      }
      var p := Deserialize(codecs, payloadData);
      if p.Err? {
        return Some(if p.error == PastEnd then Undefined else BadPayload);
      }
      payload := p.value;
      payloadData := [];
    }
  }

  /** copy_iter: the next bytes, and the position after them. */
  method Take(packet: seq<Byte>, iter: nat, n: nat) returns (s: seq<Byte>, next: nat)
    requires iter + n <= |packet|
    ensures s == packet[iter..iter + n] && next == iter + n
  {
    s, next := packet[iter..iter + n], iter + n;
  }

  method FromPacket(kind: nat, packet: seq<Byte>) returns (r: Result<Message, Failure>)
    ensures r.Ok? ==> fresh(r.value)
    ensures if kind != TYPE_MESSAGE_RECV then r == Err(NotAMessage)
            else match ParseMessage(packet)
                 case Err(_) => r == Err(TooShort)
                 case Ok(p) => r.Ok? && Packets.Message(r.value.Content()) == p
                               && r.value.Model() == State(TYPE_MESSAGE_RECV, p.fields, NoPayload)
  {
    if kind != TYPE_MESSAGE_RECV {
      return Err(NotAMessage);
    }
    if |packet| < MESSAGE_HEADER_SIZE {
      return Err(TooShort);
    }
    var iter := 4;
    var sender, recipient, id, time, flags, nick, nonce, data;
    sender, iter := Take(packet, iter, 8);
    recipient, iter := Take(packet, iter, 8);
    id, iter := Take(packet, iter, 8);
    time, iter := Take(packet, iter, 4);
    flags, iter := Take(packet, iter, 4);
    nick, iter := Take(packet, iter, NICKNAME_SIZE);
    nonce, iter := Take(packet, iter, NONCE_BYTES);
    var len := |packet| - MESSAGE_HEADER_SIZE + MAC_BYTES;
    data, iter := Take(packet, iter, len);
    assert data == packet[92..];
    var m := new Message(State(TYPE_MESSAGE_RECV,
      Fields(sender, recipient, id, Word(time), Word(flags), UntilNul(nick), nonce, data), NoPayload));
    return Ok(m);
  }

  // ----- from sender to recipient -----

  /**
   * Whatever the random byte, what one person seals the other opens, and stripping it
   * leaves type and payload.
   */
  lemma SealedPayload(c: Cipher, skA: Key, skB: Key, nonce: Nonce, p: Payload, random: nat)
    requires p != NoPayload
    ensures Seal(c, c.publicOf(skB), skA, nonce, Plain(p, random)).Some?
    ensures var box := Seal(c, c.publicOf(skB), skA, nonce, Plain(p, random)).value;
      && |box| >= MAC_BYTES
      && Open(c, c.publicOf(skA), skB, nonce, box) == Some(Plain(p, random))
      && Stripped(Plain(p, random)) == Ok([KindOf(p)] + Serialized(p))
  {
    OpenSeal(c, skA, skB, nonce, Plain(p, random));
    StripPadded([KindOf(p)] + Serialized(p), PadLength(random));
  }

  /** What one person has sealed for another. */
  ghost predicate Posted(c: Cipher, s: State, alice: Account, bob: Account, random: nat, sent: State)
  {
    && s.payload != NoPayload && s.fields.sender == alice.id && s.fields.recipient == bob.id
    && Encrypted(c, s, alice, Contact(bob.id, c.publicOf(bob.sk)), random) == (sent, None)
  }

  lemma PostSucceeds(c: Cipher, s: State, alice: Account, bob: Account, random: nat)
    requires s.payload != NoPayload && s.fields.sender == alice.id && s.fields.recipient == bob.id
    ensures Posted(c, s, alice, bob, random, Encrypted(c, s, alice, Contact(bob.id, c.publicOf(bob.sk)), random).0)
  {
    SealedPayload(c, alice.sk, bob.sk, s.fields.nonce, s.payload, random);
  }

  /** rest, and behind it a pad whose bytes say how many they are. */
  predicate Padded(data: seq<Byte>, rest: seq<Byte>)
  {
    && rest < data && |data| - |rest| <= 255
    && forall i :: |rest| <= i < |data| ==> data[i] == |data| - |rest|
  }

  /**
   * Whoever holds the recipient's key opens a posted message under the nonce in it to the
   * payload's bytes and a pad; nothing else of the message has changed.
   */
  lemma PostedOpens(c: Cipher, s: State, alice: Account, bob: Account, random: nat, sent: State)
    requires Posted(c, s, alice, bob, random, sent)
    ensures sent == s.(fields := s.fields.(payload := sent.fields.payload))
    ensures var o := Open(c, c.publicOf(alice.sk), bob.sk, s.fields.nonce, sent.fields.payload);
      && o.Some?
      && var v := if random % 256 == 0 then 1 else random % 256;
         |o.value| > v && Padded(o.value, o.value[..|o.value| - v]) && Laid(s.payload, o.value[..|o.value| - v])
  {
    SealedPayload(c, alice.sk, bob.sk, s.fields.nonce, s.payload, random);
    PayloadLaid(s.payload);
    var head, pad := [KindOf(s.payload)] + Serialized(s.payload), Pad(PadLength(random));
    assert Plain(s.payload, random) == head + pad;
    assert (head + pad)[..|head|] == head;
  }

  /** Encrypting succeeds exactly between the two people the message names, if there is a payload and the keys agree. */
  lemma EncryptsIff(c: Functions, s: State, sender: Account, recipient: Contact, random: nat)
    ensures Encrypted(c, s, sender, recipient, random).1 == None
            <==> sender.id == s.fields.sender && recipient.id == s.fields.recipient
                 && s.payload != NoPayload && c.shared(recipient.pk, sender.sk).Some?
  {
  }

  /** The last byte says how much of the data is left, and there is that much. */
  predicate Leaves(data: seq<Byte>, rest: seq<Byte>)
  {
    data != [] && data[|data| - 1] <= |data| && rest == data[..|data| - data[|data| - 1]]
  }

  /**
   * Decrypting succeeds exactly between the two people the message names, if the box opens
   * and what its last byte leaves is a type and a body that type takes.
   */
  lemma DecryptsIff(c: Cipher, codecs: Codecs, s: State, sender: Contact, recipient: Account)
    ensures Decrypted(c, codecs, s, sender, recipient).1 == None
            <==> sender.id == s.fields.sender && recipient.id == s.fields.recipient
                 && exists data: seq<Byte>, rest: seq<Byte> ::
                      Open(c, sender.pk, recipient.sk, s.fields.nonce, s.fields.payload) == Some(data)
                      && Leaves(data, rest) && rest != [] && Taken(codecs, rest[0], rest[1..])
  {
    var o := Open(c, sender.pk, recipient.sk, s.fields.nonce, s.fields.payload);
    if o.Some? {
      var data := o.value;
      assert |s.fields.payload| == |data| + MAC_BYTES;
      if Stripped(data).Ok? {
        var rest := Stripped(data).value;
        assert Leaves(data, rest);
        if rest != [] {
          TakenIff(codecs, rest[0], rest[1..]);
        }
      }
    }
  }

  /** What was opened, as it is left in the object. */
  ghost predicate Kept(c: Functions, s: State, sender: Contact, recipient: Account, data: seq<Byte>, left: seq<Byte>, r: State)
  {
    && Open(c, sender.pk, recipient.sk, s.fields.nonce, s.fields.payload) == Some(data)
    && r == s.(fields := s.fields.(payload := left))
  }

  /**
   * What the object holds afterwards: all it held, if the box has not been opened; what was
   * opened, if its pad is too long; what the pad leaves, if that cannot be read; and the
   * payload alone, if it can.
   */
  lemma DecryptLeaves(c: Functions, codecs: Codecs, s: State, sender: Contact, recipient: Account)
    ensures var (r, why) := Decrypted(c, codecs, s, sender, recipient);
      match why
      case None =>
        exists data: seq<Byte>, rest: seq<Byte> ::
          && Kept(c, s, sender, recipient, data, [], r.(payload := s.payload)) && Leaves(data, rest) && rest != []
          && if rest[0] == 0x90 then r.payload == Typing(rest[1..] != [0]) else Laid(r.payload, rest)
      case Some(PadTooLong) => exists data: seq<Byte> :: Kept(c, s, sender, recipient, data, data, r) && !exists rest :: Leaves(data, rest)
      case Some(BadPayload) => exists data: seq<Byte> :: Kept(c, s, sender, recipient, data, r.fields.payload, r) && Leaves(data, r.fields.payload)
      case Some(Undefined) => exists data: seq<Byte> :: Kept(c, s, sender, recipient, data, r.fields.payload, r)
      case Some(_) => r == s
  {
    var (r, why) := Decrypted(c, codecs, s, sender, recipient);
    var o := Open(c, sender.pk, recipient.sk, s.fields.nonce, s.fields.payload);
    if why == None {
      var data := o.value;
      var rest := Stripped(data).value;
      BodyRead(codecs, rest[0], rest[1..]);
      assert [rest[0]] + rest[1..] == rest;
      assert Kept(c, s, sender, recipient, data, [], r.(payload := s.payload)) && Leaves(data, rest);
    } else if why == Some(PadTooLong) {
      assert Kept(c, s, sender, recipient, o.value, o.value, r);
      assert !exists rest :: Leaves(o.value, rest);
    } else if why == Some(BadPayload) || why == Some(Undefined) {
      assert Kept(c, s, sender, recipient, o.value, r.fields.payload, r);
    }
  }

  /**
   * From one person to another: the relay hands over the packet with its type rewritten,
   * the fields arrive as they were but for the nick, and the payload is read if and only
   * if it was sendable.
   */
  lemma Conversation(c: Cipher, codecs: Codecs, s: State, alice: Account, bob: Account, random: nat, sent: State)
    requires Posted(c, s, alice, bob, random, sent)
    ensures ParseMessage(Relay(PrintMessage(TYPE_MESSAGE_SEND, sent.fields)))
         == Ok(Packets.Message(sent.fields.(nick := SeenNick(s.fields.nick))))
    ensures var seen := s.fields.(nick := SeenNick(s.fields.nick));
      var got := State(TYPE_MESSAGE_RECV, sent.fields.(nick := SeenNick(s.fields.nick)), NoPayload);
      var read := Decrypted(c, codecs, got, Contact(alice.id, c.publicOf(alice.sk)), bob);
      if Sendable(codecs, s.payload) then
        read == (State(TYPE_MESSAGE_RECV, seen.(payload := []), s.payload), None)
      else
        read.1 == Some(BadPayload)
  {
    SealedPayload(c, alice.sk, bob.sk, s.fields.nonce, s.payload, random);
    RelayedMessage(sent.fields);
    MessageRoundTrip(sent.fields);
    SerializedRoundTrip(codecs, s.payload);
    var rest := [KindOf(s.payload)] + Serialized(s.payload);
    assert rest[0] == KindOf(s.payload) && rest[1..] == Serialized(s.payload);
  }
}
