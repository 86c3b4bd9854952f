/** The typed packets inside a transport frame: their parsing and their printing. */
module Packets {
  import opened Bytes
  import opened Wrappers
  import opened Accounts
  import opened Box

  const TYPE_KEEPALIVE := 0x00
  const TYPE_MESSAGE_SEND := 0x01
  const TYPE_MESSAGE_RECV := 0x02
  const TYPE_KEEPALIVE_ACK := 0x80
  const TYPE_ACK_SERVER := 0x81
  const TYPE_ACK_CLIENT := 0x82
  const TYPE_CONNECTED := 0xd0
  const TYPE_DISCONNECTED := 0xe0

  const NICKNAME_SIZE := 32
  /** Type, two client ids, message id, time, flags, nick, nonce and MAC. */
  const MESSAGE_HEADER_SIZE := 4 + 8 + 8 + 8 + 4 + 4 + NICKNAME_SIZE + NONCE_BYTES + MAC_BYTES

  type Word32 = x: nat | x < 0x1_0000_0000

  datatype Fields = Fields(sender: Id, recipient: Id, id: Id, time: Word32, flags: Word32,
                           nick: seq<Byte>, nonce: Nonce, payload: seq<Byte>)

  datatype Packet =
    | Status(connected: bool)
    | Acknowledgement(from: Id, message: Id)
    | KeepAlive(ack: bool, echo: seq<Byte>)
    | Message(fields: Fields)

  /** UnknownType is the one error the transport swallows. */
  datatype ParseError = UnknownType | ProtocolError | LengthError

  /** What a read of four bytes past the start of a shorter body may find. */
  type Residue = s: seq<Byte> | |s| == 4 witness Zeros(4)

  function TypeOf(data: seq<Byte>, residue: Residue): nat
  {
    FromLe((data + residue)[..4])
  }

  function Parse(data: seq<Byte>, residue: Residue): Result<Packet, ParseError>
  {
    var t := TypeOf(data, residue);
    if t == TYPE_CONNECTED || t == TYPE_DISCONNECTED then
      Ok(Status(t == TYPE_CONNECTED))
    else if t == TYPE_ACK_SERVER then
      ParseAcknowledgement(data)
    else if t == TYPE_MESSAGE_RECV then
      ParseMessage(data)
    else if t == TYPE_KEEPALIVE || t == TYPE_KEEPALIVE_ACK then
      if |data| < 4 then Err(LengthError) else Ok(KeepAlive(t == TYPE_KEEPALIVE_ACK, data[4..]))
    else
      Err(UnknownType)
  }

  /** Both ids are read at the offset of the first one, as the source does. */
  function ParseAcknowledgement(data: seq<Byte>): Result<Packet, ParseError>
  {
    if |data| != 20 then Err(ProtocolError) else Ok(Acknowledgement(data[4..12], data[4..12]))
  }

  function ParseMessage(data: seq<Byte>): Result<Packet, ParseError>
  {
    if |data| < MESSAGE_HEADER_SIZE then Err(ProtocolError)
    else Ok(Message(ParseFields(data)))
  }

  function ParseFields(data: seq<Byte>): Fields
    requires |data| >= MESSAGE_HEADER_SIZE
  {
    Fields(data[4..12], data[12..20], data[20..28], Word(data[28..32]), Word(data[32..36]),
           UntilNul(data[36..68]), data[68..92], data[92..])
  }

  function Word(s: seq<Byte>): Word32
    requires |s| == 4
  {
    FromLeBound(s);
    PowersOf256();
    FromLe(s)
  }

  /** strnlen and copy. */
  function UntilNul(s: seq<Byte>): (r: seq<Byte>)
    ensures r <= s && 0 !in r && (|r| < |s| ==> s[|r|] == 0)
  {
    if s == [] || s[0] == 0 then [] else [s[0]] + UntilNul(s[1..])
  }

  /** Cut or zero-filled to exactly NICKNAME_SIZE bytes. */
  function NickField(nick: seq<Byte>): (s: seq<Byte>)
    ensures |s| == NICKNAME_SIZE
  {
    if |nick| >= NICKNAME_SIZE then nick[..NICKNAME_SIZE] else nick + Zeros(NICKNAME_SIZE - |nick|)
  }

  function PrintMessage(kind: Word32, m: Fields): (s: seq<Byte>)
    ensures |s| == MESSAGE_HEADER_SIZE + |m.payload| - MAC_BYTES
  {
    Le(kind, 4) + m.sender + m.recipient + m.id + Le(m.time, 4) + Le(m.flags, 4)
    + NickField(m.nick) + m.nonce + m.payload
  }

  /** The nick a receiver sees: at most 32 bytes, and none from the first NUL on. */
  function SeenNick(nick: seq<Byte>): seq<Byte>
  {
    UntilNul(if |nick| > NICKNAME_SIZE then nick[..NICKNAME_SIZE] else nick)
  }

  lemma {:induction false} UntilNulPadded(s: seq<Byte>, n: nat)
    ensures UntilNul(s + Zeros(n)) == UntilNul(s)
  {
    if s == [] {
      assert s + Zeros(n) == Zeros(n);
    } else if s[0] != 0 {
      UntilNulPadded(s[1..], n);
      assert (s + Zeros(n))[1..] == s[1..] + Zeros(n);
    }
  }

  // ----- what a received packet means, byte by byte -----

  /** The types of packet a client receives, as they stand in the first four bytes. */
  predicate KnownType(t: seq<Byte>)
  {
    || t == [0, 0, 0, 0] || t == [2, 0, 0, 0] || t == [0x80, 0, 0, 0]
    || t == [0x81, 0, 0, 0] || t == [0xd0, 0, 0, 0] || t == [0xe0, 0, 0, 0]
  }

  /** The bytes whose type is known and whose length that type does not allow. */
  predicate BadLength(data: seq<Byte>)
    requires |data| >= 4
  {
    (data[..4] == [0x81, 0, 0, 0] && |data| != 20) || (data[..4] == [2, 0, 0, 0] && |data| < 108)
  }

  /** These bytes stand for this packet. */
  predicate Stands(data: seq<Byte>, p: Packet)
    requires |data| >= 4
  {
    match p
    case Status(connected) => data[..4] == (if connected then [0xd0, 0, 0, 0] else [0xe0, 0, 0, 0])
    case KeepAlive(ack, echo) => data == (if ack then [0x80, 0, 0, 0] else [0, 0, 0, 0]) + echo
    case Acknowledgement(from, message) =>
      data[..4] == [0x81, 0, 0, 0] && |data| == 20 && from == data[4..12] && message == data[4..12]
    case Message(f) => data[..4] == [2, 0, 0, 0] && |data| >= 108 && FieldsAt(data, f)
  }

  /** Where each field of a message stands. */
  predicate FieldsAt(data: seq<Byte>, f: Fields)
    requires |data| >= 108
  {
    && f.sender == data[4..12] && f.recipient == data[12..20] && f.id == data[20..28]
    && f.time == Quad(data[28], data[29], data[30], data[31])
    && f.flags == Quad(data[32], data[33], data[34], data[35])
    && f.nick <= data[36..68] && 0 !in f.nick && (|f.nick| < 32 ==> data[36 + |f.nick|] == 0)
    && f.nonce == data[68..92] && f.payload == data[92..]
  }

  lemma {:induction false} UntilNulIs(s: seq<Byte>, r: seq<Byte>)
    ensures r == UntilNul(s) <==> r <= s && 0 !in r && (|r| < |s| ==> s[|r|] == 0)
  {
    if s != [] && s[0] != 0 && r != [] {
      UntilNulIs(s[1..], r[1..]);
      assert r <= s <==> r[0] == s[0] && r[1..] <= s[1..];
      assert r[0] != 0 ==> (0 in r <==> 0 in r[1..]);
      assert r == UntilNul(s) <==> r[0] == s[0] && r[1..] == UntilNul(s[1..]);
    }
  }

  lemma ParsedFields(data: seq<Byte>, f: Fields)
    requires |data| >= 108
    ensures f == ParseFields(data) <==> FieldsAt(data, f)
  {
    UntilNulIs(data[36..68], f.nick);
    FourBytes(data[28..32]);
    FourBytes(data[32..36]);
  }

  lemma TypeBytes(t: seq<Byte>, kind: Byte)
    requires |t| == 4
    ensures FromLe(t) == kind <==> t == [kind, 0, 0, 0]
  {
    FourBytes(t);
  }

  lemma Types(t: seq<Byte>)
    requires |t| == 4
    ensures (FromLe(t) == TYPE_CONNECTED <==> t == [0xd0, 0, 0, 0]) && (FromLe(t) == TYPE_DISCONNECTED <==> t == [0xe0, 0, 0, 0])
    ensures (FromLe(t) == TYPE_KEEPALIVE <==> t == [0, 0, 0, 0]) && (FromLe(t) == TYPE_KEEPALIVE_ACK <==> t == [0x80, 0, 0, 0])
    ensures (FromLe(t) == TYPE_ACK_SERVER <==> t == [0x81, 0, 0, 0]) && (FromLe(t) == TYPE_MESSAGE_RECV <==> t == [2, 0, 0, 0])
  {
    TypeBytes(t, 0xd0);
    TypeBytes(t, 0xe0);
    TypeBytes(t, 0);
    TypeBytes(t, 0x80);
    TypeBytes(t, 0x81);
    TypeBytes(t, 2);
  }

  /** A body is skipped exactly when its type is none a client receives; one too short is completed by the residue. */
  lemma SkippedIffUnknown(data: seq<Byte>, residue: Residue)
    ensures Parse(data, residue) == Err(UnknownType) <==> !KnownType((data + residue)[..4])
  {
    Types((data + residue)[..4]);
  }

  /** A body of known type is refused exactly when its length is bad. */
  lemma RefusedIffBadLength(data: seq<Byte>, residue: Residue)
    requires |data| >= 4
    ensures Parse(data, residue).Err? && Parse(data, residue).error != UnknownType <==> BadLength(data)
  {
    assert (data + residue)[..4] == data[..4];
    Types(data[..4]);
  }

  /** Any other gives the one packet its bytes stand for. */
  lemma ParsedIffStands(data: seq<Byte>, residue: Residue, p: Packet)
    requires |data| >= 4
    ensures Parse(data, residue) == Ok(p) <==> Stands(data, p)
  {
    var t := data[..4];
    assert (data + residue)[..4] == t;
    Types(t);
    match p
    case KeepAlive(_, echo) =>
      assert data == t + data[4..];
    case Message(f) =>
      if |data| >= 108 {
        ParsedFields(data, f);
      }
    case _ =>
  }

  /** The packets a client is told about, written out. */
  lemma PacketsReceived(x: seq<Byte>, ids: seq<Byte>, residue: Residue)
    requires |ids| == 16
    ensures Parse([0xd0, 0, 0, 0] + x, residue) == Ok(Status(true))
    ensures Parse([0xe0, 0, 0, 0] + x, residue) == Ok(Status(false))
    ensures Parse([0, 0, 0, 0] + x, residue) == Ok(KeepAlive(false, x))
    ensures Parse([0x80, 0, 0, 0] + x, residue) == Ok(KeepAlive(true, x))
    ensures Parse([0x81, 0, 0, 0] + ids, residue) == Ok(Acknowledgement(ids[..8], ids[..8]))
  {
    ParsedIffStands([0xd0, 0, 0, 0] + x, residue, Status(true));
    ParsedIffStands([0xe0, 0, 0, 0] + x, residue, Status(false));
    ParsedIffStands([0, 0, 0, 0] + x, residue, KeepAlive(false, x));
    ParsedIffStands([0x80, 0, 0, 0] + x, residue, KeepAlive(true, x));
    assert ([0x81, 0, 0, 0] + ids)[4..12] == ids[..8];
    ParsedIffStands([0x81, 0, 0, 0] + ids, residue, Acknowledgement(ids[..8], ids[..8]));
  }

  // ----- a sent message and what the relay makes of it -----

  /**
   * What a relay delivers is what was sent, with the nick as receivers see it,
   * exactly when the sealed payload is long enough to hold its MAC.
   */
  lemma MessageRoundTrip(m: Fields)
    ensures |m.payload| >= MAC_BYTES ==>
              ParseMessage(PrintMessage(TYPE_MESSAGE_RECV, m)) == Ok(Message(m.(nick := SeenNick(m.nick))))
    ensures |m.payload| < MAC_BYTES ==>
              ParseMessage(PrintMessage(TYPE_MESSAGE_RECV, m)) == Err(ProtocolError)
  {
    var data := PrintMessage(TYPE_MESSAGE_RECV, m);
    if |m.payload| >= MAC_BYTES {
      assert data[4..12] == m.sender && data[12..20] == m.recipient && data[20..28] == m.id;
      assert data[28..32] == Le(m.time, 4) && data[32..36] == Le(m.flags, 4);
      assert data[36..68] == NickField(m.nick);
      assert data[68..92] == m.nonce && data[92..] == m.payload;
      PowersOf256();
      LeRoundTrip(m.time, 4);
      LeRoundTrip(m.flags, 4);
      if |m.nick| < NICKNAME_SIZE {
        UntilNulPadded(m.nick, NICKNAME_SIZE - |m.nick|);
      } else {
        assert m.nick[..NICKNAME_SIZE] == if |m.nick| > NICKNAME_SIZE then m.nick[..NICKNAME_SIZE] else m.nick;
      }
    }
  }

  /** A server relays a sent message by rewriting its type. */
  function Relay(packet: seq<Byte>): seq<Byte>
    requires |packet| >= 4
  {
    Le(TYPE_MESSAGE_RECV, 4) + packet[4..]
  }

  lemma RelayedMessage(m: Fields)
    ensures Relay(PrintMessage(TYPE_MESSAGE_SEND, m)) == PrintMessage(TYPE_MESSAGE_RECV, m)
    ensures forall residue: Residue :: TypeOf(PrintMessage(TYPE_MESSAGE_RECV, m), residue) == TYPE_MESSAGE_RECV
  {
    var rest := m.sender + m.recipient + m.id + Le(m.time, 4) + Le(m.flags, 4) + NickField(m.nick) + m.nonce + m.payload;
    assert PrintMessage(TYPE_MESSAGE_SEND, m) == Le(TYPE_MESSAGE_SEND, 4) + rest;
    assert PrintMessage(TYPE_MESSAGE_RECV, m) == Le(TYPE_MESSAGE_RECV, 4) + rest;
    forall residue: Residue
      ensures TypeOf(PrintMessage(TYPE_MESSAGE_RECV, m), residue) == TYPE_MESSAGE_RECV
    {
      assert (PrintMessage(TYPE_MESSAGE_RECV, m) + residue)[..4] == Le(TYPE_MESSAGE_RECV, 4);
      PowersOf256();
      LeRoundTrip(TYPE_MESSAGE_RECV, 4);
    }
  }

  // ----- packets a client may send -----

  datatype Outgoing =
    | AckClient(from: Id, message: Id)
    | SendMessage(fields: Fields)
    | SendKeepAlive(ack: bool, echo: seq<Byte>)
    | ReceiveOnly

  datatype PrintError = InvalidType | Unencrypted

  function Print(p: Outgoing): Result<seq<Byte>, PrintError>
  {
    match p
    case AckClient(from, message) => Ok(Le(TYPE_ACK_CLIENT, 4) + from + message)
    case SendMessage(fields) =>
      if fields.payload == [] then Err(Unencrypted) else Ok(PrintMessage(TYPE_MESSAGE_SEND, fields))
    case SendKeepAlive(ack, echo) => Ok(Le(if ack then TYPE_KEEPALIVE_ACK else TYPE_KEEPALIVE, 4) + echo)
    case ReceiveOnly => Err(InvalidType)
  }

  /** The packets a client sends, byte by byte. */
  lemma PacketsSent(from: Id, message: Id, echo: seq<Byte>)
    ensures Print(AckClient(from, message)) == Ok([0x82, 0, 0, 0] + from + message)
    ensures Print(SendKeepAlive(false, echo)) == Ok([0, 0, 0, 0] + echo)
    ensures Print(SendKeepAlive(true, echo)) == Ok([0x80, 0, 0, 0] + echo)
  {
    TypePrinted(0x82);
    TypePrinted(0);
    TypePrinted(0x80);
  }

  /** What is not sent: packets only a server sends, and messages that have not been encrypted. */
  lemma PrintRefuses(p: Outgoing)
    ensures Print(p) == Err(InvalidType) <==> p.ReceiveOnly?
    ensures Print(p) == Err(Unencrypted) <==> p.SendMessage? && p.fields.payload == []
  {
  }

  lemma TypePrinted(kind: Byte)
    ensures Le(kind, 4) == [kind, 0, 0, 0]
  {
    assert Le(0, 3) == [0, 0, 0];
  }

  /** A sent message, field by field; the nick is cut or filled with zeros to 32 bytes. */
  lemma MessageSent(m: Fields)
    requires m.payload != []
    ensures Print(SendMessage(m)).Ok?
    ensures var s := Print(SendMessage(m)).value;
      && |s| == 92 + |m.payload| && s[..4] == [1, 0, 0, 0]
      && s[4..12] == m.sender && s[12..20] == m.recipient && s[20..28] == m.id
      && Quad(s[28], s[29], s[30], s[31]) == m.time
      && Quad(s[32], s[33], s[34], s[35]) == m.flags
      && (forall k :: 0 <= k < 32 ==> s[36 + k] == if k < |m.nick| then m.nick[k] else 0)
      && s[68..92] == m.nonce && s[92..] == m.payload
  {
    var s := Print(SendMessage(m)).value;
    TypePrinted(1);
    PowersOf256();
    LeRoundTrip(m.time, 4);
    LeRoundTrip(m.flags, 4);
    FourBytes(Le(m.time, 4));
    FourBytes(Le(m.flags, 4));
    assert s[28..32] == Le(m.time, 4) && s[32..36] == Le(m.flags, 4);
    assert s[36..68] == NickField(m.nick);
    forall k | 0 <= k < 32
      ensures s[36 + k] == if k < |m.nick| then m.nick[k] else 0
    {
      assert s[36 + k] == s[36..68][k];
    }
  }

  /**
   * Because both ids of an acknowledgement are read at one offset, parsing what was
   * printed gives it back exactly when the two ids are equal.
   */
  lemma AcknowledgementRoundTrip(from: Id, message: Id)
    ensures ParseAcknowledgement(Le(TYPE_ACK_SERVER, 4) + from + message) == Ok(Acknowledgement(from, message))
            <==> from == message
  {
    var data := Le(TYPE_ACK_SERVER, 4) + from + message;
    assert data[4..12] == from;
  }
}
