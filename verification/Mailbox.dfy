/** From one person's payloads to another's: sealing, relaying, the server's boxes, the session, opening. */
module Mailbox {
  import opened Bytes
  import opened Wrappers
  import opened Box
  import opened Accounts
  import opened Packets
  import opened Payloads
  import opened Messages
  import Transport
  import Framing
  import Delivery
  import Runs
  import Interleaving

  /** A message as written, its author, the random byte of its padding, and the message once sealed. */
  datatype Letter = Letter(written: State, author: Account, random: nat, sent: State)

  ghost predicate Valid(c: Cipher, l: Letter, bob: Account)
  {
    && Posted(c, l.written, l.author, bob, l.random, l.sent)
    && MESSAGE_HEADER_SIZE + |l.sent.fields.payload| < 0x1_0000
  }

  function Relayed(letters: seq<Letter>): seq<seq<Byte>>
  {
    if letters == [] then [] else [Relay(PrintMessage(TYPE_MESSAGE_SEND, letters[0].sent.fields))] + Relayed(letters[1..])
  }

  /** The fields a letter arrives with. */
  function Arrived(l: Letter): Fields
  {
    l.sent.fields.(nick := SeenNick(l.written.fields.nick))
  }

  function Arrivals(letters: seq<Letter>): (ps: seq<Packet>)
    ensures |ps| == |letters|
    ensures forall i :: 0 <= i < |letters| ==> ps[i] == Packets.Message(Arrived(letters[i]))
  {
    if letters == [] then [] else [Packets.Message(Arrived(letters[0]))] + Arrivals(letters[1..])
  }

  lemma RelayedParse(content: seq<Byte>, residue: Residue)
    requires TypeOf(content, residue) == TYPE_MESSAGE_RECV
    ensures Parse(content, residue) == ParseMessage(content)
  {
  }

  lemma RelayedLength(f: Fields)
    ensures |Relay(PrintMessage(TYPE_MESSAGE_SEND, f))| == MESSAGE_HEADER_SIZE + |f.payload| - MAC_BYTES
  {
  }

  lemma RelayedContent(c: Cipher, l: Letter, bob: Account)
    requires Valid(c, l, bob)
    ensures var content := Relay(PrintMessage(TYPE_MESSAGE_SEND, l.sent.fields));
      Delivery.WellFormed(content) && Parse(content, Zeros(4)) == Ok(Packets.Message(Arrived(l)))
  {
    var content := Relay(PrintMessage(TYPE_MESSAGE_SEND, l.sent.fields));
    assert Parse(content, Zeros(4)) == Ok(Packets.Message(Arrived(l))) by {
      RelayedMessage(l.sent.fields);
      RelayedParse(content, Zeros(4));
      Conversation(c, (kind, body) => false, l.written, l.author, bob, l.random, l.sent);
    }
    RelayedLength(l.sent.fields);
    RefusedIffBadLength(content, Zeros(4));
  }

  lemma {:induction false} RelayedKnown(c: Cipher, letters: seq<Letter>, bob: Account)
    requires forall i :: 0 <= i < |letters| ==> Valid(c, letters[i], bob)
    ensures |Relayed(letters)| == |letters|
    ensures forall i :: 0 <= i < |letters| ==> Delivery.WellFormed(Relayed(letters)[i])
    ensures Delivery.Known(Relayed(letters)) == Arrivals(letters)
  {
    if letters != [] {
      RelayedContent(c, letters[0], bob);
      RelayedKnown(c, letters[1..], bob);
      assert Relayed(letters)[1..] == Relayed(letters[1..]);
    }
  }

  lemma {:induction false} CompleteAll(boxes: seq<seq<Byte>>)
    ensures Framing.Complete(boxes, |Framing.FramesOf(boxes)|) == |boxes|
  {
    if boxes != [] {
      CompleteAll(boxes[1..]);
    }
  }

  /** With the whole stream, every frame is complete. */
  lemma Everything(env: Transport.Env, m: Transport.Machine, srv: Delivery.Server, contents: seq<seq<Byte>>)
    requires Delivery.Handshaking(env, m, srv)
    ensures Delivery.FramesWithin(env, m, srv, contents, |Delivery.ServerStream(env, m, srv, contents)|) == |contents|
  {
    Delivery.HelloAccepted(env, m, srv);
    Delivery.ServerBoxOpens(env, m, srv.sessionSK, srv.prefix, Transport.Advance(m.serverCounter, 1), Zeros(16));
    CompleteAll(Delivery.HonestBoxes(env, m, srv, contents));
  }

  /** What the recipient reads in a letter taken from the queue. */
  function Reading(c: Cipher, codecs: Codecs, l: Letter, bob: Account): (State, Option<Failure>)
  {
    Decrypted(c, codecs, State(TYPE_MESSAGE_RECV, Arrived(l), NoPayload), Contact(l.author.id, c.publicOf(l.author.sk)), bob)
  }

  /** The letter is read as written exactly when its payload is sendable. */
  ghost predicate Read(c: Cipher, codecs: Codecs, l: Letter, bob: Account)
  {
    var read := Reading(c, codecs, l, bob);
    && (read.1 == None <==> Sendable(codecs, l.written.payload))
    && (read.1 == None ==> read.0.payload == l.written.payload)
  }

  lemma LetterRead(c: Cipher, codecs: Codecs, l: Letter, bob: Account)
    requires Valid(c, l, bob)
    ensures Read(c, codecs, l, bob)
  {
    Conversation(c, codecs, l.written, l.author, bob, l.random, l.sent);
  }

  /**
   * However the server's bytes are cut and whatever is sent in between: if no step has
   * the socket break on what is to be written, and only then, the session is alive at the
   * end; the letters the server relays are then in its queue, all of them, in order, and
   * each is read as written if and only if its payload was sendable.
   */
  lemma LettersArrive(env: Transport.Env, m: Transport.Machine, srv: Delivery.Server, letters: seq<Letter>, bob: Account,
                      codecs: Codecs, events: seq<Runs.Event>)
    requires Delivery.Handshaking(env, m, srv)
    requires forall i :: 0 <= i < |letters| ==> Valid(env.cipher, letters[i], bob)
    requires Flatten(Interleaving.Reads(events)) == Delivery.ServerStream(env, m, srv, Relayed(letters))
    ensures var r := Runs.Run(env, m, events);
      && (r.phase != Transport.Disconnected <==> !Interleaving.SomeBreaks(env, m, events))
      && (r.phase != Transport.Disconnected ==> r.queue == m.queue + Arrivals(letters))
    ensures forall i :: 0 <= i < |letters| ==> Read(env.cipher, codecs, letters[i], bob)
  {
    var contents := Relayed(letters);
    RelayedKnown(env.cipher, letters, bob);
    Interleaving.DeliveredAmidWrites(env, m, srv, contents, events);
    Everything(env, m, srv, contents);
    assert contents[..|contents|] == contents;
    Delivery.QueueListed(m.queue, contents, |contents|, Runs.Run(env, m, events).queue);
    forall i | 0 <= i < |letters|
      ensures Read(env.cipher, codecs, letters[i], bob)
    {
      LetterRead(env.cipher, codecs, letters[i], bob);
    }
  }
}
