/**
 * End-to-end delivery: an honest server's bytes, cut in any way and stopped anywhere,
 * put exactly the packets received whole into the session's queue.
 */
module Delivery {
  import opened Bytes
  import opened Bits
  import opened Wrappers
  import opened Box
  import opened Packets
  import opened Socket
  import opened Transport
  import opened Chunking
  import opened Framing

  /** A server's long-term and session secret keys and its nonce prefix. */
  datatype Server = Server(longSK: Key, sessionSK: Key, prefix: Prefix)

  /** A client that has said hello, over any socket, to the server it means to talk to. */
  ghost predicate Handshaking(env: Env, m: Machine, srv: Server)
  {
    && Inv(m) && m.phase == WaitHello && m.rbuf == []
    && m.sessionPK == env.cipher.publicOf(m.sessionSK)
    && m.serverPK == env.cipher.publicOf(srv.longSK)
  }

  /** What the server seals for the client under a counter value. */
  function ServerBox(env: Env, m: Machine, sk: Key, prefix: Prefix, counter: Counter, plain: seq<Byte>): seq<Byte>
  {
    match Seal(env.cipher, m.sessionPK, sk, MakeNonce(prefix, counter), plain)
    case None => []
    case Some(box) => box
  }

  function ServerHello(env: Env, m: Machine, srv: Server): seq<Byte>
  {
    srv.prefix + ServerBox(env, m, srv.longSK, srv.prefix, m.serverCounter, env.cipher.publicOf(srv.sessionSK) + m.prefix)
  }

  function ServerAck(env: Env, m: Machine, srv: Server): seq<Byte>
  {
    ServerBox(env, m, srv.sessionSK, srv.prefix, Advance(m.serverCounter, 1), Zeros(16))
  }

  /** The k-th content travels in the k-th box, under the k-th counter value after the given one. */
  function ServerBoxes(env: Env, m: Machine, srv: Server, contents: seq<seq<Byte>>, counter: Counter): (boxes: seq<seq<Byte>>)
    ensures |boxes| == |contents|
  {
    if contents == [] then []
    else [ServerBox(env, m, srv.sessionSK, srv.prefix, counter, contents[0])]
         + ServerBoxes(env, m, srv, contents[1..], Next(counter))
  }

  function HonestBoxes(env: Env, m: Machine, srv: Server, contents: seq<seq<Byte>>): (boxes: seq<seq<Byte>>)
    ensures |boxes| == |contents|
  {
    ServerBoxes(env, m, srv, contents, Advance(m.serverCounter, 2))
  }

  function ServerFrames(env: Env, m: Machine, srv: Server, contents: seq<seq<Byte>>): seq<Byte>
  {
    FramesOf(HonestBoxes(env, m, srv, contents))
  }

  function ServerStream(env: Env, m: Machine, srv: Server, contents: seq<seq<Byte>>): seq<Byte>
  {
    ServerHello(env, m, srv) + (ServerAck(env, m, srv) + ServerFrames(env, m, srv, contents))
  }

  /** A content the protocol allows: a type, room in the length field, and no malformed body. */
  predicate WellFormed(content: seq<Byte>)
  {
    4 <= |content| && |content| + MAC_BYTES < 0x1_0000 && !BadLength(content)
  }

  /** The packets of known type, in order. */
  function Known(contents: seq<seq<Byte>>): seq<Packet>
  {
    if contents == [] then []
    else (match Parse(contents[0], Zeros(4)) case Ok(p) => [p] case Err(_) => []) + Known(contents[1..])
  }

  /** These are, in order, the packets that the contents of known type stand for, byte by byte. */
  predicate Listed(contents: seq<seq<Byte>>, ps: seq<Packet>)
    decreases |contents|
  {
    if contents == [] then ps == []
    else
      && |contents[0]| >= 4
      && if KnownType(contents[0][..4])
         then ps != [] && Stands(contents[0], ps[0]) && Listed(contents[1..], ps[1..])
         else Listed(contents[1..], ps)
  }

  lemma FirstKnown(content: seq<Byte>)
    requires WellFormed(content)
    ensures Known([content]) == match Parse(content, Zeros(4)) case Ok(p) => [p] case Err(_) => []
    ensures KnownType(content[..4]) <==> Parse(content, Zeros(4)).Ok?
  {
    var one: seq<seq<Byte>> := [content];
    assert one[1..] == [];
    RefusedIffBadLength(content, Zeros(4));
    SkippedIffUnknown(content, Zeros(4));
    assert (content + Zeros(4))[..4] == content[..4];
  }

  lemma {:induction false} ListedIsKnown(contents: seq<seq<Byte>>, ps: seq<Packet>)
    requires forall i :: 0 <= i < |contents| ==> WellFormed(contents[i])
    ensures Listed(contents, ps) <==> ps == Known(contents)
    decreases |contents|
  {
    if contents != [] {
      var c, rest := contents[0], contents[1..];
      FirstKnown(c);
      KnownSplit(contents);
      if KnownType(c[..4]) {
        if ps != [] {
          ParsedIffStands(c, Zeros(4), ps[0]);
          ListedIsKnown(rest, ps[1..]);
          assert ps == [ps[0]] + ps[1..];
        }
      } else {
        ListedIsKnown(rest, ps);
      }
    }
  }

  /** How many frames are complete, and how many boxes have been opened, after n bytes. */
  function FramesWithin(env: Env, m: Machine, srv: Server, contents: seq<seq<Byte>>, n: nat): (k: nat)
    ensures k <= |contents|
  {
    if n < HELLO_SIZE + ACK_SIZE then 0
    else Complete(HonestBoxes(env, m, srv, contents), n - HELLO_SIZE - ACK_SIZE)
  }

  function OpenedWithin(env: Env, m: Machine, srv: Server, contents: seq<seq<Byte>>, n: nat): nat
  {
    if n < HELLO_SIZE then 0
    else if n < HELLO_SIZE + ACK_SIZE then 1
    else 2 + FramesWithin(env, m, srv, contents, n)
  }

  lemma ParseIgnoresResidue(data: seq<Byte>, r: Residue, r': Residue)
    requires |data| >= 4
    ensures Parse(data, r) == Parse(data, r')
  {
    assert (data + r)[..4] == data[..4] == (data + r')[..4];
  }

  /** Client and server agree on what the server seals with either of its keys. */
  lemma ServerBoxOpens(env: Env, m: Machine, sk: Key, prefix: Prefix, counter: Counter, plain: seq<Byte>)
    requires m.sessionPK == env.cipher.publicOf(m.sessionSK)
    ensures var box := ServerBox(env, m, sk, prefix, counter, plain);
      && |box| == |plain| + MAC_BYTES
      && Open(env.cipher, env.cipher.publicOf(sk), m.sessionSK, MakeNonce(prefix, counter), box) == Some(plain)
  {
    OpenSeal(env.cipher, sk, m.sessionSK, MakeNonce(prefix, counter), plain);
  }

  /** Counting on: j steps and then k are j + k. */
  lemma AdvanceSum(start: Counter, j: nat, k: nat)
    ensures Advance(Advance(start, j), k) == Advance(start, j + k)
  {
    var q, r := (start + j) / MODULUS, (start + j) % MODULUS;
    var q', r' := (r + k) / MODULUS, (r + k) % MODULUS;
    assert start + j + k == (q + q') * MODULUS + r';
    Quotient(start + j + k, MODULUS, q + q', r');
  }

  /** The client's state once it has read the server's hello. */
  function Greeted(env: Env, m: Machine, srv: Server): Machine
  {
    m.(rbuf := [], serverPrefix := srv.prefix, serverCounter := Next(m.serverCounter),
       sessionServerPK := env.cipher.publicOf(srv.sessionSK))
  }

  lemma HelloAccepted(env: Env, m: Machine, srv: Server)
    requires Handshaking(env, m, srv)
    ensures |ServerHello(env, m, srv)| == HELLO_SIZE
    ensures ReadHello(env, m.(rbuf := ServerHello(env, m, srv))) == Done(Greeted(env, m, srv))
  {
    var plain := env.cipher.publicOf(srv.sessionSK) + m.prefix;
    ServerBoxOpens(env, m, srv.longSK, srv.prefix, m.serverCounter, plain);
    var hello := ServerHello(env, m, srv);
    assert hello[..PREFIX_BYTES] == srv.prefix;
    assert hello[PREFIX_BYTES..HELLO_SIZE] == ServerBox(env, m, srv.longSK, srv.prefix, m.serverCounter, plain);
    assert plain[..KEY_BYTES] == env.cipher.publicOf(srv.sessionSK) && plain[KEY_BYTES..] == m.prefix;
  }

  /** The authentication the client seals for this server. */
  function AuthBox(env: Env, m: Machine, srv: Server): seq<Byte>
  {
    var g := Greeted(env, m, srv);
    match Seal(env.cipher, m.serverPK, env.sk, m.authNonce, m.sessionPK)
    case None => []
    case Some(inner) =>
      match Seal(env.cipher, g.sessionServerPK, m.sessionSK, MakeNonce(m.prefix, m.counter), AuthPlain(env, g, inner))
      case None => []
      case Some(box) => box
  }

  /** The socket takes the authentication, behind what is still buffered, or would block; it does not break on it. */
  predicate AuthGoes(m: Machine)
    requires m.socket.Some?
  {
    !BreaksOn(m.socket.value.script, |m.wbuf| + AUTH_SIZE, 0)
  }

  lemma AuthSealed(env: Env, m: Machine, srv: Server)
    requires Handshaking(env, m, srv)
    ensures var g := Greeted(env, m, srv);
      SendAuth(env, g) == Append(g.(counter := Next(m.counter)), Auth(MakeNonce(m.prefix, m.counter), AuthBox(env, m, srv)))
    ensures |AuthBox(env, m, srv)| == AUTH_SIZE
  {
    var g := Greeted(env, m, srv);
    OpenSeal(env.cipher, env.sk, srv.longSK, m.authNonce, m.sessionPK);
    var inner := Seal(env.cipher, m.serverPK, env.sk, m.authNonce, m.sessionPK).value;
    OpenSeal(env.cipher, m.sessionSK, srv.sessionSK, MakeNonce(m.prefix, m.counter), AuthPlain(env, g, inner));
  }

  /** The authentication is on the wire, or buffered, or the socket broke on it and the session is terminated. */
  lemma AuthSent(env: Env, m: Machine, srv: Server)
    requires Handshaking(env, m, srv)
    ensures var g := Greeted(env, m, srv);
      var r := SendAuth(env, g);
      && (r.Done? <==> AuthGoes(m))
      && (r.Done? ==> r.m == g.(counter := Next(m.counter), socket := r.m.socket, wbuf := r.m.wbuf, log := r.m.log)
                      && r.m.socket.value.wire + r.m.wbuf == LogBytes(m.log) + AuthBox(env, m, srv))
      && (r.Threw? ==> r.error == SocketError && r.m.phase == Disconnected
                       && r.m.serverCounter == Next(m.serverCounter) && r.m.queue == m.queue)
  {
    var g := Greeted(env, m, srv);
    var w := Auth(MakeNonce(m.prefix, m.counter), AuthBox(env, m, srv));
    AuthSealed(env, m, srv);
    AppendKeeps(g.(counter := Next(m.counter)), w);
    TransmitEnds(m.socket.value, m.wbuf + AuthBox(env, m, srv), 0);
    assert (m.log + [w])[..|m.log|] == m.log;
  }

  lemma AckAccepted(env: Env, m: Machine, srv: Server, a: Machine)
    requires m.sessionPK == env.cipher.publicOf(m.sessionSK)
    requires a.sessionSK == m.sessionSK && a.sessionServerPK == env.cipher.publicOf(srv.sessionSK)
    requires a.serverPrefix == srv.prefix && a.serverCounter == Advance(m.serverCounter, 1)
    ensures |ServerAck(env, m, srv)| == ACK_SIZE
    ensures ReadAck(env, a.(rbuf := ServerAck(env, m, srv)))
            == Done(a.(rbuf := [], serverCounter := Advance(m.serverCounter, 2)))
  {
    ServerBoxOpens(env, m, srv.sessionSK, srv.prefix, a.serverCounter, Zeros(16));
    AdvanceSum(m.serverCounter, 1, 1);
    var ack := ServerAck(env, m, srv);
    assert ack[..ACK_SIZE] == ack && ack[ACK_SIZE..] == [];
  }

  /** One honest box opens to its content, which is queued if its type is known. */
  lemma BoxOpened(env: Env, m: Machine, srv: Server, a: Machine, content: seq<Byte>)
    requires m.sessionPK == env.cipher.publicOf(m.sessionSK)
    requires a.sessionSK == m.sessionSK && a.sessionServerPK == env.cipher.publicOf(srv.sessionSK)
    requires a.serverPrefix == srv.prefix && WellFormed(content)
    ensures OpenBody(env, a, ServerBox(env, m, srv.sessionSK, srv.prefix, a.serverCounter, content))
            == Done(Received(a, [content]))
  {
    var box := ServerBox(env, m, srv.sessionSK, srv.prefix, a.serverCounter, content);
    ServerBoxOpens(env, m, srv.sessionSK, srv.prefix, a.serverCounter, content);
    ParseIgnoresResidue(content, env.residue(box), Zeros(4));
    RefusedIffBadLength(content, Zeros(4));
    var one: seq<seq<Byte>> := [content];
    assert one[1..] == [] && Known(one) == (match Parse(content, Zeros(4)) case Ok(p) => [p] case Err(_) => []);
    assert a.queue + [] == a.queue;
  }

  lemma {:induction false} ServerBoxesPrefix(env: Env, m: Machine, srv: Server, contents: seq<seq<Byte>>, counter: Counter, k: nat)
    requires k <= |contents|
    ensures ServerBoxes(env, m, srv, contents, counter)[..k] == ServerBoxes(env, m, srv, contents[..k], counter)
    decreases k
  {
    if k > 0 {
      ServerBoxesPrefix(env, m, srv, contents[1..], Next(counter), k - 1);
      assert contents[..k][1..] == contents[1..][..k - 1];
    }
  }

  /** The machine that has opened one box per content. */
  function Received(a: Machine, contents: seq<seq<Byte>>): Machine
  {
    a.(serverCounter := Advance(a.serverCounter, |contents|), queue := a.queue + Known(contents))
  }

  lemma ReceivedSplit(a: Machine, contents: seq<seq<Byte>>)
    requires contents != []
    ensures Received(Received(a, [contents[0]]), contents[1..]) == Received(a, contents)
  {
    KnownSplit(contents);
    AdvanceSum(a.serverCounter, 1, |contents| - 1);
  }

  lemma OpenAllFirst(env: Env, a: Machine, box: seq<Byte>, rest: seq<seq<Byte>>, a1: Machine)
    requires OpenBody(env, a, box) == Done(a1)
    ensures OpenAll(env, a, [box] + rest) == OpenAll(env, a1, rest)
  {
    assert ([box] + rest)[1..] == rest;
  }

  /** Opening honest boxes queues the known packets among their contents. */
  lemma {:induction false} BoxesOpened(env: Env, m: Machine, srv: Server, a: Machine, contents: seq<seq<Byte>>)
    requires m.sessionPK == env.cipher.publicOf(m.sessionSK)
    requires a.sessionSK == m.sessionSK && a.sessionServerPK == env.cipher.publicOf(srv.sessionSK)
    requires a.serverPrefix == srv.prefix
    requires forall i :: 0 <= i < |contents| ==> WellFormed(contents[i])
    ensures OpenAll(env, a, ServerBoxes(env, m, srv, contents, a.serverCounter)) == Done(Received(a, contents))
    decreases |contents|
  {
    if contents == [] {
      assert a.queue + [] == a.queue;
    } else {
      var c, rest := contents[0], contents[1..];
      var a1 := Received(a, [c]);
      var box := ServerBox(env, m, srv.sessionSK, srv.prefix, a.serverCounter, c);
      BoxOpened(env, m, srv, a, c);
      OpenAllFirst(env, a, box, ServerBoxes(env, m, srv, rest, a1.serverCounter), a1);
      BoxesOpened(env, m, srv, a1, rest);
      ReceivedSplit(a, contents);
    }
  }

  lemma KnownSplit(contents: seq<seq<Byte>>)
    requires contents != []
    ensures Known(contents) == Known([contents[0]]) + Known(contents[1..])
  {
    var one: seq<seq<Byte>> := [contents[0]];
    assert one[1..] == [];
  }

  lemma {:induction false} HonestBoxesFit(env: Env, m: Machine, srv: Server, contents: seq<seq<Byte>>, counter: Counter)
    requires m.sessionPK == env.cipher.publicOf(m.sessionSK)
    requires forall i :: 0 <= i < |contents| ==> WellFormed(contents[i])
    ensures AllFit(ServerBoxes(env, m, srv, contents, counter))
  {
    if contents != [] {
      ServerBoxOpens(env, m, srv.sessionSK, srv.prefix, counter, contents[0]);
      HonestBoxesFit(env, m, srv, contents[1..], Next(counter));
      var boxes := ServerBoxes(env, m, srv, contents, counter);
      forall i | 0 < i < |contents|
        ensures Fits(boxes[i])
      {
        assert boxes[i] == ServerBoxes(env, m, srv, contents[1..], Next(counter))[i - 1];
      }
    }
  }

  /** The frames part: after the handshake, x is the part of the frames that has arrived. */
  lemma FramesDelivered(env: Env, m: Machine, srv: Server, a: Machine, contents: seq<seq<Byte>>, n: nat)
    requires m.sessionPK == env.cipher.publicOf(m.sessionSK)
    requires a.sessionSK == m.sessionSK && a.sessionServerPK == env.cipher.publicOf(srv.sessionSK)
    requires a.serverPrefix == srv.prefix && a.serverCounter == Advance(m.serverCounter, 2)
    requires forall i :: 0 <= i < |contents| ==> WellFormed(contents[i])
    requires n <= |FramesOf(HonestBoxes(env, m, srv, contents))|
    ensures var boxes := HonestBoxes(env, m, srv, contents);
      var k := Complete(boxes, n);
      var r := ParseFrames(env, a, FramesOf(boxes)[..n]);
      && r.Done? && r.m.phase != Disconnected && r.m.nextRead > 0
      && r.m.serverCounter == Advance(m.serverCounter, 2 + k)
      && r.m.queue == a.queue + Known(contents[..k])
  {
    var boxes := HonestBoxes(env, m, srv, contents);
    HonestBoxesFit(env, m, srv, contents, a.serverCounter);
    UnframePrefix(boxes, n);
    var k := Complete(boxes, n);
    ServerBoxesPrefix(env, m, srv, contents, a.serverCounter, k);
    BoxesOpened(env, m, srv, a, contents[..k]);
    AdvanceSum(m.serverCounter, 2, k);
  }

  /** The session is alive, has counted every opened box and queued every packet received whole. */
  ghost predicate Delivered(env: Env, m: Machine, srv: Server, contents: seq<seq<Byte>>, n: nat, r: Machine)
  {
    && r.phase != Disconnected && r.nextRead > 0
    && r.serverCounter == Advance(m.serverCounter, OpenedWithin(env, m, srv, contents, n))
    && m.queue <= r.queue
    && Listed(contents[..FramesWithin(env, m, srv, contents, n)], r.queue[|m.queue|..])
  }

  lemma QueueListed(queue: seq<Packet>, contents: seq<seq<Byte>>, k: nat, q: seq<Packet>)
    requires forall i :: 0 <= i < |contents| ==> WellFormed(contents[i])
    requires k <= |contents|
    ensures queue <= q && Listed(contents[..k], q[|queue|..]) <==> q == queue + Known(contents[..k])
  {
    if queue <= q {
      assert q == queue + q[|queue|..];
      ListedIsKnown(contents[..k], q[|queue|..]);
    }
  }

  /** The acknowledgement and n bytes of the frames have arrived. */
  lemma AckAndFrames(env: Env, m: Machine, srv: Server, a: Machine, contents: seq<seq<Byte>>, n: nat)
    requires m.sessionPK == env.cipher.publicOf(m.sessionSK)
    requires a.sessionSK == m.sessionSK && a.sessionServerPK == env.cipher.publicOf(srv.sessionSK)
    requires a.serverPrefix == srv.prefix && a.serverCounter == Advance(m.serverCounter, 1) && a.queue == m.queue
    requires forall i :: 0 <= i < |contents| ==> WellFormed(contents[i])
    requires n <= |ServerFrames(env, m, srv, contents)|
    ensures var r := ParseAck(env, a, ServerAck(env, m, srv) + ServerFrames(env, m, srv, contents)[..n]);
      r.Done? && Delivered(env, m, srv, contents, HELLO_SIZE + ACK_SIZE + n, r.m)
  {
    var ack, x := ServerAck(env, m, srv), ServerFrames(env, m, srv, contents)[..n];
    AckAccepted(env, m, srv, a);
    assert (ack + x)[..ACK_SIZE] == ack && (ack + x)[ACK_SIZE..] == x;
    FramesDelivered(env, m, srv, a.(rbuf := [], serverCounter := Advance(m.serverCounter, 2)), contents, n);
    DeliveredQueue(env, m, srv, contents, HELLO_SIZE + ACK_SIZE + n, ParseAck(env, a, ack + x).m);
  }

  /** After the hello: x is the part of acknowledgement and frames that has arrived. */
  lemma AckDelivered(env: Env, m: Machine, srv: Server, a: Machine, contents: seq<seq<Byte>>, n: nat)
    requires m.sessionPK == env.cipher.publicOf(m.sessionSK)
    requires a.sessionSK == m.sessionSK && a.sessionServerPK == env.cipher.publicOf(srv.sessionSK)
    requires a.serverPrefix == srv.prefix && a.serverCounter == Advance(m.serverCounter, 1) && a.queue == m.queue
    requires forall i :: 0 <= i < |contents| ==> WellFormed(contents[i])
    requires n <= |ServerAck(env, m, srv) + ServerFrames(env, m, srv, contents)|
    ensures var x := (ServerAck(env, m, srv) + ServerFrames(env, m, srv, contents))[..n];
      var r := ParseAck(env, a, x);
      r.Done? && Delivered(env, m, srv, contents, HELLO_SIZE + n, r.m)
  {
    var ack, frames := ServerAck(env, m, srv), ServerFrames(env, m, srv, contents);
    AckAccepted(env, m, srv, a);
    if n >= ACK_SIZE {
      StreamSplit(ack, frames, n);
      AckAndFrames(env, m, srv, a, contents, n - ACK_SIZE);
    } else {
      assert m.queue[|m.queue|..] == [] && contents[..0] == [];
    }
  }

  lemma DeliveredQueue(env: Env, m: Machine, srv: Server, contents: seq<seq<Byte>>, n: nat, r: Machine)
    requires forall i :: 0 <= i < |contents| ==> WellFormed(contents[i])
    requires r.phase != Disconnected && r.nextRead > 0
    requires r.serverCounter == Advance(m.serverCounter, OpenedWithin(env, m, srv, contents, n))
    requires r.queue == m.queue + Known(contents[..FramesWithin(env, m, srv, contents, n)])
    ensures Delivered(env, m, srv, contents, n, r)
  {
    QueueListed(m.queue, contents, FramesWithin(env, m, srv, contents, n), r.queue);
  }

  /** The whole hello has arrived: b is what follows it. */
  lemma HelloDelivered(env: Env, m: Machine, srv: Server, x: seq<Byte>) returns (a: Machine)
    requires Handshaking(env, m, srv) && AuthGoes(m)
    ensures ParseStream(env, m, ServerHello(env, m, srv) + x) == ParseAck(env, a, x)
    ensures a.sessionSK == m.sessionSK && a.sessionServerPK == env.cipher.publicOf(srv.sessionSK)
    ensures a.serverPrefix == srv.prefix && a.serverCounter == Advance(m.serverCounter, 1) && a.queue == m.queue
  {
    HelloAccepted(env, m, srv);
    AuthSent(env, m, srv);
    var g := Greeted(env, m, srv);
    a := SendAuth(env, g).m;
    var b := ServerHello(env, m, srv) + x;
    assert b[..HELLO_SIZE] == ServerHello(env, m, srv) && b[HELLO_SIZE..] == x;
    AfterHello(env, m, b, g, a);
  }

  lemma AfterHello(env: Env, m: Machine, b: seq<Byte>, g: Machine, a: Machine)
    requires |b| >= HELLO_SIZE
    requires ReadHello(env, m.(rbuf := b[..HELLO_SIZE])) == Done(g) && SendAuth(env, g) == Done(a)
    ensures ParseStream(env, m, b) == ParseAck(env, a, b[HELLO_SIZE..])
  {
  }

  lemma NothingYet(env: Env, m: Machine, srv: Server, contents: seq<seq<Byte>>, b: seq<Byte>)
    requires Handshaking(env, m, srv) && |b| < HELLO_SIZE
    ensures var r := ParseStream(env, m, b);
      r.Done? && Delivered(env, m, srv, contents, |b|, r.m)
  {
    assert m.queue[|m.queue|..] == [] && contents[..0] == [];
  }

  /** The socket broke on the authentication: the hello has been read, and nothing behind it. */
  ghost predicate BrokenOff(m: Machine, r: Machine)
  {
    r.phase == Disconnected && r.serverCounter == Next(m.serverCounter) && r.queue == m.queue
  }

  lemma HelloBrokenOff(env: Env, m: Machine, srv: Server, x: seq<Byte>)
    requires Handshaking(env, m, srv) && !AuthGoes(m)
    ensures var r := ParseStream(env, m, ServerHello(env, m, srv) + x);
      r.Threw? && r.error == SocketError && BrokenOff(m, Terminate(r.m))
  {
    HelloAccepted(env, m, srv);
    AuthSent(env, m, srv);
    var b := ServerHello(env, m, srv) + x;
    assert b[..HELLO_SIZE] == ServerHello(env, m, srv);
  }

  /** Any prefix of an honest stream, seen by the one-shot parser. */
  lemma DeliveredByParser(env: Env, m: Machine, srv: Server, contents: seq<seq<Byte>>, n: nat)
    requires Handshaking(env, m, srv)
    requires forall i :: 0 <= i < |contents| ==> WellFormed(contents[i])
    requires n <= |ServerStream(env, m, srv, contents)|
    ensures var r := ParseStream(env, m, ServerStream(env, m, srv, contents)[..n]);
      if n < HELLO_SIZE || AuthGoes(m) then r.Done? && Delivered(env, m, srv, contents, n, r.m)
      else r.Threw? && r.error == SocketError && BrokenOff(m, Terminate(r.m))
  {
    HelloAccepted(env, m, srv);
    if n < HELLO_SIZE {
      NothingYet(env, m, srv, contents, ServerStream(env, m, srv, contents)[..n]);
    } else {
      var rest := ServerAck(env, m, srv) + ServerFrames(env, m, srv, contents);
      StreamSplit(ServerHello(env, m, srv), rest, n);
      if AuthGoes(m) {
        var a := HelloDelivered(env, m, srv, rest[..n - HELLO_SIZE]);
        AckDelivered(env, m, srv, a, contents, n - HELLO_SIZE);
      } else {
        HelloBrokenOff(env, m, srv, rest[..n - HELLO_SIZE]);
      }
    }
  }

  lemma StreamSplit(head: seq<Byte>, tail: seq<Byte>, n: nat)
    requires |head| <= n <= |head| + |tail|
    ensures (head + tail)[..n] == head + tail[..n - |head|]
  {
  }

  /**
   * End-to-end delivery, exactly: for every honest run and every chunking of any prefix
   * of its bytes, the session is alive, its counter matches the boxes opened and its queue
   * holds exactly the known packets of the longest completely received prefix, if and only
   * if the socket does not break on the one authentication written on the way; otherwise
   * the session is terminated, having read the hello and nothing else.
   */
  lemma EndToEnd(env: Env, m: Machine, srv: Server, contents: seq<seq<Byte>>, chunks: seq<seq<Byte>>)
    requires Handshaking(env, m, srv)
    requires forall i :: 0 <= i < |contents| ==> WellFormed(contents[i])
    requires Flatten(chunks) <= ServerStream(env, m, srv, contents)
    ensures var n, r := |Flatten(chunks)|, ArriveAll(env, m, chunks);
      && (Delivered(env, m, srv, contents, n, r) <==> n < HELLO_SIZE || AuthGoes(m))
      && (BrokenOff(m, r) <==> n >= HELLO_SIZE && !AuthGoes(m))
  {
    var n := |Flatten(chunks)|;
    assert Flatten(chunks) == ServerStream(env, m, srv, contents)[..n];
    ArriveAllAtOnce(env, m, chunks);
    ArriveIsParse(env, m, Flatten(chunks));
    DeliveredByParser(env, m, srv, contents, n);
  }

  // ----- sockets for which this holds -----

  /** A socket that takes whole messages: then the authentication is on the wire. */
  lemma AcceptingGoes(env: Env, m: Machine, srv: Server, k: nat, more: seq<Answer>)
    requires Handshaking(env, m, srv) && m.socket.value.script == [Sent(k)] + more && k >= |m.wbuf| + AUTH_SIZE
    ensures AuthGoes(m)
    ensures SendAuth(env, Greeted(env, m, srv)).m.wbuf == []
  {
    AuthSealed(env, m, srv);
    assert m.socket.value.script[1..] == more;
    AcceptedWhole(m.socket.value, m.wbuf + AuthBox(env, m, srv), k, more);
  }

  lemma AcceptedWhole(s: Stream, msg: seq<Byte>, k: nat, more: seq<Answer>)
    requires s.script == [Sent(k)] + more && 0 < |msg| <= k
    ensures Transmit(s, msg, 0) == (SendResult.Delivered, Stream(more, s.wire + msg))
  {
    assert msg[0..|msg|] == msg && s.script[1..] == more;
    var t := Stream(more, s.wire + msg);
    assert Transmit(t, msg, |msg|) == (SendResult.Delivered, t);
  }

  lemma HelloGoes(f: Machine, k: nat, more: seq<Answer>)
    requires f.socket == Some(Stream([Sent(k)] + more, [])) && f.wbuf == [] && k >= 48
    ensures var hello := f.sessionPK + f.prefix;
      SayHello(f) == Done(f.(socket := Some(Stream(more, hello)), nextRead := HELLO_SIZE, phase := WaitHello,
                             log := f.log + [Hello(hello)]))
  {
    var hello := f.sessionPK + f.prefix;
    assert [] + hello == hello;
    AcceptedWhole(f.socket.value, hello, k, more);
  }

  /**
   * Connecting over a socket that takes hello and authentication whole leads to such a
   * handshake, whatever the keys and the nonce prefix.
   */
  lemma HandshakingOverOpenSocket(env: Env, m: Machine, srv: Server, useProxy: bool, choices: Choices, k1: nat, k2: nat, more: seq<Answer>)
    requires Inv(m) && m.phase != WaitConnect && k1 >= 48 && k2 >= AUTH_SIZE
    requires choices.sessionPK == env.cipher.publicOf(choices.sessionSK)
    requires env.cipher.publicOf(srv.longSK) == if useProxy then SERVER_PK else GATEWAY_PK
    ensures var r := Connect(m, Stream([Sent(k1)] + ([Sent(k2)] + more), []), useProxy, choices);
      r.Done? && Handshaking(env, r.m, srv) && AuthGoes(r.m)
  {
    var s := Stream([Sent(k1)] + ([Sent(k2)] + more), []);
    ConnectKeeps(m, s, useProxy, choices);
    HelloGoes(Fresh(if m.phase != Disconnected then Terminate(m) else m, s, useProxy, choices), k1, [Sent(k2)] + more);
    AcceptingGoes(env, Connect(m, s, useProxy, choices).m, srv, k2, more);
  }
}
