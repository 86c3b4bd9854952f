/**
 * Delivery in the middle of writing: an honest server's bytes arrive while packets are
 * sent and the socket becomes writable, in any order and with any answers of the socket.
 */
module Interleaving {
  import opened Bytes
  import opened Wrappers
  import opened Box
  import opened Packets
  import opened Socket
  import opened Transport
  import opened Chunking
  import opened Delivery
  import opened Runs
  import opened Conservation

  /** The same session with nothing written yet, on a socket that only ever blocks. */
  function Quiet(m: Machine): Machine
  {
    m.(counter := 0, wbuf := [], log := [], socket := Some(Stream([], [])))
  }

  /** m reads as q does; q's socket cannot break. */
  ghost predicate SameReading(m: Machine, q: Machine)
  {
    && Inv(m) && Inv(q) && m.phase != WaitConnect && m.phase != Disconnected
    && q.socket.Some? && q.socket.value.script == [] && Quiet(m) == Quiet(q)
  }

  lemma FlushBlocks(q: Machine)
    requires q.socket.Some? && q.socket.value.script == []
    ensures Flush(q).Done? && Quiet(Flush(q).m) == Quiet(q) && Flush(q).m.socket.value.script == []
  {
  }

  lemma FlushReads(m: Machine)
    ensures Flush(m).Done? && m.socket.Some? ==> Quiet(Flush(m).m) == Quiet(m)
    ensures Flush(m).Threw? ==> Flush(m).error == SocketError
  {
  }

  /** Answering the hello differs only in what is written, unless the socket breaks. */
  lemma AuthAlike(env: Env, m: Machine, q: Machine)
    requires m.socket.Some? && q.socket.Some? && q.socket.value.script == [] && Quiet(m) == Quiet(q)
    ensures var r, s := SendAuth(env, m), SendAuth(env, q);
      if r.Threw? && r.error != SocketError then s.Threw? && s.error == r.error
      else s.Done? && s.m.socket.Some? && s.m.socket.value.script == []
           && (r.Done? ==> r.m.socket.Some? && Quiet(r.m) == Quiet(s.m))
  {
    var inner := Seal(env.cipher, m.serverPK, env.sk, m.authNonce, m.sessionPK);
    if inner.Some? && env.cipher.shared(m.sessionServerPK, m.sessionSK).Some? {
      AppendAlike(AuthAppended(env, m, inner.value), AuthAppended(env, q, inner.value));
    }
  }

  /** The machine whose buffer the authentication has just joined. */
  function AuthAppended(env: Env, m: Machine, inner: seq<Byte>): Machine
  {
    match Seal(env.cipher, m.sessionServerPK, m.sessionSK, MakeNonce(m.prefix, m.counter), AuthPlain(env, m, inner))
    case None => m
    case Some(box) =>
      m.(counter := Next(m.counter), wbuf := m.wbuf + box,
         log := Logged(m.(counter := Next(m.counter)), Auth(MakeNonce(m.prefix, m.counter), box)))
  }

  lemma AppendAlike(m: Machine, q: Machine)
    requires m.socket.Some? && q.socket.Some? && q.socket.value.script == [] && Quiet(m) == Quiet(q)
    ensures Flush(q).Done? && Flush(q).m.socket.Some? && Flush(q).m.socket.value.script == []
    ensures Flush(m).Done? ==> Flush(m).m.socket.Some? && Quiet(Flush(m).m) == Quiet(Flush(q).m)
    ensures Flush(m).Threw? ==> Flush(m).error == SocketError
  {
    FlushBlocks(q);
    FlushReads(m);
  }

  lemma HelloAlike(env: Env, m: Machine, q: Machine)
    requires Quiet(m) == Quiet(q) && |m.rbuf| >= HELLO_SIZE
    ensures var r, s := ReadHello(env, m), ReadHello(env, q);
      && Quiet(r.m) == Quiet(s.m) && r.m.socket == m.socket && s.m.socket == q.socket
      && (if r.Done? then s.Done? else s.Threw? && s.error == r.error == SessionError)
  {
  }

  /** A step of the one is a step of the other, unless the socket breaks. */
  lemma StepAlike(env: Env, m: Machine, q: Machine)
    requires SameReading(m, q) && CanStep(m)
    ensures CanStep(q)
    ensures var r, s := PacketReady(env, m), PacketReady(env, q);
      if r.Threw? && r.error != SocketError then s.Threw? && s.error == r.error
      else s.Done? && (r.Done? ==> SameReading(r.m, s.m))
  {
    StepKeeps(env, m);
    StepKeeps(env, q);
    match m.phase
    case WaitHello =>
      HelloAlike(env, m, q);
      var h, k := ReadHello(env, m), ReadHello(env, q);
      if h.Done? {
        AuthAlike(env, h.m, k.m);
      }
    case _ => OtherAlike(env, m, q);
  }

  lemma OtherAlike(env: Env, m: Machine, q: Machine)
    requires SameReading(m, q) && CanStep(m) && m.phase != WaitHello
    ensures var r, s := PacketReady(env, m), PacketReady(env, q);
      if r.Done? then s.Done? && Quiet(r.m) == Quiet(s.m) && s.m.socket == q.socket
      else r.error != SocketError && s.Threw? && s.error == r.error
  {
  }

  lemma {:induction false} DrainAlike(env: Env, m: Machine, q: Machine)
    requires SameReading(m, q)
    ensures var r, s := Drain(env, m), Drain(env, q);
      if r.Threw? && r.error != SocketError then s.Threw?
      else r.Done? ==> s.Done? && SameReading(r.m, s.m)
    decreases |m.rbuf|
  {
    if CanStep(m) {
      StepAlike(env, m, q);
      StepKeeps(env, m);
      var r, s := PacketReady(env, m), PacketReady(env, q);
      if r.Done? {
        DrainAlike(env, r.m, s.m);
      }
    }
  }

  // ----- runs -----

  /** The bytes read in a run, one string per read. */
  function Reads(events: seq<Event>): seq<seq<Byte>>
  {
    if events == [] then []
    else (if events[0].Incoming? then [events[0].bytes] else []) + Reads(events[1..])
  }

  /** The size of the frame a packet is sent in. */
  function FrameSize(plain: seq<Byte>): nat
  {
    LENGTH_SIZE + |plain| + MAC_BYTES
  }

  /** The server's hello is complete and accepted, and the authentication gets as far as being sealed. */
  predicate Answers(env: Env, m: Machine)
  {
    && m.phase == WaitHello && |m.rbuf| >= HELLO_SIZE && ReadHello(env, m).Done?
    && env.cipher.shared(m.serverPK, env.sk).Some?
    && env.cipher.shared(ReadHello(env, m).m.sessionServerPK, m.sessionSK).Some?
  }

  /**
   * In this step the socket breaks on what is to be written: what is buffered and, behind
   * it, the frame of a packet or the authentication.
   */
  ghost predicate Breaks(env: Env, m: Machine, e: Event)
    requires Inv(m) && m.phase != WaitConnect
  {
    && m.phase != Disconnected
    && var script := m.socket.value.script;
       match e
       case Writable => BreaksOn(script, |m.wbuf|, 0)
       case Send(p) =>
         && Print(p).Ok? && env.cipher.shared(m.sessionServerPK, m.sessionSK).Some?
         && BreaksOn(script, |m.wbuf| + FrameSize(Print(p).value), 0)
       case Incoming(bytes) => Answers(env, More(m, bytes)) && BreaksOn(script, |m.wbuf| + AUTH_SIZE, 0)
  }

  /** What a step of a connected session comes to: the exceptions it throws included. */
  ghost function Step(env: Env, m: Machine, e: Event): Outcome
    requires Inv(m) && m.phase != WaitConnect && m.phase != Disconnected
  {
    match e
    case Incoming(bytes) => Drain(env, More(m, bytes))
    case Send(p) => SendPacket(env, m, p)
    case Writable => Flush(m)
  }

  lemma SendBreaks(env: Env, m: Machine, p: Outgoing)
    requires Inv(m) && m.phase != WaitConnect && m.phase != Disconnected
    ensures var r := SendPacket(env, m, p);
      r.Threw? && r.error == SocketError <==> Breaks(env, m, Send(p))
  {
    if Print(p).Ok? && env.cipher.shared(m.sessionServerPK, m.sessionSK).Some? {
      var nonce, plain, m1 := MakeNonce(m.prefix, m.counter), Print(p).value, m.(counter := Next(m.counter));
      var box := Seal(env.cipher, m.sessionServerPK, m.sessionSK, nonce, plain).value;
      var w := Frame(nonce, plain, FrameBytes(box));
      FlushBreaks(m1.(wbuf := m1.wbuf + w.bytes, log := Logged(m1, w)));
    }
  }

  /** Past the handshake reading writes nothing, so it meets no socket error. */
  lemma {:induction false} DrainSafe(env: Env, m: Machine)
    requires Inv(m) && Authenticated(m)
    ensures Drain(env, m).Threw? ==> Drain(env, m).error != SocketError
    decreases |m.rbuf|
  {
    if CanStep(m) {
      StepKeeps(env, m);
      StepReads(env, m);
      var r := PacketReady(env, m);
      if r.Done? {
        DrainSafe(env, r.m);
      }
    }
  }

  lemma AuthBreaks(env: Env, m: Machine)
    requires m.socket.Some?
    ensures var r := SendAuth(env, m);
      r.Threw? && r.error == SocketError
      <==> env.cipher.shared(m.serverPK, env.sk).Some? && env.cipher.shared(m.sessionServerPK, m.sessionSK).Some?
           && BreaksOn(m.socket.value.script, |m.wbuf| + AUTH_SIZE, 0)
  {
    var inner := Seal(env.cipher, m.serverPK, env.sk, m.authNonce, m.sessionPK);
    if inner.Some? && env.cipher.shared(m.sessionServerPK, m.sessionSK).Some? {
      FlushBreaks(AuthAppended(env, m, inner.value));
    }
  }

  lemma ReadBreaks(env: Env, m: Machine)
    requires Inv(m) && m.phase != WaitConnect && m.phase != Disconnected
    ensures var r := Drain(env, m);
      r.Threw? && r.error == SocketError <==> Answers(env, m) && BreaksOn(m.socket.value.script, |m.wbuf| + AUTH_SIZE, 0)
  {
    if m.phase != WaitHello {
      DrainSafe(env, m);
    } else if CanStep(m) {
      StepKeeps(env, m);
      StepHello(env, m);
      var h, r := ReadHello(env, m), PacketReady(env, m);
      if h.Done? {
        AuthBreaks(env, h.m);
        if r.Done? {
          DrainSafe(env, r.m);
        }
      }
    }
  }

  /** In every session, with an honest server or not: a step meets a socket error exactly when it breaks. */
  lemma ErrorIffBreaks(env: Env, m: Machine, e: Event)
    requires Inv(m) && m.phase != WaitConnect && m.phase != Disconnected
    ensures var r := Step(env, m, e);
      r.Threw? && r.error == SocketError <==> Breaks(env, m, e)
  {
    match e
    case Incoming(bytes) => ReadBreaks(env, More(m, bytes));
    case Send(p) => SendBreaks(env, m, p);
    case Writable => FlushBreaks(m);
  }

  ghost predicate SomeBreaks(env: Env, m: Machine, events: seq<Event>)
    requires Inv(m) && m.phase != WaitConnect
    decreases |events|
  {
    events != [] && (Breaks(env, m, events[0]) || SomeBreaks(env, Apply(env, m, events[0]), events[1..]))
  }

  lemma SendAlive(env: Env, m: Machine, p: Outgoing)
    requires Inv(m) && m.phase != WaitConnect && m.phase != Disconnected
    ensures var r := SendPacket(env, m, p);
      r.m.phase == Disconnected <==> r.Threw? && r.error == SocketError
  {
    FlushAlive(m);
    if Print(p).Ok? {
      var nonce, plain := MakeNonce(m.prefix, m.counter), Print(p).value;
      var box := Seal(env.cipher, m.sessionServerPK, m.sessionSK, nonce, plain);
      if box.Some? {
        var m1 := m.(counter := Next(m.counter));
        var w := Frame(nonce, plain, FrameBytes(box.value));
        FlushAlive(m1.(wbuf := m1.wbuf + w.bytes, log := Logged(m1, w)));
      }
    }
  }

  lemma FlushAlive(m: Machine)
    requires m.phase != Disconnected
    ensures Flush(m).m.phase == Disconnected <==> Flush(m).Threw?
    ensures Flush(m).Threw? ==> Flush(m).error == SocketError
  {
  }

  /** A step that does not read leaves reading as it was, unless the socket breaks. */
  lemma WriteAlike(env: Env, m: Machine, q: Machine, e: Event)
    requires SameReading(m, q) && !e.Incoming?
    ensures var r := Apply(env, m, e);
      if Breaks(env, m, e) then r.phase == Disconnected else SameReading(r, q)
  {
    ErrorIffBreaks(env, m, e);
    match e
    case Send(p) =>
      SendAlive(env, m, p);
      SendKeeps(env, m, p);
    case Writable =>
      FlushAlive(m);
      FlushKeeps(m);
  }

  /** A read that the quiet session survives ends alike, unless the socket breaks. */
  lemma ReadAlike(env: Env, m: Machine, q: Machine, bytes: seq<Byte>)
    requires SameReading(m, q) && Arrive(env, q, bytes).phase != Disconnected
    ensures var r := Arrive(env, m, bytes);
      if Breaks(env, m, Incoming(bytes)) then r.phase == Disconnected else SameReading(r, Arrive(env, q, bytes))
  {
    ErrorIffBreaks(env, m, Incoming(bytes));
    DrainAlike(env, More(m, bytes), More(q, bytes));
  }

  lemma {:induction false} DeadStays(env: Env, q: Machine, chunks: seq<seq<Byte>>)
    requires Inv(q) && AtRest(q) && q.phase == Disconnected
    ensures ArriveAll(env, q, chunks).phase == Disconnected
    decreases |chunks|
  {
    if chunks != [] {
      ArriveKeeps(env, q, chunks[0]);
      DeadStays(env, Arrive(env, q, chunks[0]), chunks[1..]);
    }
  }

  lemma {:induction false} DeadRun(env: Env, m: Machine, events: seq<Event>)
    requires Inv(m) && m.phase == Disconnected
    ensures Run(env, m, events).phase == Disconnected && !SomeBreaks(env, m, events)
    decreases |events|
  {
    if events != [] {
      DeadRun(env, Apply(env, m, events[0]), events[1..]);
    }
  }

  /** The quiet session after one event: it has read what was read. */
  ghost function ReadEvent(env: Env, q: Machine, e: Event): (r: Machine)
    requires Inv(q) && AtRest(q)
    ensures Inv(r) && AtRest(r)
  {
    if e.Incoming? then ArriveKeeps(env, q, e.bytes); Arrive(env, q, e.bytes) else q
  }

  lemma EventAlike(env: Env, m: Machine, q: Machine, e: Event)
    requires SameReading(m, q) && AtRest(q) && ReadEvent(env, q, e).phase != Disconnected
    ensures var r := Apply(env, m, e);
      if Breaks(env, m, e) then r.phase == Disconnected else SameReading(r, ReadEvent(env, q, e))
  {
    if e.Incoming? {
      ReadAlike(env, m, q, e.bytes);
    } else {
      WriteAlike(env, m, q, e);
    }
  }

  lemma ReadsFirst(env: Env, q: Machine, events: seq<Event>)
    requires Inv(q) && AtRest(q) && events != []
    ensures ArriveAll(env, q, Reads(events)) == ArriveAll(env, ReadEvent(env, q, events[0]), Reads(events[1..]))
  {
    if events[0].Incoming? {
      assert Reads(events)[1..] == Reads(events[1..]);
    } else {
      assert Reads(events) == Reads(events[1..]);
    }
  }

  /** Whole runs read as the quiet session does, and end only by a broken socket. */
  lemma {:induction false} RunAlike(env: Env, m: Machine, q: Machine, events: seq<Event>)
    requires SameReading(m, q) && AtRest(q)
    requires ArriveAll(env, q, Reads(events)).phase != Disconnected
    ensures var r := Run(env, m, events);
      if SomeBreaks(env, m, events) then r.phase == Disconnected
      else SameReading(r, ArriveAll(env, q, Reads(events)))
    decreases |events|
  {
    if events != [] {
      var e, rest := events[0], events[1..];
      var q1 := ReadEvent(env, q, e);
      ReadsFirst(env, q, events);
      if q1.phase == Disconnected {
        DeadStays(env, q1, Reads(rest));
      }
      EventAlike(env, m, q, e);
      if Breaks(env, m, e) {
        DeadRun(env, Apply(env, m, e), rest);
      } else {
        RunAlike(env, Apply(env, m, e), q1, rest);
      }
    }
  }

  // ----- delivery -----

  lemma {:induction false} ServerBoxesAlike(env: Env, m: Machine, q: Machine, srv: Server, contents: seq<seq<Byte>>, counter: Counter)
    requires m.sessionPK == q.sessionPK
    ensures ServerBoxes(env, m, srv, contents, counter) == ServerBoxes(env, q, srv, contents, counter)
    decreases |contents|
  {
    if contents != [] {
      ServerBoxesAlike(env, m, q, srv, contents[1..], Next(counter));
    }
  }

  /** What the server sends depends on the reading side only. */
  lemma StreamAlike(env: Env, m: Machine, srv: Server, contents: seq<seq<Byte>>)
    ensures ServerStream(env, Quiet(m), srv, contents) == ServerStream(env, m, srv, contents)
    ensures HonestBoxes(env, Quiet(m), srv, contents) == HonestBoxes(env, m, srv, contents)
  {
    ServerBoxesAlike(env, m, Quiet(m), srv, contents, Advance(m.serverCounter, 2));
  }

  lemma DeliveredAlike(env: Env, m: Machine, srv: Server, contents: seq<seq<Byte>>, n: nat, r: Machine)
    requires Delivery.Delivered(env, Quiet(m), srv, contents, n, r)
    ensures Delivery.Delivered(env, m, srv, contents, n, r)
  {
    StreamAlike(env, m, srv, contents);
  }

  lemma QuietHandshake(env: Env, m: Machine, srv: Server)
    requires Handshaking(env, m, srv)
    ensures Handshaking(env, Quiet(m), srv) && AuthGoes(Quiet(m)) && AtRest(Quiet(m)) && SameReading(m, Quiet(m))
  {
    assert LogBytes([]) == [];
  }

  lemma QuietDelivered(env: Env, m: Machine, srv: Server, contents: seq<seq<Byte>>, chunks: seq<seq<Byte>>)
    requires Handshaking(env, m, srv)
    requires forall i :: 0 <= i < |contents| ==> WellFormed(contents[i])
    requires Flatten(chunks) <= ServerStream(env, m, srv, contents)
    ensures SameReading(m, Quiet(m)) && AtRest(Quiet(m))
    ensures Delivery.Delivered(env, m, srv, contents, |Flatten(chunks)|, ArriveAll(env, Quiet(m), chunks))
  {
    QuietHandshake(env, m, srv);
    StreamAlike(env, m, srv, contents);
    EndToEnd(env, Quiet(m), srv, contents, chunks);
    DeliveredAlike(env, m, srv, contents, |Flatten(chunks)|, ArriveAll(env, Quiet(m), chunks));
  }

  /**
   * Whatever is sent in between and however often the socket is written to: an honest run
   * ends with the session alive if and only if no step has the socket break, by an error
   * or by refusing the rest of a message it has begun to take; then the session has
   * counted every box opened and queued exactly the known packets of the frames received
   * whole.
   */
  lemma DeliveredAmidWrites(env: Env, m: Machine, srv: Server, contents: seq<seq<Byte>>, events: seq<Event>)
    requires Handshaking(env, m, srv)
    requires forall i :: 0 <= i < |contents| ==> WellFormed(contents[i])
    requires Flatten(Reads(events)) <= ServerStream(env, m, srv, contents)
    ensures var r := Run(env, m, events);
      && (r.phase != Disconnected <==> !SomeBreaks(env, m, events))
      && (r.phase != Disconnected ==> Delivery.Delivered(env, m, srv, contents, |Flatten(Reads(events))|, r))
  {
    QuietDelivered(env, m, srv, contents, Reads(events));
    RunAlike(env, m, Quiet(m), events);
  }

  // ----- runs that exist -----

  /** Connecting over a socket that blocks leads to a handshake, whatever the keys and the nonce prefix. */
  lemma ConnectedOverBlockedSocket(env: Env, m: Machine, srv: Server, useProxy: bool, choices: Choices)
    requires Inv(m) && m.phase != WaitConnect
    requires choices.sessionPK == env.cipher.publicOf(choices.sessionSK)
    requires env.cipher.publicOf(srv.longSK) == if useProxy then SERVER_PK else GATEWAY_PK
    ensures var r := Connect(m, Stream([], []), useProxy, choices);
      r.Done? && JustConnected(r.m) && Handshaking(env, r.m, srv) && r.m.socket.value.script == []
  {
    var f := Fresh(if m.phase != Disconnected then Terminate(m) else m, Stream([], []), useProxy, choices);
    ConnectKeeps(m, Stream([], []), useProxy, choices);
    FlushBlocks(f.(wbuf := f.wbuf + (f.sessionPK + f.prefix), log := Logged(f, Hello(f.sessionPK + f.prefix))));
  }

  const IDLE := Machine(Disconnected, 0, [], [], NO_PREFIX, NO_PREFIX, 0, 0, NO_KEY, NO_KEY, NO_KEY, NO_KEY,
                        Zeros(NONCE_BYTES), false, [], None, [])

  /** Some client and server do meet. */
  lemma HandshakeExists()
    ensures exists env: Env, m: Machine, srv: Server ::
              JustConnected(m) && Handshaking(env, m, srv) && m.socket.value.script == []
  {
    ToyIsLawful();
    var env := Env(Toy(), Zeros(8), NO_KEY, (box: seq<Byte>) => Zeros(4));
    var srv := Server(SERVER_PK, NO_KEY, NO_PREFIX);
    var choices := Choices(NO_PREFIX, NO_KEY, NO_KEY, Zeros(NONCE_BYTES));
    ConnectedOverBlockedSocket(env, IDLE, srv, true, choices);
    var m := Connect(IDLE, Stream([], []), true, choices).m;
    assert JustConnected(m) && Handshaking(env, m, srv) && m.socket.value.script == [];
  }

  /** An honest hello is answered. */
  lemma HonestAnswers(env: Env, m: Machine, srv: Server)
    requires Handshaking(env, m, srv)
    ensures Answers(env, More(m, ServerHello(env, m, srv)))
  {
    var hello := ServerHello(env, m, srv);
    HelloAccepted(env, m, srv);
    assert More(m, hello) == m.(rbuf := hello) by {
      assert [] + hello == hello;
    }
    OpenSeal(env.cipher, env.sk, srv.longSK, m.authNonce, []);
    OpenSeal(env.cipher, m.sessionSK, srv.sessionSK, m.authNonce, []);
  }

  /**
   * Without any error: over a socket that takes the hello whole, one byte more and is
   * full then, every client that connects is in a handshake which an honest server's
   * hello ends, since the authentication breaks in its second byte.
   */
  lemma FullSocketEndsHandshake(env: Env, m: Machine, srv: Server, useProxy: bool, choices: Choices)
    requires Inv(m) && m.phase != WaitConnect
    requires choices.sessionPK == env.cipher.publicOf(choices.sessionSK)
    requires env.cipher.publicOf(srv.longSK) == if useProxy then SERVER_PK else GATEWAY_PK
    ensures var r := Connect(m, Stream([Sent(48), Sent(1), WouldBlock], []), useProxy, choices);
      && r.Done? && JustConnected(r.m) && Handshaking(env, r.m, srv) && !AuthGoes(r.m)
      && var hello := [Incoming(ServerHello(env, r.m, srv))];
         SomeBreaks(env, r.m, hello) && Run(env, r.m, hello).phase == Disconnected
  {
    var full: seq<Answer> := [Sent(1), WouldBlock];
    var s := Stream([Sent(48), Sent(1), WouldBlock], []);
    assert s.script == [Sent(48)] + full;
    ConnectKeeps(m, s, useProxy, choices);
    HelloGoes(Fresh(if m.phase != Disconnected then Terminate(m) else m, s, useProxy, choices), 48, full);
    var c := Connect(m, s, useProxy, choices).m;
    assert c.socket.value.script == full;
    FullAfterOne(|c.wbuf| + AUTH_SIZE);
    HelloEnds(env, c, srv);
  }

  /** A handshake whose authentication breaks ends with the honest hello. */
  lemma HelloEnds(env: Env, m: Machine, srv: Server)
    requires Handshaking(env, m, srv) && !AuthGoes(m)
    ensures var hello := [Incoming(ServerHello(env, m, srv))];
      SomeBreaks(env, m, hello) && Run(env, m, hello).phase == Disconnected
  {
    var e := Incoming(ServerHello(env, m, srv));
    var one, none: seq<Event> := [e], [];
    HonestAnswers(env, m, srv);
    ErrorIffBreaks(env, m, e);
    assert one[1..] == none;
    assert Run(env, m, one) == Run(env, Arrive(env, m, e.bytes), none);
  }

  lemma HelloAnswered(env: Env, m: Machine, srv: Server)
    requires Handshaking(env, m, srv) && m.socket.value.script == []
    ensures Authenticated(Arrive(env, m, ServerHello(env, m, srv)))
  {
    var a := HelloDelivered(env, m, srv, []);
    var hello := ServerHello(env, m, srv);
    assert hello + [] == hello;
    ArriveIsParse(env, m, hello);
  }

  /** A keep-alive sent over a blocked socket waits in the buffer. */
  lemma PingWaits(env: Env, m: Machine, srv: Server)
    requires Handshaking(env, m, srv) && m.socket.value.script == []
    ensures var r := SendPacket(env, m, PING).m;
      Handshaking(env, r, srv) && r.socket.value.script == [] && ServerHello(env, r, srv) == ServerHello(env, m, srv)
  {
    var plain, nonce, m1 := Print(PING).value, MakeNonce(m.prefix, m.counter), m.(counter := Next(m.counter));
    SendKeeps(env, m, PING);
    var box := Seal(env.cipher, m.sessionServerPK, m.sessionSK, nonce, plain);
    if box.Some? {
      var w := Frame(nonce, plain, FrameBytes(box.value));
      FlushBlocks(m1.(wbuf := m1.wbuf + w.bytes, log := Logged(m1, w)));
    }
  }

  const PING := SendKeepAlive(false, [])

  /** There are runs through the handshake with nothing sent early, and with something sent early. */
  lemma EarlyOrNot(env: Env, m: Machine, srv: Server)
    requires JustConnected(m) && Handshaking(env, m, srv) && m.socket.value.script == []
    ensures var hello := Incoming(ServerHello(env, m, srv));
      && Authenticated(Run(env, m, [hello])) && !SomeEarly(env, m, [hello])
      && Authenticated(Run(env, m, [Send(PING), hello])) && SomeEarly(env, m, [Send(PING), hello])
  {
    var hello := Incoming(ServerHello(env, m, srv));
    var one, two, none: seq<Event> := [hello], [Send(PING), hello], [];
    var r := Apply(env, m, Send(PING));
    HelloAnswered(env, m, srv);
    assert one[1..] == none && two[1..] == one;
    assert Run(env, m, one) == Run(env, Arrive(env, m, hello.bytes), none);
    PingWaits(env, m, srv);
    HelloAnswered(env, r, srv);
    assert Run(env, m, two) == Run(env, r, one);
    assert Run(env, r, one) == Run(env, Arrive(env, r, hello.bytes), none);
  }
}
