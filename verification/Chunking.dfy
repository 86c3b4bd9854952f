/**
 * Bytes arriving in pieces: how a stream is cut into reads does not matter, and the
 * incremental machine agrees with a parser that sees the whole stream at once.
 */
module Chunking {
  import opened Bytes
  import opened Wrappers
  import opened Box
  import opened Packets
  import opened Socket
  import opened Transport

  /** The drain loop: step while a complete item is buffered. */
  ghost function Drain(env: Env, m: Machine): Outcome
    requires Inv(m)
    decreases |m.rbuf|
  {
    if !CanStep(m) then Done(m)
    else
      StepKeeps(env, m);
      match PacketReady(env, m)
      case Threw(m1, e) => Threw(m1, e)
      case Done(m1) => Drain(env, m1)
  }

  /** An exception reaches the connection, which terminates the session. */
  function Close(r: Outcome): Machine
  {
    match r
    case Done(m) => m
    case Threw(m, _) => Terminate(m)
  }

  function More(m: Machine, x: seq<Byte>): Machine
  {
    m.(rbuf := m.rbuf + x)
  }

  /** Bytes handed to a session that reads them and then drains. */
  ghost function Arrive(env: Env, m: Machine, x: seq<Byte>): Machine
    requires Inv(m) && m.phase != WaitConnect
  {
    if m.phase == Disconnected then m else Close(Drain(env, More(m, x)))
  }

  lemma {:induction false} DrainKeeps(env: Env, m: Machine)
    requires Inv(m) && m.phase != WaitConnect
    ensures var r := Drain(env, m); r.Done? ==> Inv(r.m) && AtRest(r.m) && (m.phase != Disconnected ==> r.m.phase != Disconnected)
    decreases |m.rbuf|
  {
    if CanStep(m) {
      StepKeeps(env, m);
      var r := PacketReady(env, m);
      if r.Done? {
        DrainKeeps(env, r.m);
      }
    }
  }

  lemma ArriveKeeps(env: Env, m: Machine, x: seq<Byte>)
    requires Inv(m) && m.phase != WaitConnect
    ensures Inv(Arrive(env, m, x)) && AtRest(Arrive(env, m, x))
  {
    if m.phase != Disconnected {
      DrainKeeps(env, More(m, x));
    }
  }

  ghost function ArriveAll(env: Env, m: Machine, chunks: seq<seq<Byte>>): (r: Machine)
    requires Inv(m) && AtRest(m)
    ensures Inv(r) && AtRest(r)
    decreases |chunks|
  {
    if chunks == [] then m
    else
      ArriveKeeps(env, m, chunks[0]);
      ArriveAll(env, Arrive(env, m, chunks[0]), chunks[1..])
  }

  /** Two outcomes that a connection cannot tell apart once it has closed a failed session. */
  ghost predicate SameFailure(a: Outcome, b: Outcome)
  {
    a.Threw? && b.Threw? && a.error == b.error && Terminate(a.m) == Terminate(b.m)
  }

  lemma FlushMore(m: Machine, x: seq<Byte>)
    ensures Flush(m).Done? ==> Flush(More(m, x)) == Done(More(Flush(m).m, x))
    ensures Flush(m).Threw? ==> Flush(More(m, x)) == Flush(m)
  {
  }

  /** A step sees only the bytes it waits for; what follows them stays behind, untouched. */
  lemma StepMore(env: Env, m: Machine, x: seq<Byte>)
    requires Inv(m) && CanStep(m)
    ensures var r := PacketReady(env, m);
      var r' := PacketReady(env, More(m, x));
      if r.Done? then r' == Done(More(r.m, x)) else SameFailure(r, r')
  {
    var k := m.nextRead;
    assert More(m, x).rbuf[..k] == m.rbuf[..k];
    assert More(m, x).rbuf[k..] == m.rbuf[k..] + x;
    if m.phase == WaitHello {
      AnswerMore(env, m, x);
    }
  }

  lemma AnswerMore(env: Env, m: Machine, x: seq<Byte>)
    requires |m.rbuf| >= HELLO_SIZE
    ensures var r := AnswerHello(env, m);
      var r' := AnswerHello(env, More(m, x));
      if r.Done? then r' == Done(More(r.m, x)) else SameFailure(r, r')
  {
    assert More(m, x).rbuf[..PREFIX_BYTES] == m.rbuf[..PREFIX_BYTES];
    assert More(m, x).rbuf[PREFIX_BYTES..HELLO_SIZE] == m.rbuf[PREFIX_BYTES..HELLO_SIZE];
    assert More(m, x).rbuf[HELLO_SIZE..] == m.rbuf[HELLO_SIZE..] + x;
    var h := ReadHello(env, m);
    if h.Done? {
      SendAuthMore(env, h.m, x);
    }
  }

  lemma SendAuthMore(env: Env, m: Machine, x: seq<Byte>)
    ensures var r := SendAuth(env, m);
      var r' := SendAuth(env, More(m, x));
      if r.Done? then r' == Done(More(r.m, x)) else SameFailure(r, r')
  {
    var c := m.(counter := Next(m.counter));
    var inner := Seal(env.cipher, m.serverPK, env.sk, m.authNonce, m.sessionPK);
    if inner.Some? {
      var nonce := MakeNonce(m.prefix, m.counter);
      var box := Seal(env.cipher, m.sessionServerPK, m.sessionSK, nonce, AuthPlain(env, m, inner.value));
      if box.Some? {
        FlushMore(c.(wbuf := c.wbuf + box.value, log := c.log + [Auth(nonce, box.value)]), x);
      }
    }
  }

  lemma {:induction false} DrainMore(env: Env, m: Machine, x: seq<Byte>)
    requires Inv(m) && m.phase != WaitConnect && m.phase != Disconnected
    ensures var r := Drain(env, m);
      if r.Done? then Inv(r.m) && AtRest(r.m) && r.m.phase != Disconnected && Drain(env, More(m, x)) == Drain(env, More(r.m, x))
      else SameFailure(r, Drain(env, More(m, x)))
    decreases |m.rbuf|
  {
    DrainKeeps(env, m);
    if CanStep(m) {
      StepKeeps(env, m);
      StepMore(env, m, x);
      var r := PacketReady(env, m);
      if r.Done? {
        DrainMore(env, r.m, x);
      }
    }
  }

  /** Two reads are one read of both. */
  lemma ArriveTwice(env: Env, m: Machine, a: seq<Byte>, b: seq<Byte>)
    requires Inv(m) && m.phase != WaitConnect
    ensures Inv(Arrive(env, m, a)) && AtRest(Arrive(env, m, a))
    ensures Arrive(env, Arrive(env, m, a), b) == Arrive(env, m, a + b)
  {
    ArriveKeeps(env, m, a);
    if m.phase != Disconnected {
      DrainTwice(env, m, a, b);
    }
  }

  lemma DrainTwice(env: Env, m: Machine, a: seq<Byte>, b: seq<Byte>)
    requires Inv(m) && m.phase != WaitConnect && m.phase != Disconnected
    ensures var r := Drain(env, More(m, a));
      if r.Done? then Inv(r.m) && AtRest(r.m) && r.m.phase != Disconnected && Drain(env, More(m, a + b)) == Drain(env, More(r.m, b))
      else SameFailure(r, Drain(env, More(m, a + b)))
  {
    assert More(More(m, a), b) == More(m, a + b) by {
      assert (m.rbuf + a) + b == m.rbuf + (a + b);
    }
    DrainMore(env, More(m, a), b);
  }

  lemma ArriveNothing(env: Env, m: Machine)
    requires Inv(m) && AtRest(m)
    ensures Arrive(env, m, []) == m
  {
    assert More(m, []) == m;
  }

  lemma {:induction false} ArriveAllAtOnce(env: Env, m: Machine, chunks: seq<seq<Byte>>)
    requires Inv(m) && AtRest(m)
    ensures ArriveAll(env, m, chunks) == Arrive(env, m, Flatten(chunks))
    decreases |chunks|
  {
    if chunks == [] {
      ArriveNothing(env, m);
    } else {
      ArriveKeeps(env, m, chunks[0]);
      ArriveAllAtOnce(env, Arrive(env, m, chunks[0]), chunks[1..]);
      ArriveTwice(env, m, chunks[0], Flatten(chunks[1..]));
    }
  }

  /** However a stream is cut, the session ends in the same state, queue, counters and output included. */
  lemma ChunkingIrrelevant(env: Env, m: Machine, chunks: seq<seq<Byte>>, chunks': seq<seq<Byte>>)
    requires Inv(m) && AtRest(m)
    requires Flatten(chunks) == Flatten(chunks')
    ensures ArriveAll(env, m, chunks) == ArriveAll(env, m, chunks')
  {
    ArriveAllAtOnce(env, m, chunks);
    ArriveAllAtOnce(env, m, chunks');
  }

  /** A frame of length zero wedges the session: nothing that arrives later is ever looked at. */
  lemma ZeroLengthWedges(env: Env, m: Machine, x: seq<Byte>)
    requires Inv(m) && m.phase == WaitPacket
    ensures m.nextRead == 0 <==> forall y: seq<Byte> :: Arrive(env, m, y) == More(m, y)
  {
    if m.nextRead != 0 {
      var y: seq<Byte> := Zeros(m.nextRead);
      ArriveKeeps(env, m, y);
      assert CanStep(More(m, y));
      assert !AtRest(More(m, y));
    }
  }

  // ----- the whole stream at once -----

  /** What is still waited for when a stream ends: the phase, the size, the bytes so far. */
  datatype Tail = Tail(phase: Phase, nextRead: nat, rbuf: seq<Byte>)

  /** Cut a stream into the boxes of its complete frames, up to a length of zero. */
  function Unframe(b: seq<Byte>): (r: (seq<seq<Byte>>, Tail))
    ensures r.1.phase == WaitHeader || r.1.phase == WaitPacket
  {
    if |b| < LENGTH_SIZE then ([], Tail(WaitHeader, LENGTH_SIZE, b))
    else
      var n := FromLe(b[..LENGTH_SIZE]);
      if n == 0 || |b| - LENGTH_SIZE < n then ([], Tail(WaitPacket, n, b[LENGTH_SIZE..]))
      else
        var (boxes, tail) := Unframe(b[LENGTH_SIZE + n..]);
        ([b[LENGTH_SIZE..LENGTH_SIZE + n]] + boxes, tail)
  }

  function OpenAll(env: Env, m: Machine, boxes: seq<seq<Byte>>): Outcome
    decreases |boxes|
  {
    if boxes == [] then Done(m)
    else match OpenBody(env, m, boxes[0])
      case Threw(m1, e) => Threw(m1, e)
      case Done(m1) => OpenAll(env, m1, boxes[1..])
  }

  function Rest(m: Machine, tail: Tail): Machine
  {
    m.(phase := tail.phase, nextRead := tail.nextRead, rbuf := tail.rbuf)
  }

  /** First find all frames, then open their boxes in order. */
  function ParseFrames(env: Env, m: Machine, b: seq<Byte>): Outcome
  {
    var (boxes, tail) := Unframe(b);
    match OpenAll(env, m, boxes)
    case Threw(m1, e) => Threw(m1, e)
    case Done(m1) => Done(Rest(m1, tail))
  }

  function ParseAck(env: Env, m: Machine, b: seq<Byte>): Outcome
  {
    if |b| < ACK_SIZE then Done(Rest(m, Tail(WaitAuth, ACK_SIZE, b)))
    else match ReadAck(env, m.(rbuf := b[..ACK_SIZE]))
      case Threw(m1, e) => Threw(m1, e)
      case Done(m1) => ParseFrames(env, m1, b[ACK_SIZE..])
  }

  /** A one-shot parser of everything a server sends after the client's hello. */
  function ParseStream(env: Env, m: Machine, b: seq<Byte>): Outcome
  {
    if |b| < HELLO_SIZE then Done(Rest(m, Tail(WaitHello, HELLO_SIZE, b)))
    else match ReadHello(env, m.(rbuf := b[..HELLO_SIZE]))
      case Threw(m1, e) => Threw(m1, e)
      case Done(m1) =>
        match SendAuth(env, m1)
        case Threw(m2, e) => Threw(m2, e)
        case Done(m2) => ParseAck(env, m2, b[HELLO_SIZE..])
  }

  /** Equal results, or failures a connection cannot tell apart. */
  ghost predicate Agree(a: Outcome, b: Outcome)
  {
    a == b || SameFailure(a, b)
  }

  lemma OpenBodyIgnoresBuffer(env: Env, m: Machine, t: Tail, box: seq<Byte>)
    ensures var r := OpenBody(env, m, box);
      var r' := OpenBody(env, Rest(m, t), box);
      if r.Done? then r' == Done(Rest(r.m, t)) else SameFailure(r, r')
  {
  }

  lemma {:induction false} OpenAllIgnoresBuffer(env: Env, m: Machine, t: Tail, boxes: seq<seq<Byte>>)
    ensures var r := OpenAll(env, m, boxes);
      var r' := OpenAll(env, Rest(m, t), boxes);
      if r.Done? then r' == Done(Rest(r.m, t)) else SameFailure(r, r')
    decreases |boxes|
  {
    if boxes != [] {
      OpenBodyIgnoresBuffer(env, m, t, boxes[0]);
      var r := OpenBody(env, m, boxes[0]);
      if r.Done? {
        OpenAllIgnoresBuffer(env, r.m, t, boxes[1..]);
      }
    }
  }

  /** Two machines that differ only in what they wait for parse frames alike. */
  lemma ParseFramesIgnoresBuffer(env: Env, m: Machine, t: Tail, b: seq<Byte>)
    ensures Agree(ParseFrames(env, Rest(m, t), b), ParseFrames(env, m, b))
  {
    OpenAllIgnoresBuffer(env, m, t, Unframe(b).0);
  }

  /** Consuming one complete frame: its header, then its box. */
  lemma TwoSteps(env: Env, m: Machine, n: nat)
    requires Inv(m) && m.phase == WaitHeader && |m.rbuf| >= LENGTH_SIZE
    requires 0 < n == FromLe(m.rbuf[..LENGTH_SIZE]) <= |m.rbuf| - LENGTH_SIZE
    ensures var r := OpenBody(env, m, m.rbuf[LENGTH_SIZE..LENGTH_SIZE + n]);
      if r.Threw? then SameFailure(Drain(env, m), r)
      else var m2 := Rest(r.m, Tail(WaitHeader, LENGTH_SIZE, m.rbuf[LENGTH_SIZE + n..]));
        Inv(m2) && Drain(env, m) == Drain(env, m2)
  {
    var b := m.rbuf;
    StepKeeps(env, m);
    var m1 := PacketReady(env, m).m;
    var box, rest := b[LENGTH_SIZE..LENGTH_SIZE + n], b[LENGTH_SIZE + n..];
    assert m1.rbuf[..n] == box && m1.rbuf[n..] == rest;
    StepKeeps(env, m1);
    OpenBodyIgnoresBuffer(env, m, Tail(WaitPacket, n, rest), box);
    assert m1.(rbuf := rest) == Rest(m, Tail(WaitPacket, n, rest));
  }

  /** A frame that is not complete, or of length zero: at most its header is consumed. */
  lemma DrainPartial(env: Env, m: Machine)
    requires Inv(m) && m.phase == WaitHeader
    requires |m.rbuf| < LENGTH_SIZE || FromLe(m.rbuf[..LENGTH_SIZE]) == 0
             || |m.rbuf| - LENGTH_SIZE < FromLe(m.rbuf[..LENGTH_SIZE])
    ensures Drain(env, m) == ParseFrames(env, m, m.rbuf)
  {
    if |m.rbuf| >= LENGTH_SIZE {
      StepKeeps(env, m);
      assert !CanStep(PacketReady(env, m).m);
    }
  }

  /** The first box of a stream, and then the frames behind it. */
  lemma ParseFirst(env: Env, m: Machine, b: seq<Byte>, n: nat)
    requires |b| >= LENGTH_SIZE && 0 < n == FromLe(b[..LENGTH_SIZE]) <= |b| - LENGTH_SIZE
    ensures ParseFrames(env, m, b)
         == match OpenBody(env, m, b[LENGTH_SIZE..LENGTH_SIZE + n])
            case Threw(m1, e) => Threw(m1, e)
            case Done(m1) => ParseFrames(env, m1, b[LENGTH_SIZE + n..])
  {
    assert Unframe(b).0[1..] == Unframe(b[LENGTH_SIZE + n..]).0;
  }

  lemma {:induction false} DrainFrames(env: Env, m: Machine)
    requires Inv(m) && m.phase == WaitHeader
    ensures Agree(Drain(env, m), ParseFrames(env, m, m.rbuf))
    decreases |m.rbuf|
  {
    var b := m.rbuf;
    var n := if |b| < LENGTH_SIZE then 0 else FromLe(b[..LENGTH_SIZE]);
    if n == 0 || |b| - LENGTH_SIZE < n {
      DrainPartial(env, m);
    } else {
      TwoSteps(env, m, n);
      ParseFirst(env, m, b, n);
      var r := OpenBody(env, m, b[LENGTH_SIZE..LENGTH_SIZE + n]);
      if r.Done? {
        var t := Tail(WaitHeader, LENGTH_SIZE, b[LENGTH_SIZE + n..]);
        DrainFrames(env, Rest(r.m, t));
        ParseFramesIgnoresBuffer(env, r.m, t, t.rbuf);
      }
    }
  }

  lemma DrainAck(env: Env, m: Machine)
    requires Inv(m) && m.phase == WaitAuth
    ensures Agree(Drain(env, m), ParseAck(env, m, m.rbuf))
  {
    var b := m.rbuf;
    if CanStep(m) {
      StepKeeps(env, m);
      var r := PacketReady(env, m);
      assert b[..ACK_SIZE][ACK_SIZE..] == [] && b[..ACK_SIZE][..ACK_SIZE] == b[..ACK_SIZE];
      if r.Done? {
        DrainFrames(env, r.m);
        var m1 := ReadAck(env, m.(rbuf := b[..ACK_SIZE])).m;
        var t := Tail(WaitHeader, LENGTH_SIZE, b[ACK_SIZE..]);
        assert r.m == Rest(m1, t);
        ParseFramesIgnoresBuffer(env, m1, t, t.rbuf);
      }
    }
  }

  lemma ParseAckIgnoresBuffer(env: Env, m: Machine, t: Tail, b: seq<Byte>)
    ensures Agree(ParseAck(env, Rest(m, t), b), ParseAck(env, m, b))
  {
    if |b| >= ACK_SIZE {
      var r := ReadAck(env, m.(rbuf := b[..ACK_SIZE]));
      if r.Done? {
        ParseFramesIgnoresBuffer(env, r.m, t.(rbuf := r.m.rbuf), b[ACK_SIZE..]);
      }
    }
  }

  /** Draining a buffer that holds the server's hello. */
  lemma DrainHello(env: Env, m: Machine, x: seq<Byte>)
    requires Inv(m) && m.phase == WaitHello && |m.rbuf| == HELLO_SIZE
    ensures var h := ReadHello(env, m);
      var r := Drain(env, More(m, x));
      if h.Threw? then SameFailure(r, h)
      else var s := SendAuth(env, h.m);
        if s.Threw? then SameFailure(r, s) else Agree(r, ParseAck(env, s.m, x))
  {
    var m0 := More(m, x);
    StepKeeps(env, m);
    StepKeeps(env, m0);
    StepMore(env, m, x);
    var h := ReadHello(env, m);
    if h.Done? && SendAuth(env, h.m).Done? {
      var s := SendAuth(env, h.m).m;
      StepAuthBuffer(env, h.m);
      assert s.rbuf == [];
      var t := Tail(WaitAuth, ACK_SIZE, x);
      var m2 := PacketReady(env, m0).m;
      assert m2 == Rest(s, t);
      DrainAck(env, m2);
      ParseAckIgnoresBuffer(env, s, t, x);
    }
  }

  lemma StepAuthBuffer(env: Env, m: Machine)
    ensures SendAuth(env, m).Done? ==> SendAuth(env, m).m.rbuf == m.rbuf
  {
  }

  /** The incremental session and the one-shot parser agree on every stream, honest or not. */
  lemma ArriveIsParse(env: Env, m: Machine, b: seq<Byte>)
    requires Inv(m) && m.phase == WaitHello && m.rbuf == []
    ensures Arrive(env, m, b) == Close(ParseStream(env, m, b))
  {
    assert More(m, b).rbuf == b;
    if |b| >= HELLO_SIZE {
      var m0 := m.(rbuf := b[..HELLO_SIZE]);
      assert More(m, b) == More(m0, b[HELLO_SIZE..]);
      DrainHello(env, m0, b[HELLO_SIZE..]);
    }
  }
}
