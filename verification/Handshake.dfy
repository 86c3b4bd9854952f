/** The handshake seen from the other side, and what a session takes from anybody. */
module Handshake {
  import opened Bytes
  import opened Bits
  import opened Wrappers
  import opened Box
  import opened Packets
  import opened Socket
  import opened Transport
  import opened Chunking
  import opened Framing
  import opened Delivery
  import opened Runs

  // ----- nonces -----

  /** A prefix and the eight bytes of a counter, least significant first. */
  ghost predicate NonceOf(nonce: Nonce, prefix: Prefix, counter: nat)
  {
    nonce[..16] == prefix && forall i :: 0 <= i < 8 ==> nonce[16 + i] == counter / Pow(256, i) % 256
  }

  lemma NonceIs(nonce: Nonce, prefix: Prefix, counter: Counter)
    ensures NonceOf(nonce, prefix, counter) <==> nonce == MakeNonce(prefix, counter)
  {
    forall i | 0 <= i < 8
      ensures MakeNonce(prefix, counter)[16 + i] == counter / Pow(256, i) % 256
    {
      LeAt(counter, 8, i);
    }
    assert MakeNonce(prefix, counter)[..16] == prefix;
    if NonceOf(nonce, prefix, counter) {
      forall i | 16 <= i < 24
        ensures nonce[i] == MakeNonce(prefix, counter)[i]
      {
        assert nonce[16 + (i - 16)] == counter / Pow(256, i - 16) % 256;
        assert MakeNonce(prefix, counter)[16 + (i - 16)] == counter / Pow(256, i - 16) % 256;
      }
      assert nonce[..16] == MakeNonce(prefix, counter)[..16];
    }
  }

  /** Counters go up by one and start over behind 2^64 - 1. */
  lemma Counting(c: Counter, k: nat)
    ensures Next(c) == if c == 0xFFFF_FFFF_FFFF_FFFF then 0 else c + 1
    ensures c + k < 0x1_0000_0000_0000_0000 ==> Advance(c, k) == c + k
  {
  }

  /** A new connection counts from 0 by way of the proxy and from 1 otherwise, in both directions. */
  lemma ConnectionCounts(m: Machine, socket: Stream, useProxy: bool, choices: Choices)
    requires Inv(m) && m.phase != WaitConnect && socket.wire == []
    ensures var r := Connect(m, socket, useProxy, choices);
      r.Done? ==>
        && r.m.counter == r.m.serverCounter == (if useProxy then 0 else 1) && r.m.useProxy == useProxy
        && r.m.prefix == choices.prefix && r.m.authNonce == choices.authNonce && r.m.queue == m.queue
        && r.m.sessionPK == choices.sessionPK && r.m.sessionSK == choices.sessionSK
  {
    var f := Fresh(if m.phase != Disconnected then Terminate(m) else m, socket, useProxy, choices);
    assert f.wbuf == [] && socket.wire + [] == [];
    AppendKeeps(f, Hello(f.sessionPK + f.prefix));
  }

  // ----- what the server reads in the authentication -----

  const VERSION_TEXT: string := "libceema 0.0.1;;;"

  /**
   * The opened authentication: id, version, the nonce drawn and the server's own prefix in
   * the order of the connection, and a box that opens under that nonce to the session key.
   */
  ghost predicate Authenticates(env: Env, m: Machine, srv: Server, plain: seq<Byte>)
  {
    && |plain| == 128 && plain[..8] == env.id
    && (forall i :: 0 <= i < 32 ==> plain[8 + i] == if i < 17 then VERSION_TEXT[i] as int else 0)
    && (if m.useProxy then plain[64..80] else plain[40..56]) == srv.prefix
    && Open(env.cipher, env.cipher.publicOf(env.sk), srv.longSK, if m.useProxy then plain[40..64] else plain[56..80], plain[80..128])
       == Some(m.sessionPK)
  }

  lemma PlainAuthenticates(env: Env, m: Machine, srv: Server, g: Machine, inner: seq<Byte>)
    requires g.useProxy == m.useProxy && g.serverPrefix == srv.prefix && |inner| == 48
    requires Open(env.cipher, env.cipher.publicOf(env.sk), srv.longSK, g.authNonce, inner) == Some(m.sessionPK)
    ensures Authenticates(env, m, srv, AuthPlain(env, g, inner))
  {
    var plain := AuthPlain(env, g, inner);
    assert plain[8..40] == VERSION && plain[80..128] == inner;
    forall i | 0 <= i < 32
      ensures plain[8 + i] == VERSION[i]
    {
      assert plain[8 + i] == plain[8..40][i];
    }
    if m.useProxy {
      assert plain[40..64] == g.authNonce && plain[64..80] == srv.prefix;
    } else {
      assert plain[56..80] == g.authNonce && plain[40..56] == srv.prefix;
    }
  }

  lemma BoxAuthenticates(env: Env, m: Machine, srv: Server, nonce: Nonce)
    requires Handshaking(env, m, srv) && NonceOf(nonce, m.prefix, m.counter)
    ensures var o := Open(env.cipher, m.sessionPK, srv.sessionSK, nonce, AuthBox(env, m, srv));
      o.Some? && Authenticates(env, m, srv, o.value)
  {
    var g := Greeted(env, m, srv);
    NonceIs(nonce, m.prefix, m.counter);
    OpenSeal(env.cipher, env.sk, srv.longSK, m.authNonce, m.sessionPK);
    var inner := Seal(env.cipher, m.serverPK, env.sk, m.authNonce, m.sessionPK).value;
    PlainAuthenticates(env, m, srv, g, inner);
    OpenSeal(env.cipher, m.sessionSK, srv.sessionSK, nonce, AuthPlain(env, g, inner));
  }

  /** The honest hello makes the session log its authentication, whether or not the socket takes it. */
  lemma HelloLogs(env: Env, m: Machine, srv: Server)
    requires Handshaking(env, m, srv)
    ensures Arrive(env, m, ServerHello(env, m, srv)).log == m.log + [Auth(MakeNonce(m.prefix, m.counter), AuthBox(env, m, srv))]
  {
    var hello, g := ServerHello(env, m, srv), Greeted(env, m, srv);
    HelloAccepted(env, m, srv);
    AuthSealed(env, m, srv);
    AppendKeeps(g.(counter := Next(m.counter)), Auth(MakeNonce(m.prefix, m.counter), AuthBox(env, m, srv)));
    assert hello[..HELLO_SIZE] == hello && hello[HELLO_SIZE..] == [];
    ArriveIsParse(env, m, hello);
  }

  /**
   * What the session appends when the honest hello arrives, the server can open with its
   * session key under the client's next nonce; it finds the client's id and version, its
   * own prefix, and, sealed with the client's long-term key, the session key it has seen
   * in the client's hello.
   */
  lemma ServerReadsAuth(env: Env, m: Machine, srv: Server, nonce: Nonce)
    requires Handshaking(env, m, srv) && NonceOf(nonce, m.prefix, m.counter)
    ensures var r := Arrive(env, m, ServerHello(env, m, srv));
      && |r.log| == |m.log| + 1 && r.log[..|m.log|] == m.log && |r.log[|m.log|].bytes| == 144
      && (r.phase != Disconnected ==> r.socket.Some? && r.socket.value.wire + r.wbuf == LogBytes(m.log) + r.log[|m.log|].bytes)
      && var o := Open(env.cipher, m.sessionPK, srv.sessionSK, nonce, r.log[|m.log|].bytes);
         o.Some? && Authenticates(env, m, srv, o.value)
  {
    var r := Arrive(env, m, ServerHello(env, m, srv));
    HelloLogs(env, m, srv);
    AuthSealed(env, m, srv);
    BoxAuthenticates(env, m, srv, nonce);
    ArriveKeeps(env, m, ServerHello(env, m, srv));
    assert r.log[..|r.log| - 1] == m.log;
  }

  // ----- what a session takes from anybody -----

  /** b starts with a hello for this session: a box under the server's key that echoes the session's prefix. */
  ghost predicate HelloFor(env: Env, m: Machine, b: seq<Byte>)
  {
    && |b| >= 80
    && exists nonce: Nonce, plain: seq<Byte> ::
         && NonceOf(nonce, b[..16], m.serverCounter) && Open(env.cipher, m.serverPK, m.sessionSK, nonce, b[16..80]) == Some(plain)
         && |plain| == 48 && plain[32..] == m.prefix
  }

  lemma HelloForIs(env: Env, m: Machine, b: seq<Byte>)
    requires |b| >= 80
    ensures HelloFor(env, m, b) <==> ReadHello(env, m.(rbuf := b[..80])).Done?
  {
    var prefix: Prefix := b[..16];
    var nonce := MakeNonce(prefix, m.serverCounter);
    NonceIs(nonce, prefix, m.serverCounter);
    assert b[..80][..16] == b[..16] && b[..80][16..80] == b[16..80];
    if HelloFor(env, m, b) {
      var n: Nonce, plain: seq<Byte> :|
        && NonceOf(n, b[..16], m.serverCounter) && Open(env.cipher, m.serverPK, m.sessionSK, n, b[16..80]) == Some(plain)
        && |plain| == 48 && plain[32..] == m.prefix;
      NonceIs(n, prefix, m.serverCounter);
    }
  }

  /**
   * From whatever is at the other end: a session that has read eighty bytes or more is
   * alive only if they start with a hello for it.
   */
  lemma OnlyHello(env: Env, m: Machine, b: seq<Byte>)
    requires Inv(m) && m.phase == WaitHello && m.rbuf == [] && |b| >= 80
    ensures Arrive(env, m, b).phase != Disconnected ==> HelloFor(env, m, b)
  {
    HelloForIs(env, m, b);
    ArriveIsParse(env, m, b);
  }

  /** Waiting for the acknowledgement, a session stays alive only if sixteen zeros come in a box under the session keys. */
  lemma OnlyAck(env: Env, m: Machine, b: seq<Byte>, nonce: Nonce)
    requires Inv(m) && m.phase == WaitAuth && m.rbuf == [] && |b| >= 32 && NonceOf(nonce, m.serverPrefix, m.serverCounter)
    ensures Arrive(env, m, b).phase != Disconnected ==>
              Open(env.cipher, m.sessionServerPK, m.sessionSK, nonce, b[..32]) == Some(Zeros(16))
  {
    NonceIs(nonce, m.serverPrefix, m.serverCounter);
    assert More(m, b).rbuf == b;
    DrainAck(env, More(m, b));
    assert b[..32][..32] == b[..32];
  }

  /** The bytes of a frame: its length in two bytes, least significant first, and its box. */
  function FrameOf(body: seq<Byte>): seq<Byte>
    requires |body| < 0x1_0000
  {
    [|body| % 256, |body| / 256] + body
  }

  lemma FrameOfIs(body: seq<Byte>)
    requires |body| < 0x1_0000
    ensures FrameOf(body) == FrameBytes(body)
    ensures FromLe(FrameOf(body)[..2]) == |body|
  {
    assert Le(|body| / 256, 1) == [|body| / 256];
    LengthField(body);
  }

  /** What a frame does to a session between two frames, by what its box opens to. */
  ghost predicate FrameDoes(a: Machine, content: Option<seq<Byte>>, r: Machine)
  {
    match content
    case None => r.phase == Disconnected && r.queue == a.queue
    case Some(plain) =>
      |plain| >= 4 ==>
        if !KnownType(plain[..4]) then r == a.(serverCounter := Next(a.serverCounter))
        else if BadLength(plain) then r.phase == Disconnected && r.queue == a.queue
        else r.phase == WaitHeader && |r.queue| == |a.queue| + 1 && a.queue <= r.queue && Stands(plain, r.queue[|a.queue|])
  }

  lemma FrameDrained(env: Env, a: Machine, body: seq<Byte>)
    requires Inv(a) && a.phase == WaitHeader && a.rbuf == [] && 0 < |body| < 0x1_0000
    ensures var o := OpenBody(env, a, body);
      Arrive(env, a, FrameOf(body)) == if o.Threw? then Terminate(o.m) else Rest(o.m, Tail(WaitHeader, LENGTH_SIZE, []))
  {
    var b := FrameOf(body);
    FrameOfIs(body);
    var t := Tail(a.phase, a.nextRead, b);
    assert More(a, b) == Rest(a, t);
    DrainFrames(env, Rest(a, t));
    ParseFramesIgnoresBuffer(env, a, t, b);
    assert b[LENGTH_SIZE..LENGTH_SIZE + |body|] == body && b[LENGTH_SIZE + |body|..] == [];
    ParseFirst(env, a, b, |body|);
  }

  lemma BodyDoes(env: Env, a: Machine, body: seq<Byte>, plain: seq<Byte>)
    requires |body| >= 16 && |plain| >= 4
    requires Open(env.cipher, a.sessionServerPK, a.sessionSK, MakeNonce(a.serverPrefix, a.serverCounter), body) == Some(plain)
    ensures var o := OpenBody(env, a, body);
      if !KnownType(plain[..4]) then o == Done(a.(serverCounter := Next(a.serverCounter)))
      else if BadLength(plain) then o.Threw? && o.m.queue == a.queue
      else o.Done? && |o.m.queue| == |a.queue| + 1 && a.queue <= o.m.queue && Stands(plain, o.m.queue[|a.queue|])
  {
    var residue := env.residue(body);
    assert (plain + residue)[..4] == plain[..4];
    SkippedIffUnknown(plain, residue);
    RefusedIffBadLength(plain, residue);
    var p := Parse(plain, residue);
    if p.Ok? {
      ParsedIffStands(plain, residue, p.value);
    }
  }

  /**
   * One frame from whatever is at the other end: a box too short or that does not open
   * ends the session; one that does queues the packet its bytes stand for, or only uses
   * its nonce if the type is unknown, or ends the session if the length is bad.
   */
  lemma FrameArrives(env: Env, a: Machine, body: seq<Byte>, nonce: Nonce)
    requires Inv(a) && a.phase == WaitHeader && a.rbuf == [] && 0 < |body| < 0x1_0000
    requires NonceOf(nonce, a.serverPrefix, a.serverCounter)
    ensures FrameDoes(a, if |body| < 16 then None else Open(env.cipher, a.sessionServerPK, a.sessionSK, nonce, body),
                      Arrive(env, a, FrameOf(body)))
  {
    NonceIs(nonce, a.serverPrefix, a.serverCounter);
    FrameDrained(env, a, body);
    var o := Open(env.cipher, a.sessionServerPK, a.sessionSK, nonce, body);
    if |body| >= 16 && o.Some? && |o.value| >= 4 {
      BodyDoes(env, a, body, o.value);
    }
  }

  // ----- what is left of a session that has ended -----

  /** No key, no prefix, no socket and no unread or unsent byte. */
  predicate Wiped(m: Machine)
  {
    && m.socket == None && m.rbuf == [] && m.wbuf == []
    && m.prefix == Zeros(16) && m.sessionPK == Zeros(32) && m.sessionSK == Zeros(32)
  }

  lemma StepWipes(env: Env, m: Machine, e: Event)
    requires Inv(m) && m.phase != WaitConnect && (m.phase == Disconnected ==> Wiped(m))
    ensures Apply(env, m, e).phase == Disconnected ==> Wiped(Apply(env, m, e))
  {
    match e
    case Incoming(bytes) =>
      if m.phase != Disconnected {
        DrainKeeps(env, More(m, bytes));
      }
    case Send(p) =>
      if m.phase != Disconnected {
        SendEnds(env, m, p);
      } else {
        SendDead(env, m, p);
      }
    case Writable =>
      if m.phase != Disconnected {
        FlushKeeps(m);
      }
  }

  lemma SendEnds(env: Env, m: Machine, p: Outgoing)
    requires Inv(m) && m.phase != WaitConnect && m.phase != Disconnected
    ensures var r := SendPacket(env, m, p).m; r.phase == Disconnected ==> Wiped(r)
  {
    if Print(p).Ok? {
      var nonce, plain := MakeNonce(m.prefix, m.counter), Print(p).value;
      var box := Seal(env.cipher, m.sessionServerPK, m.sessionSK, nonce, plain);
      if box.Some? {
        AppendKeeps(m.(counter := Next(m.counter)), Frame(nonce, plain, FrameBytes(box.value)));
      }
    }
  }

  lemma SendDead(env: Env, m: Machine, p: Outgoing)
    requires Inv(m) && m.phase == Disconnected && Wiped(m)
    ensures Wiped(SendPacket(env, m, p).m)
  {
  }

  /** However a run ends the session, nothing secret stays behind. */
  lemma {:induction false} DeadIsWiped(env: Env, m: Machine, events: seq<Event>)
    requires Inv(m) && m.phase != WaitConnect && (m.phase == Disconnected ==> Wiped(m))
    ensures Run(env, m, events).phase == Disconnected ==> Wiped(Run(env, m, events))
    decreases |events|
  {
    if events != [] {
      StepWipes(env, m, events[0]);
      DeadIsWiped(env, Apply(env, m, events[0]), events[1..]);
    }
  }
}
