/**
 * The transport session as a deterministic machine: its fields, and what each step of
 * the protocol does to them. Class Session.Session is proved against these functions.
 */
module Transport {
  import opened Bytes
  import opened Wrappers
  import opened Box
  import opened Accounts
  import opened Packets
  import opened Socket

  const PREFIX_BYTES := 16
  const HELLO_SIZE := PREFIX_BYTES + KEY_BYTES + PREFIX_BYTES + MAC_BYTES
  const ACK_SIZE := 16 + MAC_BYTES
  const LENGTH_SIZE := 2
  /** The client's authentication: id, version, nonce, server prefix and inner box, boxed. */
  const AUTH_SIZE := ID_BYTES + 32 + NONCE_BYTES + PREFIX_BYTES + (KEY_BYTES + MAC_BYTES) + MAC_BYTES
  const MODULUS := 0x1_0000_0000_0000_0000

  type Prefix = s: seq<Byte> | |s| == PREFIX_BYTES witness Zeros(PREFIX_BYTES)
  const NO_PREFIX: Prefix := Zeros(PREFIX_BYTES)
  const NO_KEY: Key := Zeros(KEY_BYTES)

  type Counter = x: nat | x < MODULUS

  const SERVER_PK: Key := [
    0xb8, 0x51, 0xae, 0x1b, 0xf2, 0x75, 0xeb, 0xe6, 0x85, 0x1c, 0xa7, 0xf5, 0x20, 0x6b, 0x49, 0x50,
    0x80, 0x92, 0x71, 0x59, 0x78, 0x7e, 0x9a, 0xaa, 0xbb, 0xeb, 0x4e, 0x55, 0xaf, 0x09, 0xd8, 0x05]
  const GATEWAY_PK: Key := [
    0x45, 0x0b, 0x97, 0x57, 0x35, 0x27, 0x9f, 0xde, 0xcb, 0x33, 0x13, 0x64, 0x8f, 0x5f, 0xc6, 0xee,
    0x9f, 0xf4, 0x36, 0x0e, 0xa9, 0x2a, 0x8c, 0x17, 0x51, 0xc6, 0x61, 0xe4, 0xc0, 0xd8, 0xc9, 0x09]

  /** "libceema 0.0.1;;;" in a zero-filled field of 32 bytes. */
  const VERSION: seq<Byte> := [
    0x6c, 0x69, 0x62, 0x63, 0x65, 0x65, 0x6d, 0x61, 0x20, 0x30, 0x2e, 0x30, 0x2e, 0x31, 0x3b, 0x3b, 0x3b,
    0, 0, 0, 0, 0, 0, 0, 0, 0, 0, 0, 0, 0, 0, 0]

  datatype Phase = Disconnected | WaitConnect | WaitHello | WaitAuth | WaitHeader | WaitPacket

  datatype Error = SocketError | SessionError | CryptoError | PacketError(reason: ParseError) | SendError(why: PrintError)

  /** The account, the cipher, and what reading past a short body finds (given its box). */
  datatype Env = Env(cipher: Cipher, id: Id, sk: Key, residue: seq<Byte> -> Residue)

  /** What is chosen at random for one connection. */
  datatype Choices = Choices(prefix: Prefix, sessionPK: Key, sessionSK: Key, authNonce: Nonce)

  /** One message appended to the output, in its order. */
  datatype Write =
    | Hello(bytes: seq<Byte>)
    | Auth(nonce: Nonce, bytes: seq<Byte>)
    | Frame(nonce: Nonce, plain: seq<Byte>, bytes: seq<Byte>)

  /** The session's fields; log is the history of its writes since it connected. */
  datatype Machine = Machine(
    phase: Phase, nextRead: nat, rbuf: seq<Byte>, wbuf: seq<Byte>,
    prefix: Prefix, serverPrefix: Prefix, counter: Counter, serverCounter: Counter,
    sessionPK: Key, sessionSK: Key, sessionServerPK: Key, serverPK: Key, authNonce: Nonce, useProxy: bool,
    queue: seq<Packet>, socket: Option<Stream>, log: seq<Write>)

  /** Threw carries the state in which the exception left the session. */
  datatype Outcome = Done(m: Machine) | Threw(m: Machine, error: Error)

  function MakeNonce(prefix: Prefix, counter: Counter): Nonce
  {
    prefix + Le(counter, 8)
  }

  function Next(c: Counter): Counter
  {
    (c + 1) % MODULUS
  }

  /** The counter's value k steps after start. */
  function Advance(start: Counter, k: nat): Counter
  {
    (start + k) % MODULUS
  }

  function LogBytes(log: seq<Write>): seq<Byte>
  {
    if log == [] then [] else LogBytes(log[..|log| - 1]) + log[|log| - 1].bytes
  }

  // ----- ending and starting -----

  function Terminate(m: Machine): Machine
  {
    m.(socket := None, prefix := NO_PREFIX, sessionPK := NO_KEY, sessionSK := NO_KEY,
       phase := Disconnected, nextRead := 0, rbuf := [], wbuf := [])
  }

  function Start(useProxy: bool): Counter
  {
    if useProxy then 0 else 1
  }

  /** A new connection's fields, before anything is said. */
  function Fresh(m: Machine, socket: Stream, useProxy: bool, choices: Choices): Machine
  {
    m.(socket := Some(socket), useProxy := useProxy, serverPK := if useProxy then SERVER_PK else GATEWAY_PK,
       prefix := choices.prefix, counter := Start(useProxy), serverCounter := Start(useProxy),
       sessionPK := choices.sessionPK, sessionSK := choices.sessionSK, authNonce := choices.authNonce,
       phase := WaitConnect, log := [])
  }

  function Connect(m: Machine, socket: Stream, useProxy: bool, choices: Choices): Outcome
  {
    SayHello(Fresh(if m.phase != Disconnected then Terminate(m) else m, socket, useProxy, choices))
  }

  // ----- writing -----

  /** Hand the write buffer to the socket, whole or not at all. */
  function Flush(m: Machine): Outcome
  {
    if m.wbuf == [] then Done(m)
    else if m.socket == None then Threw(Terminate(m), SocketError)
    else
      var (r, s) := Transmit(m.socket.value, m.wbuf, 0);
      match r
      case Delivered => Done(m.(socket := Some(s), wbuf := []))
      case Blocked => Done(m.(socket := Some(s)))
      case Broken => Threw(Terminate(m), SocketError)
  }

  /** Only a session with a socket writes anything. */
  function Logged(m: Machine, w: Write): seq<Write>
  {
    if m.socket == None then m.log else m.log + [w]
  }

  function Append(m: Machine, w: Write): Outcome
  {
    Flush(m.(wbuf := m.wbuf + w.bytes, log := Logged(m, w)))
  }

  function SayHello(m: Machine): Outcome
  {
    match Append(m, Hello(m.sessionPK + m.prefix))
    case Threw(m1, e) => Threw(m1, e)
    case Done(m1) => Done(m1.(nextRead := HELLO_SIZE, phase := WaitHello))
  }

  function AuthPlain(env: Env, m: Machine, inner: seq<Byte>): seq<Byte>
  {
    env.id + VERSION
    + (if m.useProxy then m.authNonce + m.serverPrefix else m.serverPrefix + m.authNonce)
    + inner
  }

  function SendAuth(env: Env, m: Machine): Outcome
  {
    match Seal(env.cipher, m.serverPK, env.sk, m.authNonce, m.sessionPK)
    case None => Threw(m, CryptoError)
    case Some(inner) =>
      var nonce := MakeNonce(m.prefix, m.counter);
      var m1 := m.(counter := Next(m.counter));
      match Seal(env.cipher, m.sessionServerPK, m.sessionSK, nonce, AuthPlain(env, m, inner))
      case None => Threw(m1, CryptoError)
      case Some(box) => Append(m1, Auth(nonce, box))
  }

  /** The length field keeps the low 16 bits only. */
  function FrameBytes(box: seq<Byte>): seq<Byte>
  {
    Le(|box| % 0x1_0000, LENGTH_SIZE) + box
  }

  function SendBytes(env: Env, m: Machine, plain: seq<Byte>): Outcome
  {
    var nonce := MakeNonce(m.prefix, m.counter);
    var m1 := m.(counter := Next(m.counter));
    match Seal(env.cipher, m.sessionServerPK, m.sessionSK, nonce, plain)
    case None => Threw(m1, CryptoError)
    case Some(box) => Append(m1, Frame(nonce, plain, FrameBytes(box)))
  }

  function SendPacket(env: Env, m: Machine, p: Outgoing): Outcome
  {
    match Print(p)
    case Err(why) => Threw(m, SendError(why))
    case Ok(plain) => SendBytes(env, m, plain)
  }

  // ----- reading -----

  function ReadHello(env: Env, m: Machine): Outcome
    requires |m.rbuf| >= HELLO_SIZE
  {
    var prefix: Prefix := m.rbuf[..PREFIX_BYTES];
    var box := m.rbuf[PREFIX_BYTES..HELLO_SIZE];
    var m1 := m.(rbuf := m.rbuf[HELLO_SIZE..], serverPrefix := prefix, serverCounter := Next(m.serverCounter));
    match Open(env.cipher, m.serverPK, m.sessionSK, MakeNonce(prefix, m.serverCounter), box)
    case None => Threw(m1, SessionError)
    case Some(plain) =>
      assert |plain| == KEY_BYTES + PREFIX_BYTES;
      var m2 := m1.(sessionServerPK := plain[..KEY_BYTES]);
      if plain[KEY_BYTES..] != m.prefix then Threw(m2, SessionError) else Done(m2)
  }

  function ReadAck(env: Env, m: Machine): Outcome
    requires |m.rbuf| >= ACK_SIZE
  {
    var m1 := m.(rbuf := m.rbuf[ACK_SIZE..], serverCounter := Next(m.serverCounter));
    match Open(env.cipher, m.sessionServerPK, m.sessionSK, MakeNonce(m.serverPrefix, m.serverCounter), m.rbuf[..ACK_SIZE])
    case None => Threw(m1, SessionError)
    case Some(plain) => if plain != Zeros(16) then Threw(m1, SessionError) else Done(m1)
  }

  function ReadPacket(env: Env, m: Machine, length: nat): Outcome
    requires length <= |m.rbuf|
  {
    var body := m.rbuf[..length];
    OpenBody(env, m.(rbuf := m.rbuf[length..]), body)
  }

  function OpenBody(env: Env, m: Machine, body: seq<Byte>): Outcome
  {
    if |body| < MAC_BYTES then Threw(m, SessionError)
    else
      var m1 := m.(serverCounter := Next(m.serverCounter));
      match Open(env.cipher, m.sessionServerPK, m.sessionSK, MakeNonce(m.serverPrefix, m.serverCounter), body)
      case None => Threw(m1, SessionError)
      case Some(plain) =>
        match Parse(plain, env.residue(body))
        case Ok(p) => Done(m1.(queue := m1.queue + [p]))
        case Err(e) => if e == UnknownType then Done(m1) else Threw(m1, PacketError(e))
  }

  /** Read the server's hello, authenticate, and wait for the acknowledgement. */
  function AnswerHello(env: Env, m: Machine): Outcome
    requires |m.rbuf| >= HELLO_SIZE
  {
    match ReadHello(env, m)
    case Threw(m1, e) => Threw(m1, e)
    case Done(m1) =>
      match SendAuth(env, m1)
      case Threw(m2, e) => Threw(m2, e)
      case Done(m2) => Done(m2.(nextRead := ACK_SIZE, phase := WaitAuth))
  }

  /** One step of the protocol: enough bytes have arrived for the phase. */
  function PacketReady(env: Env, m: Machine): Outcome
    requires m.nextRead <= |m.rbuf| && Shape(m)
  {
    match m.phase
    case WaitConnect => SayHello(m)
    case WaitHello => AnswerHello(env, m)
    case WaitAuth =>
      (match ReadAck(env, m)
       case Threw(m1, e) => Threw(m1, e)
       case Done(m1) => Done(m1.(nextRead := LENGTH_SIZE, phase := WaitHeader)))
    case WaitHeader =>
      Done(m.(rbuf := m.rbuf[LENGTH_SIZE..], nextRead := FromLe(m.rbuf[..LENGTH_SIZE]), phase := WaitPacket))
    case WaitPacket =>
      (match ReadPacket(env, m, m.nextRead)
       case Threw(m1, e) => Threw(m1, e)
       case Done(m1) => Done(m1.(nextRead := LENGTH_SIZE, phase := WaitHeader)))
    case Disconnected => Done(m)
  }

  /** The waiting phase fixes how many bytes are waited for. */
  predicate Shape(m: Machine)
  {
    match m.phase
    case Disconnected => m.nextRead == 0 && m.rbuf == [] && m.wbuf == [] && m.socket == None
    case WaitConnect => m.nextRead == 0 && m.rbuf == []
    case WaitHello => m.nextRead == HELLO_SIZE
    case WaitAuth => m.nextRead == ACK_SIZE
    case WaitHeader => m.nextRead == LENGTH_SIZE
    case WaitPacket => m.nextRead < 0x1_0000
  }

  /** Nothing handed over for writing is lost or repeated. */
  ghost predicate Conserved(m: Machine)
  {
    m.phase != Disconnected ==> m.socket.Some? && m.socket.value.wire + m.wbuf == LogBytes(m.log)
  }

  ghost predicate Inv(m: Machine)
  {
    Shape(m) && Conserved(m)
  }

  predicate CanStep(m: Machine)
  {
    m.nextRead > 0 && |m.rbuf| >= m.nextRead
  }

  /** Between two calls: every complete item has been consumed. */
  predicate AtRest(m: Machine)
  {
    Shape(m) && m.phase != WaitConnect && !CanStep(m)
  }

  // ----- every step keeps the invariant and consumes input -----

  lemma FlushKeeps(m: Machine)
    requires m.phase != Disconnected && Conserved(m)
    ensures Conserved(Flush(m).m)
    ensures Flush(m).Threw? ==> Flush(m).m == Terminate(m)
    ensures Flush(m).Done? ==> Flush(m).m == m.(socket := Flush(m).m.socket, wbuf := Flush(m).m.wbuf)
  {
    if m.wbuf != [] {
      TransmitEffect(m.socket.value, m.wbuf, 0);
    }
  }

  lemma AppendKeeps(m: Machine, w: Write)
    requires m.phase != Disconnected && Conserved(m)
    ensures var r := Append(m, w);
      && Conserved(r.m)
      && (r.Threw? ==> r.m == Terminate(m).(log := m.log + [w]))
      && (r.Done? ==> r.m == m.(socket := r.m.socket, wbuf := r.m.wbuf, log := m.log + [w]))
  {
    var m1 := m.(wbuf := m.wbuf + w.bytes, log := m.log + [w]);
    assert m1.log[..|m1.log| - 1] == m.log;
    assert m.socket.value.wire + m1.wbuf == (m.socket.value.wire + m.wbuf) + w.bytes;
    FlushKeeps(m1);
  }

  lemma StepKeeps(env: Env, m: Machine)
    requires Inv(m) && CanStep(m)
    ensures var r := PacketReady(env, m);
      && (r.Done? ==> Inv(r.m) && r.m.phase != Disconnected && r.m.phase != WaitConnect)
      && (r.Done? ==> |r.m.rbuf| < |m.rbuf|)
  {
    match m.phase
    case WaitHello =>
      var r := ReadHello(env, m);
      if r.Done? {
        StepAuth(env, r.m);
      }
    case WaitHeader =>
      FromLeBound(m.rbuf[..LENGTH_SIZE]);
      PowersOf256();
    case _ =>
  }

  lemma StepAuth(env: Env, m: Machine)
    requires m.phase != Disconnected && Conserved(m)
    ensures var r := SendAuth(env, m);
      r.Done? ==> Conserved(r.m) && r.m == m.(counter := Next(m.counter), socket := r.m.socket, wbuf := r.m.wbuf, log := r.m.log)
  {
    var inner := Seal(env.cipher, m.serverPK, env.sk, m.authNonce, m.sessionPK);
    if inner.Some? {
      var nonce := MakeNonce(m.prefix, m.counter);
      var box := Seal(env.cipher, m.sessionServerPK, m.sessionSK, nonce, AuthPlain(env, m, inner.value));
      if box.Some? {
        AppendKeeps(m.(counter := Next(m.counter)), Auth(nonce, box.value));
      }
    }
  }

  /** A new connection has said hello and waits for the server's; or its socket broke. */
  lemma ConnectKeeps(m: Machine, socket: Stream, useProxy: bool, choices: Choices)
    requires Inv(m) && m.phase != WaitConnect && socket.wire == []
    ensures var r := Connect(m, socket, useProxy, choices);
      && Inv(r.m) && AtRest(r.m)
      && (r.Done? ==> r.m.phase == WaitHello && r.m.rbuf == []
                      && r.m.log == [Hello(choices.sessionPK + choices.prefix)])
      && (r.Threw? ==> r.m.phase == Disconnected && r.error == SocketError)
  {
    var m1 := Fresh(if m.phase != Disconnected then Terminate(m) else m, socket, useProxy, choices);
    assert m1.wbuf == [] && socket.wire + [] == [];
    AppendKeeps(m1, Hello(m1.sessionPK + m1.prefix));
  }

  // ----- when the socket breaks -----

  lemma FlushBreaks(m: Machine)
    requires m.socket.Some?
    ensures Flush(m).Threw? <==> BreaksOn(m.socket.value.script, |m.wbuf|, 0)
    ensures Flush(m).Threw? ==> Flush(m).error == SocketError
  {
    TransmitEnds(m.socket.value, m.wbuf, 0);
  }

  /** Connecting fails exactly when the socket breaks on the hello. */
  lemma ConnectBreaks(m: Machine, socket: Stream, useProxy: bool, choices: Choices)
    requires Inv(m) && m.phase != WaitConnect
    ensures Connect(m, socket, useProxy, choices).Threw? <==> BreaksOn(socket.script, KEY_BYTES + PREFIX_BYTES, 0)
  {
    var f := Fresh(if m.phase != Disconnected then Terminate(m) else m, socket, useProxy, choices);
    FlushBreaks(f.(wbuf := f.wbuf + (f.sessionPK + f.prefix), log := Logged(f, Hello(f.sessionPK + f.prefix))));
  }
}
