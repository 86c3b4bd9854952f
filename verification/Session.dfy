/** The transport session as the program runs it: one object whose methods update its fields. */
module Session {
  import opened Bytes
  import opened Wrappers
  import opened Box
  import opened Packets
  import opened Socket
  import opened Transport
  import Chunking

  class Session {
    const env: Env

    var phase: Phase
    var nextReadSize: nat
    var readBuffer: seq<Byte>
    var writeBuffer: seq<Byte>
    var noncePrefix: Prefix
    var serverNoncePrefix: Prefix
    var counter: Counter
    var serverCounter: Counter
    var sessionPK: Key
    var sessionSK: Key
    var sessionServerPK: Key
    var serverPK: Key
    var authNonce: Nonce
    var useProxy: bool
    var packetQueue: seq<Packet>
    var socket: TcpSocket?
    ghost var log: seq<Write>

    /** The fields as one value. */
    ghost function Model(): Machine
      reads this, socket
    {
      Machine(phase, nextReadSize, readBuffer, writeBuffer, noncePrefix, serverNoncePrefix, counter, serverCounter,
              sessionPK, sessionSK, sessionServerPK, serverPK, authNonce, useProxy, packetQueue,
              if socket == null then None else Some(socket.Model()), log)
    }

    /** The call ended in this outcome: these fields, and this exception or none. */
    ghost predicate Ended(r: Outcome, threw: Option<Error>)
      reads this, socket
    {
      Model() == r.m && threw == (match r case Done(_) => None case Threw(_, e) => Some(e))
    }

    constructor (environment: Env)
      ensures env == environment && phase == Disconnected && packetQueue == []
      ensures Inv(Model()) && AtRest(Model())
    {
      env := environment;
      phase, nextReadSize, readBuffer, writeBuffer := Disconnected, 0, [], [];
      noncePrefix, serverNoncePrefix, counter, serverCounter := NO_PREFIX, NO_PREFIX, 0, 0;
      sessionPK, sessionSK, sessionServerPK := NO_KEY, NO_KEY, NO_KEY;
      serverPK, authNonce, useProxy := NO_KEY, Zeros(NONCE_BYTES), false;
      packetQueue, socket, log := [], null, [];
    }

    method Terminate()
      modifies this
      ensures Model() == Transport.Terminate(old(Model())) && socket == null
    {
      socket := null;
      noncePrefix, sessionPK, sessionSK := NO_PREFIX, NO_KEY, NO_KEY;
      phase := Disconnected;
      nextReadSize := 0;
      readBuffer, writeBuffer := [], [];
    }

    method ResetCounters()
      modifies this`counter, this`serverCounter
      ensures counter == serverCounter == Start(useProxy)
    {
      if useProxy {
        counter, serverCounter := 0, 0;
      } else {
        counter, serverCounter := 1, 1;
      }
    }

    method TakeSocket(newSocket: TcpSocket, proxy: bool)
      modifies this`socket, this`useProxy, this`serverPK
      ensures socket == newSocket && useProxy == proxy
      ensures serverPK == if proxy then SERVER_PK else GATEWAY_PK
    {
      socket := newSocket;
      useProxy := proxy;
      serverPK := if useProxy then SERVER_PK else GATEWAY_PK;
    }

    method TakeChoices(choices: Choices)
      modifies this`noncePrefix, this`sessionPK, this`sessionSK, this`authNonce
      ensures Choices(noncePrefix, sessionPK, sessionSK, authNonce) == choices
    {
      noncePrefix := choices.prefix;
      sessionPK, sessionSK, authNonce := choices.sessionPK, choices.sessionSK, choices.authNonce;
    }

    /** Set up for a new connection. */
    method Prepare(newSocket: TcpSocket, proxy: bool, choices: Choices)
      modifies this
      ensures Model() == Fresh(old(Model()), newSocket.Model(), proxy, choices) && socket == newSocket
    {
      TakeSocket(newSocket, proxy);
      TakeChoices(choices);
      ResetCounters();
      log := [];
      phase := WaitConnect;
    }

    /** The socket is newly connected: it has accepted nothing yet. */
    method Connect(newSocket: TcpSocket, proxy: bool, choices: Choices) returns (threw: Option<Error>)
      requires Inv(Model()) && phase != WaitConnect && newSocket.wire == []
      modifies this, newSocket
      ensures Ended(Transport.Connect(old(Model()), old(newSocket.Model()), proxy, choices), threw)
      ensures socket == newSocket || socket == null
      ensures newSocket.inbox == old(newSocket.inbox)
      ensures Inv(Model()) && AtRest(Model())
    {
      ConnectKeeps(Model(), newSocket.Model(), proxy, choices);
      if phase != Disconnected {
        Terminate();
      }
      Prepare(newSocket, proxy, choices);
      threw := PacketReady();
    }

    method OnReadyWrite() returns (threw: Option<Error>)
      requires phase != Disconnected ==> socket != null
      modifies this, if socket == null then {} else {socket}
      ensures Ended(Flush(old(Model())), threw)
      ensures socket == old(socket) || socket == null
      ensures old(socket) != null ==> old(socket).inbox == old(socket.inbox)
    {
      while writeBuffer != []
        invariant socket == old(socket) && (socket != null ==> socket.inbox == old(socket.inbox))
        invariant Flush(Model()) == Flush(old(Model()))
        decreases |writeBuffer|
      {
        if socket == null {
          Terminate();
          return Some(SocketError);
        }
        var r := socket.Send(writeBuffer);
        if r == Broken {
          Terminate();
          return Some(SocketError);
        }
        if r == Blocked {
          return None;
        }
        writeBuffer := [];
      }
      return None;
    }

    method NextClientNonce() returns (n: Nonce)
      modifies this`counter
      ensures n == MakeNonce(noncePrefix, old(counter)) && counter == Next(old(counter))
    {
      n := MakeNonce(noncePrefix, counter);
      counter := Next(counter);
    }

    method NextServerNonce() returns (n: Nonce)
      modifies this`serverCounter
      ensures n == MakeNonce(serverNoncePrefix, old(serverCounter)) && serverCounter == Next(old(serverCounter))
    {
      n := MakeNonce(serverNoncePrefix, serverCounter);
      serverCounter := Next(serverCounter);
    }

    method SendHello() returns (threw: Option<Error>)
      requires socket != null
      modifies this, socket
      ensures Ended(Append(old(Model()), Hello(old(sessionPK + noncePrefix))), threw)
      ensures socket == old(socket) || socket == null
      ensures old(socket).inbox == old(socket.inbox)
    {
      writeBuffer := writeBuffer + sessionPK;
      writeBuffer := writeBuffer + noncePrefix;
      log := Logged(Model(), Hello(sessionPK + noncePrefix));
      assert writeBuffer == old(writeBuffer) + (sessionPK + noncePrefix);
      threw := OnReadyWrite();
    }

    method ReadHello() returns (threw: Option<Error>)
      requires |readBuffer| >= HELLO_SIZE
      modifies this
      ensures Ended(Transport.ReadHello(env, old(Model())), threw)
      ensures socket == old(socket)
    {
      var packet := readBuffer[..HELLO_SIZE];
      readBuffer := readBuffer[HELLO_SIZE..];
      serverNoncePrefix := packet[..PREFIX_BYTES];
      var n := NextServerNonce();
      assert packet[PREFIX_BYTES..] == old(readBuffer)[PREFIX_BYTES..HELLO_SIZE];
      assert packet[..PREFIX_BYTES] == old(readBuffer)[..PREFIX_BYTES];
      match Open(env.cipher, serverPK, sessionSK, n, packet[PREFIX_BYTES..]) {
        case None =>
          return Some(SessionError);
        case Some(plain) =>
          sessionServerPK := plain[..KEY_BYTES];
          if plain[KEY_BYTES..] != noncePrefix {
            return Some(SessionError);
          }
          return None;
      }
    }

    method SendAuth() returns (threw: Option<Error>)
      requires phase != Disconnected && socket != null
      modifies this, socket
      ensures Ended(Transport.SendAuth(env, old(Model())), threw)
      ensures socket == old(socket) || socket == null
      ensures old(socket).inbox == old(socket.inbox)
    {
      var packet := env.id + VERSION;
      if useProxy {
        packet := packet + authNonce;
        packet := packet + serverNoncePrefix;
      } else {
        packet := packet + serverNoncePrefix;
        packet := packet + authNonce;
      }
      match Seal(env.cipher, serverPK, env.sk, authNonce, sessionPK) {
        case None =>
          return Some(CryptoError);
        case Some(inner) =>
          packet := packet + inner;
          assert packet == AuthPlain(env, Model(), inner);
          var n := NextClientNonce();
          match Seal(env.cipher, sessionServerPK, sessionSK, n, packet) {
            case None =>
              return Some(CryptoError);
            case Some(box) =>
              writeBuffer := writeBuffer + box;
              log := Logged(Model(), Auth(n, box));
              threw := OnReadyWrite();
          }
      }
    }

    method ReadAck() returns (threw: Option<Error>)
      requires |readBuffer| >= ACK_SIZE
      modifies this
      ensures Ended(Transport.ReadAck(env, old(Model())), threw)
      ensures socket == old(socket)
    {
      var packet := readBuffer[..ACK_SIZE];
      readBuffer := readBuffer[ACK_SIZE..];
      var n := NextServerNonce();
      match Open(env.cipher, sessionServerPK, sessionSK, n, packet) {
        case None =>
          return Some(SessionError);
        case Some(plain) =>
          if plain != Zeros(16) {
            return Some(SessionError);
          }
          return None;
      }
    }

    method ReadPacket(length: nat) returns (threw: Option<Error>)
      requires length <= |readBuffer|
      modifies this
      ensures Ended(Transport.ReadPacket(env, old(Model()), length), threw)
      ensures socket == old(socket)
    {
      var body := readBuffer[..length];
      readBuffer := readBuffer[length..];
      if length < MAC_BYTES {
        return Some(SessionError);
      }
      var n := NextServerNonce();
      match Open(env.cipher, sessionServerPK, sessionSK, n, body) {
        case None =>
          return Some(SessionError);
        case Some(plain) =>
          match Parse(plain, env.residue(body)) {
            case Ok(p) =>
              packetQueue := packetQueue + [p];
              return None;
            case Err(e) =>
              if e == UnknownType {
                return None;
              }
              return Some(PacketError(e));
          }
      }
    }

    method AnswerHello() returns (threw: Option<Error>)
      requires phase != Disconnected && |readBuffer| >= HELLO_SIZE && socket != null
      modifies this, socket
      ensures Ended(Transport.AnswerHello(env, old(Model())), threw)
      ensures socket == old(socket) || socket == null
      ensures old(socket).inbox == old(socket.inbox)
    {
      threw := ReadHello();
      if threw == None {
        threw := SendAuth();
      }
      if threw == None {
        nextReadSize := ACK_SIZE;
        phase := WaitAuth;
      }
    }

    method PacketReady() returns (threw: Option<Error>)
      requires Shape(Model()) && nextReadSize <= |readBuffer|
      requires phase != Disconnected ==> socket != null
      modifies this, if socket == null then {} else {socket}
      ensures Ended(Transport.PacketReady(env, old(Model())), threw)
      ensures socket == old(socket) || socket == null
      ensures old(socket) != null ==> old(socket).inbox == old(socket.inbox)
    {
      threw := None;
      match phase {
        case WaitConnect =>
          threw := SendHello();
          if threw == None {
            nextReadSize := HELLO_SIZE;
            phase := WaitHello;
          }
        case WaitHello =>
          threw := AnswerHello();
        case WaitAuth =>
          threw := ReadAck();
          if threw == None {
            nextReadSize := LENGTH_SIZE;
            phase := WaitHeader;
          }
        case WaitHeader =>
          nextReadSize := FromLe(readBuffer[..LENGTH_SIZE]);
          readBuffer := readBuffer[LENGTH_SIZE..];
          phase := WaitPacket;
        case WaitPacket =>
          threw := ReadPacket(nextReadSize);
          if threw == None {
            nextReadSize := LENGTH_SIZE;
            phase := WaitHeader;
          }
        case Disconnected =>
      }
    }

    /** Append everything the socket has to the read buffer, a buffer full at a time. */
    method ReceiveAll(sock: TcpSocket) returns (ending: Arrival)
      requires sock == socket
      modifies this`readBuffer, sock`inbox
      ensures var (bytes, end, rest) := Gather(old(sock.inbox));
        readBuffer == old(readBuffer) + bytes && ending == end && sock.inbox == rest
      ensures !ending.Data?
    {
      ghost var inbox0 := sock.inbox;
      ghost var got: seq<Byte> := [];
      assert got + Gather(inbox0).0 == Gather(inbox0).0;
      ending := Data([0]);
      while ending.Data?
        invariant readBuffer == old(readBuffer) + got
        invariant if ending.Data?
                  then Gather(inbox0) == (got + Gather(sock.inbox).0, Gather(sock.inbox).1, Gather(sock.inbox).2)
                  else Gather(inbox0) == (got, ending, sock.inbox)
        decreases ending.Data?, Pending(sock.inbox)
      {
        ending := sock.Receive();
        if ending.Data? {
          readBuffer := readBuffer + ending.bytes;
          assert got + (ending.bytes + Gather(sock.inbox).0) == (got + ending.bytes) + Gather(sock.inbox).0;
          got := got + ending.bytes;
        } else {
          assert got + [] == got;
        }
      }
    }

    /** Consume every complete item in the read buffer. */
    method Drain() returns (threw: Option<Error>)
      requires Inv(Model()) && phase != WaitConnect && phase != Disconnected
      modifies this, if socket == null then {} else {socket}
      ensures Ended(Chunking.Drain(env, old(Model())), threw)
      ensures socket == old(socket) || socket == null
      ensures old(socket) != null ==> old(socket).inbox == old(socket.inbox)
      ensures threw == None ==> Inv(Model()) && AtRest(Model())
    {
      threw := None;
      ghost var start := Model();
      while nextReadSize != 0 && |readBuffer| >= nextReadSize
        invariant Inv(Model()) && phase != WaitConnect && phase != Disconnected
        invariant socket == old(socket) && socket.inbox == old(socket.inbox)
        invariant threw == None && Chunking.Drain(env, Model()) == Chunking.Drain(env, start)
        decreases |readBuffer|
      {
        StepKeeps(env, Model());
        threw := PacketReady();
        if threw != None {
          return;
        }
      }
    }

    /** Everything the socket has, then everything that is complete. Returns whether the stream goes on. */
    method OnReadyRead() returns (open: bool, threw: Option<Error>)
      requires Inv(Model()) && phase != WaitConnect
      modifies this, if socket == null then {} else {socket}
      ensures old(phase) == Disconnected ==> !open && Ended(Done(old(Model())), threw)
      ensures old(phase) != Disconnected ==>
        var (bytes, ending, rest) := Gather(old(socket.inbox));
        && old(socket).inbox == rest
        && (if ending == ReadFault then Ended(Threw(Transport.Terminate(old(Model())), SocketError), threw)
            else Ended(Chunking.Drain(env, Chunking.More(old(Model()), bytes)), threw))
        && (threw == None ==> open == (ending != Eof))
      ensures threw == None ==> Inv(Model()) && AtRest(Model())
    {
      if phase == Disconnected {
        return false, None;
      }
      var ending := ReceiveAll(socket);
      if ending == ReadFault {
        Terminate();
        return false, Some(SocketError);
      }
      threw := Drain();
      return ending != Eof, threw;
    }

    method GetPacket() returns (p: Option<Packet>)
      modifies this`packetQueue
      ensures old(packetQueue) == [] ==> p == None && packetQueue == []
      ensures old(packetQueue) != [] ==> p == Some(old(packetQueue)[0]) && packetQueue == old(packetQueue)[1..]
    {
      if packetQueue == [] {
        return None;
      }
      p := Some(packetQueue[0]);
      packetQueue := packetQueue[1..];
    }

    method SendPacket(p: Outgoing) returns (threw: Option<Error>)
      requires phase != Disconnected ==> socket != null
      modifies this, if socket == null then {} else {socket}
      ensures Ended(Transport.SendPacket(env, old(Model()), p), threw)
      ensures socket == old(socket) || socket == null
    {
      match Print(p) {
        case Err(why) =>
          return Some(SendError(why));
        case Ok(plain) =>
          threw := SendBytes(plain);
      }
    }

    method SendBytes(plain: seq<Byte>) returns (threw: Option<Error>)
      requires phase != Disconnected ==> socket != null
      modifies this, if socket == null then {} else {socket}
      ensures Ended(Transport.SendBytes(env, old(Model()), plain), threw)
      ensures socket == old(socket) || socket == null
    {
      var n := NextClientNonce();
      match Seal(env.cipher, sessionServerPK, sessionSK, n, plain) {
        case None =>
          return Some(CryptoError);
        case Some(box) =>
          writeBuffer := writeBuffer + FrameBytes(box);
          log := Logged(Model(), Frame(n, plain, FrameBytes(box)));
          threw := OnReadyWrite();
      }
    }
  }
}
