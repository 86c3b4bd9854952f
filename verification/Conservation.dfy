/**
 * What a connection puts on the wire: hello, authentication, then every frame in the
 * order it was sent, from which the peer recovers exactly the packets sent.
 */
module Conservation {
  import opened Bytes
  import opened Wrappers
  import opened Box
  import opened Packets
  import opened Socket
  import opened Transport
  import opened Chunking
  import opened Framing
  import opened Runs
  import opened Delivery

  /** Hello first, authentication second, only frames after them. */
  ghost predicate InOrder(log: seq<Write>)
  {
    && log != [] && log[0].Hello?
    && (|log| > 1 ==> log[1].Auth?)
    && forall i :: 2 <= i < |log| ==> log[i].Frame?
  }

  /**
   * A printable packet sent before the server's hello has been answered. The session
   * does not refuse it (its connection does, until the handshake is over).
   */
  predicate Early(m: Machine, e: Event)
  {
    m.phase == WaitHello && e.Send? && Print(e.packet).Ok?
  }

  ghost predicate SomeEarly(env: Env, m: Machine, events: seq<Event>)
    requires Inv(m) && m.phase != WaitConnect
    decreases |events|
  {
    events != [] && (Early(m, events[0]) || SomeEarly(env, Apply(env, m, events[0]), events[1..]))
  }

  /** Writes in order, each frame sealed for the peer under the next nonce. */
  ghost predicate Orderly(env: Env, m: Machine, start: Counter)
  {
    && InOrder(m.log)
    && (m.phase == WaitHello ==> |m.log| == 1)
    && (Authenticated(m) ==> |m.log| >= 2 && env.cipher.shared(m.sessionServerPK, m.sessionSK).Some?)
    && m.counter == Advance(start, |m.log| - 1)
    && (|m.log| > 1 ==> m.log[1].nonce == MakeNonce(m.prefix, start))
    && forall i :: 2 <= i < |m.log| ==> Sealed(env, m, start, i)
  }

  ghost predicate Sealed(env: Env, m: Machine, start: Counter, i: nat)
    requires 2 <= i < |m.log| && m.log[i].Frame?
  {
    var nonce := MakeNonce(m.prefix, Advance(start, i - 1));
    var box := Seal(env.cipher, m.sessionServerPK, m.sessionSK, nonce, m.log[i].plain);
    m.log[i].nonce == nonce && box.Some? && m.log[i].bytes == FrameBytes(box.value)
  }

  lemma SealedStays(env: Env, m: Machine, r: Machine, start: Counter)
    requires InOrder(m.log) && InOrder(r.log) && m.log <= r.log
    requires m.prefix == r.prefix && m.sessionServerPK == r.sessionServerPK && m.sessionSK == r.sessionSK
    requires forall i :: 2 <= i < |m.log| ==> Sealed(env, m, start, i)
    ensures forall i :: 2 <= i < |m.log| ==> Sealed(env, r, start, i)
  {
    forall i | 2 <= i < |m.log|
      ensures Sealed(env, r, start, i)
    {
      assert Sealed(env, m, start, i) && r.log[i] == m.log[i];
    }
  }

  predicate SameKeys(m: Machine, r: Machine)
  {
    m.sessionPK == r.sessionPK && m.sessionSK == r.sessionSK && m.prefix == r.prefix
  }

  lemma StepOrderly(env: Env, m: Machine, e: Event, start: Counter)
    requires Inv(m) && (m.phase == WaitHello || Authenticated(m)) && Orderly(env, m, start)
    requires !Early(m, e)
    ensures var r := Apply(env, m, e);
      r.phase != Disconnected ==> (r.phase == WaitHello || Authenticated(r)) && Orderly(env, r, start) && SameKeys(m, r)
  {
    match e {
      case Writable =>
        FlushKeeps(m);
        if Flush(m).m.phase != Disconnected {
          SealedStays(env, m, Flush(m).m, start);
        }
      case Send(packet) =>
        SendOrderly(env, m, packet, start);
      case Incoming(bytes) =>
        ArriveWrites(env, m, bytes);
        IncomingOrderly(env, m, Arrive(env, m, bytes), start);
    }
  }

  lemma AuthOrderly(env: Env, m: Machine, r: Machine, start: Counter)
    requires m.phase == WaitHello && Orderly(env, m, start) && Authenticated(r) && WroteAuth(env, m, r)
    ensures Orderly(env, r, start) && SameKeys(m, r)
  {
    assert m.counter == start && r.log[0] == m.log[0] && |r.log| == 2;
    assert InOrder(r.log);
  }

  lemma SameOrderly(env: Env, m: Machine, r: Machine, start: Counter)
    requires Orderly(env, m, start) && SameWrites(m, r)
    requires (r.phase == WaitHello ==> m.phase == WaitHello) && (Authenticated(r) ==> Authenticated(m))
    ensures Orderly(env, r, start) && SameKeys(m, r)
  {
    SealedStays(env, m, r, start);
  }

  lemma IncomingOrderly(env: Env, m: Machine, r: Machine, start: Counter)
    requires (m.phase == WaitHello || Authenticated(m)) && Orderly(env, m, start)
    requires ArriveEffect(env, m, r)
    ensures r.phase != Disconnected ==> (r.phase == WaitHello || Authenticated(r)) && Orderly(env, r, start) && SameKeys(m, r)
  {
    if r.phase != Disconnected {
      if r.phase != WaitHello && m.phase == WaitHello {
        AuthOrderly(env, m, r, start);
      } else {
        SameOrderly(env, m, r, start);
      }
    }
  }

  /** One frame more, sealed for the peer under the next nonce. */
  lemma FrameOrderly(env: Env, m: Machine, r: Machine, start: Counter, w: Write)
    requires Orderly(env, m, start) && Authenticated(m) && r.phase == m.phase
    requires SameKeys(m, r) && r.sessionServerPK == m.sessionServerPK
    requires w.Frame? && r.log == m.log + [w] && r.counter == Next(m.counter) && w.nonce == MakeNonce(m.prefix, m.counter)
    requires var box := Seal(env.cipher, m.sessionServerPK, m.sessionSK, w.nonce, w.plain);
      box.Some? && w.bytes == FrameBytes(box.value)
    ensures Orderly(env, r, start)
  {
    AdvanceNext(start, |m.log| - 1);
    assert InOrder(r.log);
    SealedStays(env, m, r, start);
    assert Sealed(env, r, start, |m.log|);
  }

  lemma SendOrderly(env: Env, m: Machine, p: Outgoing, start: Counter)
    requires Inv(m) && (m.phase == WaitHello || Authenticated(m)) && Orderly(env, m, start)
    requires !Early(m, Send(p))
    ensures var r := SendPacket(env, m, p).m;
      r.phase != Disconnected ==> r.phase == m.phase && Orderly(env, r, start) && SameKeys(m, r)
  {
    var r := SendPacket(env, m, p).m;
    SendKeeps(env, m, p);
    if r.phase != Disconnected && Print(p).Ok? {
      SendWrites(env, m, p);
      FrameOrderly(env, m, r, start, r.log[|m.log|]);
    }
  }

  lemma {:induction false} RunOrderly(env: Env, m: Machine, events: seq<Event>, start: Counter)
    requires Inv(m) && (m.phase == WaitHello || Authenticated(m)) && Orderly(env, m, start)
    requires !SomeEarly(env, m, events)
    ensures var r := Run(env, m, events);
      r.phase != Disconnected ==> (r.phase == WaitHello || Authenticated(r)) && Orderly(env, r, start) && SameKeys(m, r)
    decreases |events|
  {
    if events != [] {
      StepOrderly(env, m, events[0], start);
      var m1 := Apply(env, m, events[0]);
      if m1.phase != Disconnected {
        RunOrderly(env, m1, events[1..], start);
      }
    }
  }

  // ----- an early send spoils the connection -----

  /**
   * A frame went out before the authentication, or nonces were spent before it: up to
   * n of them.
   */
  ghost predicate Spoiled(m: Machine, start: Counter, n: nat)
  {
    && m.log != []
    && (|m.log| == 1 ==> m.phase == WaitHello && exists k :: 0 < k <= n && m.counter == Advance(start, k))
    && (|m.log| > 1 && !m.log[1].Frame? ==>
          m.log[1].Auth? && exists k :: 0 < k <= n && m.log[1].nonce == MakeNonce(m.prefix, Advance(start, k)))
  }

  lemma StepSpoiled(env: Env, m: Machine, e: Event, start: Counter, n: nat)
    requires Inv(m) && m.phase != WaitConnect && m.phase != Disconnected && (Spoiled(m, start, n) || (
               Early(m, e) && Orderly(env, m, start)))
    ensures var r := Apply(env, m, e); r.phase != Disconnected ==> Spoiled(r, start, n + 1)
  {
    var r := Apply(env, m, e);
    if r.phase != Disconnected {
      match e {
        case Writable =>
          FlushKeeps(m);
        case Send(packet) =>
          SendWrites(env, m, packet);
          SendKeeps(env, m, packet);
          if Orderly(env, m, start) {
            AdvanceNext(start, 0);
          } else if |m.log| == 1 {
            var k :| 0 < k <= n && m.counter == Advance(start, k);
            AdvanceNext(start, k);
          }
        case Incoming(bytes) =>
          ArriveWrites(env, m, bytes);
      }
    }
  }

  lemma {:induction false} RunSpoiled(env: Env, m: Machine, events: seq<Event>, start: Counter, n: nat)
    requires Inv(m) && m.phase != WaitConnect && m.phase != Disconnected && Spoiled(m, start, n)
    ensures var r := Run(env, m, events); r.phase != Disconnected ==> Spoiled(r, start, n + |events|)
    decreases |events|
  {
    if events != [] {
      StepSpoiled(env, m, events[0], start, n);
      var m1 := Apply(env, m, events[0]);
      if m1.phase != Disconnected {
        RunSpoiled(env, m1, events[1..], start, n + 1);
      }
    }
  }

  lemma {:induction false} EarlySpoils(env: Env, m: Machine, events: seq<Event>, start: Counter)
    requires Inv(m) && (m.phase == WaitHello || Authenticated(m)) && Orderly(env, m, start)
    requires SomeEarly(env, m, events)
    ensures var r := Run(env, m, events); r.phase != Disconnected ==> Spoiled(r, start, |events|)
    decreases |events|
  {
    var m1 := Apply(env, m, events[0]);
    if Early(m, events[0]) {
      StepSpoiled(env, m, events[0], start, 0);
      if m1.phase != Disconnected {
        RunSpoiled(env, m1, events[1..], start, 1);
      }
    } else {
      StepOrderly(env, m, events[0], start);
      if m1.phase != Disconnected {
        EarlySpoils(env, m1, events[1..], start);
        var r := Run(env, m, events);
        if r.phase != Disconnected {
          SpoiledMore(r, start, |events| - 1, |events|);
        }
      }
    }
  }

  lemma SpoiledMore(m: Machine, start: Counter, n: nat, k: nat)
    requires Spoiled(m, start, n) && n <= k
    ensures Spoiled(m, start, k)
  {
  }

  /** The log the peer expects: hello, authentication under the first nonce, then frames. */
  ghost predicate Expected(m: Machine, start: Counter)
  {
    InOrder(m.log) && |m.log| > 1 && m.log[1].nonce == MakeNonce(m.prefix, start)
  }

  lemma OtherNonce(prefix: Prefix, start: Counter, k: nat)
    requires 0 < k < MODULUS
    ensures MakeNonce(prefix, start) != MakeNonce(prefix, Advance(start, k))
  {
    AdvanceInjective(start, 0, k);
    NonceInjective(prefix, start, Advance(start, k));
  }

  lemma SpoiledIsUnexpected(r: Machine, start: Counter, n: nat)
    requires Spoiled(r, start, n) && n < MODULUS
    ensures !Expected(r, start)
  {
    if Expected(r, start) {
      var k :| 0 < k <= n && r.log[1].nonce == MakeNonce(r.prefix, Advance(start, k));
      OtherNonce(r.prefix, start, k);
      assert false;
    }
  }

  lemma ConnectedOrderly(env: Env, m: Machine)
    requires JustConnected(m)
    ensures Inv(m) && m.phase == WaitHello && Orderly(env, m, m.counter)
  {
  }

  /**
   * A run that gets through the handshake has written hello, then authentication under
   * the first nonce, then frames, if and only if nothing was sent early.
   */
  lemma ExpectedIffNotEarly(env: Env, m: Machine, events: seq<Event>)
    requires JustConnected(m) && |events| < MODULUS
    requires Authenticated(Run(env, m, events))
    ensures Expected(Run(env, m, events), m.counter) <==> !SomeEarly(env, m, events)
  {
    var r := Run(env, m, events);
    ConnectedOrderly(env, m);
    if SomeEarly(env, m, events) {
      EarlySpoils(env, m, events, m.counter);
      SpoiledIsUnexpected(r, m.counter, |events|);
    } else {
      RunOrderly(env, m, events, m.counter);
    }
  }

  // ----- what the peer gets out of it -----

  /** The payloads of the frames, in the order sent. */
  function Payloads(log: seq<Write>): seq<seq<Byte>>
    requires forall i :: 0 <= i < |log| ==> log[i].Frame?
  {
    seq(|log|, i requires 0 <= i < |log| => log[i].plain)
  }

  /** What the packets handed over for sending print as, in order; those that do not print are refused. */
  function Printed(events: seq<Event>): seq<seq<Byte>>
  {
    if events == [] then []
    else (if events[0].Send? && Print(events[0].packet).Ok? then [Print(events[0].packet).value] else []) + Printed(events[1..])
  }

  /** The payloads of the frames behind hello and authentication. */
  ghost function Plains(log: seq<Write>): seq<seq<Byte>>
    requires InOrder(log)
  {
    if |log| <= 2 then [] else Payloads(log[2..])
  }

  lemma PlainsSnoc(log: seq<Write>, w: Write)
    requires InOrder(log) && |log| >= 2 && w.Frame?
    ensures InOrder(log + [w]) && Plains(log + [w]) == Plains(log) + [w.plain]
  {
    assert (log + [w])[2..] == log[2..] + [w];
  }

  /** A step adds to the frames what it prints, and nothing else. */
  lemma StepSent(env: Env, m: Machine, e: Event, start: Counter)
    requires Inv(m) && (m.phase == WaitHello || Authenticated(m)) && Orderly(env, m, start) && !Early(m, e)
    requires Apply(env, m, e).phase != Disconnected && Orderly(env, Apply(env, m, e), start)
    ensures Plains(Apply(env, m, e).log)
         == Plains(m.log) + (if e.Send? && Print(e.packet).Ok? then [Print(e.packet).value] else [])
  {
    var r := Apply(env, m, e);
    match e {
      case Writable =>
        FlushKeeps(m);
      case Send(packet) =>
        SendWrites(env, m, packet);
        if Print(packet).Ok? {
          PlainsSnoc(m.log, r.log[|m.log|]);
        }
      case Incoming(bytes) =>
        ArriveWrites(env, m, bytes);
        assert Plains(r.log) == Plains(m.log);
    }
  }

  lemma {:induction false} RunSent(env: Env, m: Machine, events: seq<Event>, start: Counter)
    requires Inv(m) && (m.phase == WaitHello || Authenticated(m)) && Orderly(env, m, start)
    requires !SomeEarly(env, m, events) && Run(env, m, events).phase != Disconnected
    ensures InOrder(Run(env, m, events).log) && Plains(Run(env, m, events).log) == Plains(m.log) + Printed(events)
    decreases |events|
  {
    if events == [] {
      assert Plains(m.log) + [] == Plains(m.log);
    } else {
      var m1 := Apply(env, m, events[0]);
      StepOrderly(env, m, events[0], start);
      StepSent(env, m, events[0], start);
      RunSent(env, m1, events[1..], start);
      Assoc(Plains(m.log), if events[0].Send? && Print(events[0].packet).Ok? then [Print(events[0].packet).value] else [],
            Printed(events[1..]));
    }
  }

  ghost predicate Recovered(found: seq<Option<seq<Byte>>>, plains: seq<seq<Byte>>)
  {
    |found| == |plains| && forall i :: 0 <= i < |plains| ==> found[i] == Some(plains[i])
  }

  /** The peer opens the i-th box it unframes under the i-th counter value it expects. */
  function PeerOpens(env: Env, m: Machine, sk: Key, boxes: seq<seq<Byte>>, start: Counter): seq<Option<seq<Byte>>>
  {
    seq(|boxes|, i requires 0 <= i < |boxes| =>
      Open(env.cipher, m.sessionPK, sk, MakeNonce(m.prefix, Advance(start, i + 1)), boxes[i]))
  }

  lemma SealedBoxes(env: Env, m: Machine, start: Counter)
    requires Orderly(env, m, start) && |m.log| >= 2
    ensures forall i :: 0 <= i < |m.log| - 2 ==>
      BoxFor(env, m, start, i).Some? && m.log[i + 2].bytes == FrameBytes(BoxFor(env, m, start, i).value)
  {
    forall i | 0 <= i < |m.log| - 2
      ensures BoxFor(env, m, start, i).Some? && m.log[i + 2].bytes == FrameBytes(BoxFor(env, m, start, i).value)
    {
      assert Sealed(env, m, start, i + 2);
    }
  }

  /** The boxes inside the frames of an orderly log. */
  ghost function SentBoxes(env: Env, m: Machine, start: Counter): (boxes: seq<seq<Byte>>)
    requires Orderly(env, m, start) && |m.log| >= 2
    ensures |boxes| == |m.log| - 2
    ensures forall i :: 0 <= i < |boxes| ==> m.log[i + 2].bytes == FrameBytes(boxes[i])
    ensures forall i :: 0 <= i < |boxes| ==> BoxFor(env, m, start, i) == Some(boxes[i])
  {
    SealedBoxes(env, m, start);
    seq(|m.log| - 2, i requires 0 <= i < |m.log| - 2 => BoxFor(env, m, start, i).value)
  }

  ghost function BoxFor(env: Env, m: Machine, start: Counter, i: nat): Option<seq<Byte>>
    requires i + 2 < |m.log| && m.log[i + 2].Frame?
  {
    Seal(env.cipher, m.sessionServerPK, m.sessionSK, MakeNonce(m.prefix, Advance(start, i + 1)), m.log[i + 2].plain)
  }

  lemma {:induction false} LogBytesFrames(log: seq<Write>, boxes: seq<seq<Byte>>)
    requires |log| == |boxes| + 2
    requires forall i :: 0 <= i < |boxes| ==> log[i + 2].bytes == FrameBytes(boxes[i])
    ensures LogBytes(log) == log[0].bytes + log[1].bytes + FramesOf(boxes)
    decreases |boxes|
  {
    if boxes == [] {
      assert log[..1][..0] == [] && log[..|log| - 1] == log[..1];
      assert LogBytes(log[..1]) == log[0].bytes;
    } else {
      var k := |boxes| - 1;
      var last: seq<seq<Byte>> := [boxes[k]];
      LogBytesFrames(log[..|log| - 1], boxes[..k]);
      FramesOfConcat(boxes[..k], last);
      assert boxes == boxes[..k] + last && last[1..] == [];
      assert FramesOf(last) == FrameBytes(boxes[k]);
    }
  }

  /**
   * Write conservation, end to end: in every run without early sends, whatever the
   * socket answered, the bytes it accepted followed by the write buffer are hello,
   * authentication and frames; and the peer, unframing and opening these, recovers what
   * the packets handed over for sending print as, all of them, in order, if and only if
   * each fits the length field.
   */
  lemma PeerRecovers(env: Env, m: Machine, events: seq<Event>, peerSK: Key)
    requires JustConnected(m) && m.sessionPK == env.cipher.publicOf(m.sessionSK)
    requires !SomeEarly(env, m, events)
    requires Authenticated(Run(env, m, events))
    requires Run(env, m, events).sessionServerPK == env.cipher.publicOf(peerSK)
    ensures var r := Run(env, m, events);
      && Expected(r, m.counter)
      && var sent := Printed(events);
         exists frames: seq<Byte> ::
         && r.socket.value.wire + r.wbuf == r.log[0].bytes + r.log[1].bytes + frames
         && (Recovered(PeerOpens(env, r, peerSK, Unframe(frames).0, m.counter), sent)
             <==> forall i :: 0 <= i < |sent| ==> |sent[i]| + MAC_BYTES < 0x1_0000)
  {
    var r := Run(env, m, events);
    ConnectedOrderly(env, m);
    RunOrderly(env, m, events, m.counter);
    RunSent(env, m, events, m.counter);
    assert Plains(m.log) == [] && [] + Printed(events) == Printed(events);
    var boxes := SentBoxes(env, r, m.counter);
    OutputIsFrames(r, boxes);
    PeerOpensFrames(env, r, peerSK, boxes, m.counter);
  }

  lemma OutputIsFrames(r: Machine, boxes: seq<seq<Byte>>)
    requires Conserved(r) && r.phase != Disconnected && |r.log| == |boxes| + 2
    requires forall i :: 0 <= i < |boxes| ==> r.log[i + 2].bytes == FrameBytes(boxes[i])
    ensures r.socket.value.wire + r.wbuf == r.log[0].bytes + r.log[1].bytes + FramesOf(boxes)
  {
    LogBytesFrames(r.log, boxes);
  }

  lemma PeerOpensFrames(env: Env, r: Machine, peerSK: Key, boxes: seq<seq<Byte>>, start: Counter)
    requires Orderly(env, r, start) && |r.log| >= 2 && boxes == SentBoxes(env, r, start)
    requires r.sessionPK == env.cipher.publicOf(r.sessionSK) && r.sessionServerPK == env.cipher.publicOf(peerSK)
    ensures var sent := Payloads(r.log[2..]);
      Recovered(PeerOpens(env, r, peerSK, Unframe(FramesOf(boxes)).0, start), sent)
      <==> forall i :: 0 <= i < |sent| ==> |sent[i]| + MAC_BYTES < 0x1_0000
  {
    var sent := Payloads(r.log[2..]);
    forall i | 0 <= i < |boxes|
      ensures |boxes[i]| == |sent[i]| + MAC_BYTES
      ensures Open(env.cipher, r.sessionPK, peerSK, MakeNonce(r.prefix, Advance(start, i + 1)), boxes[i]) == Some(sent[i])
    {
      OpenSeal(env.cipher, r.sessionSK, peerSK, MakeNonce(r.prefix, Advance(start, i + 1)), sent[i]);
      assert BoxFor(env, r, start, i) == Some(boxes[i]);
    }
    UnframeRecovers(boxes);
    var got := Unframe(FramesOf(boxes)).0;
    var peer := PeerOpens(env, r, peerSK, got, start);
    if Recovered(peer, sent) {
      forall i | 0 <= i < |boxes|
        ensures |got[i]| == |boxes[i]|
      {
        assert peer[i] == Some(sent[i]);
      }
      assert SameLengths(got, boxes);
      assert AllFit(boxes);
    }
  }
}
