/**
 * Whole runs of one connection: bytes arriving, packets sent, the socket becoming
 * writable, in any order and with any answers of the socket.
 */
module Runs {
  import opened Bytes
  import opened Bits
  import opened Wrappers
  import opened Box
  import opened Packets
  import opened Socket
  import opened Transport
  import opened Chunking

  datatype Event = Incoming(bytes: seq<Byte>) | Send(packet: Outgoing) | Writable

  ghost function Apply(env: Env, m: Machine, e: Event): (r: Machine)
    requires Inv(m) && m.phase != WaitConnect
    ensures Inv(r) && r.phase != WaitConnect
    ensures m.phase == Disconnected ==> r.phase == Disconnected
  {
    match e
    case Incoming(bytes) => ArriveKeeps(env, m, bytes); Arrive(env, m, bytes)
    case Send(packet) => SendKeeps(env, m, packet); SendPacket(env, m, packet).m
    case Writable => WritableKeeps(m); Flush(m).m
  }

  ghost function Run(env: Env, m: Machine, events: seq<Event>): (r: Machine)
    requires Inv(m) && m.phase != WaitConnect
    ensures Inv(r) && r.phase != WaitConnect
    ensures m.phase == Disconnected ==> r.phase == Disconnected
    decreases |events|
  {
    if events == [] then m else Run(env, Apply(env, m, events[0]), events[1..])
  }

  lemma WritableKeeps(m: Machine)
    requires Inv(m) && m.phase != WaitConnect
    ensures Inv(Flush(m).m) && Flush(m).m.phase != WaitConnect
    ensures m.phase == Disconnected ==> Flush(m).m.phase == Disconnected
  {
    if m.phase != Disconnected {
      FlushKeeps(m);
    }
  }

  /** Sending writes one frame, or throws and writes none; it never touches the reading side. */
  lemma SendKeeps(env: Env, m: Machine, p: Outgoing)
    requires Inv(m) && m.phase != WaitConnect
    ensures var r := SendPacket(env, m, p);
      && Inv(r.m) && r.m.phase != WaitConnect
      && (m.phase == Disconnected ==> r.m.phase == Disconnected && r.m.log == m.log)
      && (m.phase != Disconnected && r.m.phase != Disconnected ==>
            r.m == m.(counter := r.m.counter, socket := r.m.socket, wbuf := r.m.wbuf, log := r.m.log))
  {
    if m.phase != Disconnected && Print(p).Ok? {
      var plain := Print(p).value;
      var nonce := MakeNonce(m.prefix, m.counter);
      var box := Seal(env.cipher, m.sessionServerPK, m.sessionSK, nonce, plain);
      if box.Some? {
        AppendKeeps(m.(counter := Next(m.counter)), Frame(nonce, plain, FrameBytes(box.value)));
      }
    }
  }

  // ----- what a step does to the writing side -----

  /** Reading after the handshake leaves everything about writing alone. */
  ghost predicate SameWrites(a: Machine, b: Machine)
  {
    && a.log == b.log && a.counter == b.counter && a.prefix == b.prefix
    && a.sessionPK == b.sessionPK && a.sessionSK == b.sessionSK && a.sessionServerPK == b.sessionServerPK
  }

  predicate Authenticated(m: Machine)
  {
    m.phase == WaitAuth || m.phase == WaitHeader || m.phase == WaitPacket
  }

  lemma StepReads(env: Env, m: Machine)
    requires Inv(m) && CanStep(m) && Authenticated(m)
    ensures SameWrites(m, PacketReady(env, m).m)
    ensures PacketReady(env, m).Done? ==> Authenticated(PacketReady(env, m).m)
  {
  }

  lemma {:induction false} DrainReads(env: Env, m: Machine)
    requires Inv(m) && Authenticated(m)
    ensures SameWrites(m, Drain(env, m).m)
    ensures Drain(env, m).Done? ==> Authenticated(Drain(env, m).m)
    decreases |m.rbuf|
  {
    if CanStep(m) {
      StepKeeps(env, m);
      StepReads(env, m);
      var r := PacketReady(env, m);
      if r.Done? {
        DrainReads(env, r.m);
      }
    }
  }

  /** Answering the server's hello draws one nonce, for the one authentication written. */
  ghost predicate WroteAuth(env: Env, m: Machine, r: Machine)
  {
    && |r.log| == |m.log| + 1 && r.log[..|m.log|] == m.log
    && r.log[|m.log|].Auth? && r.log[|m.log|].nonce == MakeNonce(m.prefix, m.counter)
    && r.counter == Next(m.counter)
    && r.prefix == m.prefix && r.sessionSK == m.sessionSK && r.sessionPK == m.sessionPK
    && env.cipher.shared(r.sessionServerPK, r.sessionSK).Some?
  }

  lemma StepHello(env: Env, m: Machine)
    requires Inv(m) && CanStep(m) && m.phase == WaitHello
    ensures var r := PacketReady(env, m);
      if r.Done? then r.m.phase == WaitAuth && WroteAuth(env, m, r.m)
      else r.m.log == m.log || (|r.m.log| == |m.log| + 1 && r.m.log[..|m.log|] == m.log
                                && r.m.log[|m.log|].Auth? && r.m.log[|m.log|].nonce == MakeNonce(m.prefix, m.counter))
  {
    var h := ReadHello(env, m);
    if h.Done? {
      var a := h.m;
      var inner := Seal(env.cipher, a.serverPK, env.sk, a.authNonce, a.sessionPK);
      if inner.Some? {
        var nonce := MakeNonce(a.prefix, a.counter);
        var box := Seal(env.cipher, a.sessionServerPK, a.sessionSK, nonce, AuthPlain(env, a, inner.value));
        if box.Some? {
          AppendKeeps(a.(counter := Next(a.counter)), Auth(nonce, box.value));
        }
      }
    }
  }

  ghost predicate ArriveEffect(env: Env, m: Machine, r: Machine)
  {
    if r.phase == Disconnected then
      r.log == m.log || (m.phase == WaitHello && |r.log| == |m.log| + 1 && r.log[..|m.log|] == m.log
                         && r.log[|m.log|].Auth? && r.log[|m.log|].nonce == MakeNonce(m.prefix, m.counter))
    else if r.phase == WaitHello then m.phase == WaitHello && SameWrites(m, r)
    else Authenticated(r) && (if m.phase == WaitHello then WroteAuth(env, m, r) else SameWrites(m, r))
  }

  /** Arriving bytes either leave the writing side alone or add the one authentication. */
  lemma ArriveWrites(env: Env, m: Machine, x: seq<Byte>)
    requires Inv(m) && m.phase != WaitConnect && m.phase != Disconnected
    ensures ArriveEffect(env, m, Arrive(env, m, x))
  {
    var m0 := More(m, x);
    if m.phase == WaitHello {
      if CanStep(m0) {
        StepKeeps(env, m0);
        StepHello(env, m0);
        var r := PacketReady(env, m0);
        if r.Done? {
          DrainReads(env, r.m);
        }
      }
    } else {
      DrainReads(env, m0);
    }
  }

  /** A send that gets as far as sealing writes one frame under the next nonce. */
  lemma SendWrites(env: Env, m: Machine, p: Outgoing)
    requires Inv(m) && m.phase != WaitConnect && m.phase != Disconnected
    ensures var r := SendPacket(env, m, p).m;
      if Print(p).Ok? && env.cipher.shared(m.sessionServerPK, m.sessionSK).Some? then
        var nonce := MakeNonce(m.prefix, m.counter);
        var box := Seal(env.cipher, m.sessionServerPK, m.sessionSK, nonce, Print(p).value).value;
        r.log == m.log + [Frame(nonce, Print(p).value, FrameBytes(box))] && r.counter == Next(m.counter)
      else r.log == m.log && r.phase == m.phase && (r.counter == m.counter || r.counter == Next(m.counter))
  {
    if Print(p).Ok? && env.cipher.shared(m.sessionServerPK, m.sessionSK).Some? {
      var nonce := MakeNonce(m.prefix, m.counter);
      var box := Seal(env.cipher, m.sessionServerPK, m.sessionSK, nonce, Print(p).value).value;
      AppendKeeps(m.(counter := Next(m.counter)), Frame(nonce, Print(p).value, FrameBytes(box)));
    }
  }

  // ----- nonces -----

  lemma NonceInjective(prefix: Prefix, a: Counter, b: Counter)
    ensures MakeNonce(prefix, a) == MakeNonce(prefix, b) <==> a == b
  {
    if MakeNonce(prefix, a) == MakeNonce(prefix, b) {
      assert MakeNonce(prefix, a)[PREFIX_BYTES..] == Le(a, 8);
      assert MakeNonce(prefix, b)[PREFIX_BYTES..] == Le(b, 8);
      PowersOf256();
      LeInjective(a, b, 8);
    }
  }

  lemma AdvanceInjective(start: Counter, i: nat, j: nat)
    requires i < j < i + MODULUS
    ensures Advance(start, i) != Advance(start, j)
  {
  }

  /** Two draws of one connection give the same nonce exactly when 2^64 draws, or a multiple, lie between. */
  lemma NoncesRepeat(prefix: Prefix, start: Counter, i: nat, j: nat)
    requires i < j
    ensures MakeNonce(prefix, Advance(start, i)) == MakeNonce(prefix, Advance(start, j)) <==> (j - i) % MODULUS == 0
  {
    NonceInjective(prefix, Advance(start, i), Advance(start, j));
    var q, r := (j - i) / MODULUS, (j - i) % MODULUS;
    assert start + j == (start + i + r) + q * MODULUS;
    ModMultiple(start + i + r, q);
    if r != 0 {
      AdvanceInjective(start, i, i + r);
    }
  }

  lemma ModMultiple(x: nat, q: nat)
    ensures (x + q * MODULUS) % MODULUS == x % MODULUS
  {
    Quotient(x + q * MODULUS, MODULUS, x / MODULUS + q, x % MODULUS);
  }

  /** The nonces in the log were drawn in order, from the first n values of the counter. */
  ghost predicate NoncesBelow(prefix: Prefix, start: Counter, log: seq<Write>, n: nat)
  {
    if log == [] then true
    else
      var init, last := log[..|log| - 1], log[|log| - 1];
      if last.Hello? then NoncesBelow(prefix, start, init, n)
      else exists d: nat :: d < n && last.nonce == MakeNonce(prefix, Advance(start, d)) && NoncesBelow(prefix, start, init, d)
  }

  lemma {:induction false} NoncesBelowMore(prefix: Prefix, start: Counter, log: seq<Write>, n: nat, k: nat)
    requires NoncesBelow(prefix, start, log, n) && n <= k
    ensures NoncesBelow(prefix, start, log, k)
    decreases |log|
  {
    if log != [] && log[|log| - 1].Hello? {
      NoncesBelowMore(prefix, start, log[..|log| - 1], n, k);
    }
  }

  ghost predicate Distinct(log: seq<Write>)
  {
    forall i, j :: 0 <= i < j < |log| && !log[i].Hello? && !log[j].Hello? ==> log[i].nonce != log[j].nonce
  }

  /** Every nonce in such a log is one of the first n drawn. */
  lemma {:induction false} NonceDrawn(prefix: Prefix, start: Counter, log: seq<Write>, n: nat, i: nat) returns (d: nat)
    requires NoncesBelow(prefix, start, log, n) && i < |log| && !log[i].Hello?
    ensures d < n && log[i].nonce == MakeNonce(prefix, Advance(start, d))
    decreases |log|
  {
    var init, last := log[..|log| - 1], log[|log| - 1];
    if last.Hello? {
      d := NonceDrawn(prefix, start, init, n, i);
    } else {
      d :| d < n && last.nonce == MakeNonce(prefix, Advance(start, d)) && NoncesBelow(prefix, start, init, d);
      if i < |init| {
        d := NonceDrawn(prefix, start, init, d, i);
      }
    }
  }

  /** The next nonce is none of those drawn before. */
  lemma NonceUnused(prefix: Prefix, start: Counter, log: seq<Write>, n: nat, i: nat)
    requires NoncesBelow(prefix, start, log, n) && n < MODULUS && i < |log| && !log[i].Hello?
    ensures log[i].nonce != MakeNonce(prefix, Advance(start, n))
  {
    var e := NonceDrawn(prefix, start, log, n, i);
    AdvanceInjective(start, e, n);
    NonceInjective(prefix, Advance(start, e), Advance(start, n));
  }

  lemma DistinctSnoc(log: seq<Write>, w: Write)
    requires Distinct(log)
    requires !w.Hello? ==> forall i :: 0 <= i < |log| && !log[i].Hello? ==> log[i].nonce != w.nonce
    ensures Distinct(log + [w])
  {
  }

  lemma {:induction false} NoncesDistinct(prefix: Prefix, start: Counter, log: seq<Write>, n: nat)
    requires NoncesBelow(prefix, start, log, n) && n <= MODULUS
    ensures Distinct(log)
    decreases |log|
  {
    if log != [] {
      var init, last := log[..|log| - 1], log[|log| - 1];
      if last.Hello? {
        NoncesDistinct(prefix, start, init, n);
        DistinctSnoc(init, last);
        assert log == init + [last];
      } else {
        var d: nat :| d < n && last.nonce == MakeNonce(prefix, Advance(start, d)) && NoncesBelow(prefix, start, init, d);
        NoncesDistinct(prefix, start, init, d);
        forall i | 0 <= i < |init| && !init[i].Hello?
          ensures init[i].nonce != last.nonce
        {
          NonceUnused(prefix, start, init, d, i);
        }
        DistinctSnoc(init, last);
        assert log == init + [last];
      }
    }
  }

  /** At most n values have been drawn; while connected, exactly n. */
  ghost predicate Drawn(m: Machine, prefix: Prefix, start: Counter, n: nat)
  {
    && NoncesBelow(prefix, start, m.log, n)
    && (m.phase != Disconnected ==> m.prefix == prefix && m.counter == Advance(start, n))
  }

  lemma DrawOne(prefix: Prefix, start: Counter, log: seq<Write>, n: nat, log': seq<Write>)
    requires NoncesBelow(prefix, start, log, n)
    requires |log'| == |log| + 1 && log'[..|log|] == log
    requires !log'[|log|].Hello? && log'[|log|].nonce == MakeNonce(prefix, Advance(start, n))
    ensures NoncesBelow(prefix, start, log', n + 1)
  {
    assert log'[..|log'| - 1] == log;
  }

  lemma StepDraws(env: Env, m: Machine, e: Event, prefix: Prefix, start: Counter, n: nat) returns (k: nat)
    requires Inv(m) && m.phase != WaitConnect && Drawn(m, prefix, start, n)
    ensures k <= n + 1 && Drawn(Apply(env, m, e), prefix, start, k)
  {
    var r := Apply(env, m, e);
    k := n;
    AdvanceNext(start, n);
    if m.phase == Disconnected {
      if e.Send? {
        SendKeeps(env, m, e.packet);
      }
    } else {
      match e {
        case Writable =>
          FlushKeeps(m);
        case Send(packet) =>
          SendWrites(env, m, packet);
          SendKeeps(env, m, packet);
          if |r.log| == |m.log| + 1 {
            DrawOne(prefix, start, m.log, n, r.log);
            k := n + 1;
          } else if r.counter == Next(m.counter) {
            NoncesBelowMore(prefix, start, m.log, n, n + 1);
            k := n + 1;
          }
        case Incoming(bytes) =>
          ArriveWrites(env, m, bytes);
          if |r.log| == |m.log| + 1 {
            DrawOne(prefix, start, m.log, n, r.log);
            k := n + 1;
          }
      }
    }
  }

  lemma AdvanceNext(start: Counter, n: nat)
    ensures Next(Advance(start, n)) == Advance(start, n + 1)
  {
  }

  lemma {:induction false} RunDraws(env: Env, m: Machine, events: seq<Event>, prefix: Prefix, start: Counter, n: nat) returns (k: nat)
    requires Inv(m) && m.phase != WaitConnect && Drawn(m, prefix, start, n)
    ensures k <= n + |events| && Drawn(Run(env, m, events), prefix, start, k)
    decreases |events|
  {
    if events == [] {
      k := n;
    } else {
      var j := StepDraws(env, m, events[0], prefix, start, n);
      k := RunDraws(env, Apply(env, m, events[0]), events[1..], prefix, start, j);
    }
  }

  /** A machine that has just connected, whatever it was before. */
  ghost predicate JustConnected(m: Machine)
  {
    && Inv(m) && m.phase == WaitHello && m.rbuf == []
    && m.log == [Hello(m.sessionPK + m.prefix)]
  }

  /** No two messages of one connection are sealed under the same nonce. */
  lemma NoncesFresh(env: Env, m: Machine, events: seq<Event>)
    requires JustConnected(m) && |events| <= MODULUS
    ensures Distinct(Run(env, m, events).log)
  {
    assert m.log[..|m.log| - 1] == [];
    assert m.counter == Advance(m.counter, 0);
    var k := RunDraws(env, m, events, m.prefix, m.counter, 0);
    NoncesDistinct(m.prefix, m.counter, Run(env, m, events).log, k);
  }
}
