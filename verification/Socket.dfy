/** A non-blocking stream socket whose operating system may refuse or cut short any write. */
module Socket {
  import opened Bytes

  /** One answer of the system's send: some bytes accepted, or an error. */
  datatype Answer = Sent(n: nat) | WouldBlock | Fault

  /** The answers still to come (none left: would block) and the bytes accepted so far. */
  datatype Stream = Stream(script: seq<Answer>, wire: seq<Byte>)

  datatype SendResult = Delivered | Blocked | Broken

  /** The system accepts at least one byte and no more than it was offered. */
  function Accepted(n: nat, offered: nat): (k: nat)
    requires offered > 0
    ensures 1 <= k <= offered
  {
    if n < 1 then 1 else if n > offered then offered else n
  }

  /** Sending msg when its first total bytes have been accepted already. */
  function Transmit(s: Stream, msg: seq<Byte>, total: nat): (SendResult, Stream)
    requires total <= |msg|
    decreases |msg| - total
  {
    if total == |msg| then (Delivered, s)
    else
      var answer := if s.script == [] then WouldBlock else s.script[0];
      var rest := if s.script == [] then [] else s.script[1..];
      match answer
      case Sent(n) =>
        var k := Accepted(n, |msg| - total);
        Transmit(Stream(rest, s.wire + msg[total..total + k]), msg, total + k)
      case WouldBlock => (if total == 0 then Blocked else Broken, Stream(rest, s.wire))
      case Fault => (Broken, Stream(rest, s.wire))
  }

  /**
   * All or nothing, unless the stream breaks: a delivered message is on the wire whole,
   * a blocked one left no byte there, a broken one left a proper prefix.
   */
  lemma {:induction false} TransmitEffect(s: Stream, msg: seq<Byte>, total: nat)
    requires total <= |msg|
    ensures var (r, s') := Transmit(s, msg, total);
            && (r == Delivered ==> s'.wire == s.wire + msg[total..])
            && (r == Blocked ==> total == 0 < |msg| && s'.wire == s.wire)
            && (r == Broken ==> exists k :: total <= k < |msg| && s'.wire == s.wire + msg[total..k])
    decreases |msg| - total
  {
    var (r, s') := Transmit(s, msg, total);
    if total < |msg| {
      if s.script != [] && s.script[0].Sent? {
        var k := total + Accepted(s.script[0].n, |msg| - total);
        var s1 := Stream(s.script[1..], s.wire + msg[total..k]);
        TransmitEffect(s1, msg, k);
        if r == Delivered {
          assert msg[total..k] + msg[k..] == msg[total..];
        } else if r == Broken {
          var j :| k <= j < |msg| && s'.wire == s1.wire + msg[k..j];
          assert msg[total..k] + msg[k..j] == msg[total..j];
        }
      } else {
        assert msg[total..total] == [];
      }
    }
  }

  /** How many bytes the system takes, if it is offered enough, before it first refuses. */
  function Room(script: seq<Answer>): nat
  {
    if script == [] || !script[0].Sent? then 0
    else (if script[0].n < 1 then 1 else script[0].n) + Room(script[1..])
  }

  /** That first refusal. */
  function Ending(script: seq<Answer>): Answer
  {
    if script == [] then WouldBlock else if script[0].Sent? then Ending(script[1..]) else script[0]
  }

  /**
   * The answers on which a message of this length breaks, some of its bytes accepted
   * already: any refusal before its last byte if there is a byte before it, and an error
   * in any case. Would-block in the middle of a message is an error like any other.
   */
  predicate BreaksOn(script: seq<Answer>, length: nat, total: nat)
  {
    total + Room(script) < length && (total + Room(script) > 0 || Ending(script) == Fault)
  }

  /** Which answers lead to which end. */
  lemma {:induction false} TransmitEnds(s: Stream, msg: seq<Byte>, total: nat)
    requires total <= |msg|
    ensures var r := Transmit(s, msg, total).0;
            && (r == Delivered <==> total + Room(s.script) >= |msg|)
            && (r == Broken <==> BreaksOn(s.script, |msg|, total))
    decreases |msg| - total
  {
    if total < |msg| && s.script != [] && s.script[0].Sent? {
      var k := total + Accepted(s.script[0].n, |msg| - total);
      TransmitEnds(Stream(s.script[1..], s.wire + msg[total..k]), msg, k);
    }
  }

  /** No error is needed: a socket that takes one byte and is full then breaks on every longer message. */
  lemma FullAfterOne(length: nat)
    ensures BreaksOn([Sent(1), WouldBlock], length, 0) <==> length > 1
  {
    var two, one: seq<Answer> := [Sent(1), WouldBlock], [WouldBlock];
    assert two[1..] == one;
    assert Room(one) == 0 && Ending(one) == WouldBlock;
  }

  // ----- receiving -----

  type Chunk = s: seq<Byte> | |s| > 0 witness [0]

  /** What reads will find: bytes, nothing yet, the end of the stream, or an error. */
  datatype Arrival = Data(bytes: Chunk) | Pause | Eof | ReadFault

  const BUFFER_SIZE := 4096

  /** All bytes up to the first arrival that is not data, what ended them, and what is left. */
  function Gather(inbox: seq<Arrival>): (seq<Byte>, Arrival, seq<Arrival>)
  {
    if inbox == [] then ([], Pause, [])
    else if inbox[0].Data? then
      var (bytes, ending, rest) := Gather(inbox[1..]);
      (inbox[0].bytes + bytes, ending, rest)
    else ([], inbox[0], inbox[1..])
  }

  /** Arrivals that are all data, with these bytes. */
  function Arrivals(chunks: seq<Chunk>): seq<Arrival>
  {
    seq(|chunks|, i requires 0 <= i < |chunks| => Data(chunks[i]))
  }

  /** Reading gathers the bytes before the first arrival that is none, in order, and stops behind it. */
  lemma {:induction false} GatherIs(chunks: seq<Chunk>, ending: Arrival, rest: seq<Arrival>)
    requires !ending.Data?
    ensures Gather(Arrivals(chunks) + [ending] + rest) == (Flatten(chunks), ending, rest)
    ensures Gather(Arrivals(chunks)) == (Flatten(chunks), Pause, [])
  {
    var all := Arrivals(chunks) + [ending] + rest;
    if chunks == [] {
      assert all == [ending] + rest && all[1..] == rest;
    } else {
      GatherIs(chunks[1..], ending, rest);
      assert Arrivals(chunks)[1..] == Arrivals(chunks[1..]);
      assert all[1..] == Arrivals(chunks[1..]) + [ending] + rest;
    }
  }

  /** How many bytes reads have still to deliver. */
  ghost function Pending(inbox: seq<Arrival>): nat
  {
    if inbox == [] then 0
    else (if inbox[0].Data? then |inbox[0].bytes| else 0) + Pending(inbox[1..])
  }

  class TcpSocket {
    var script: seq<Answer>
    var inbox: seq<Arrival>
    var wire: seq<Byte>

    constructor (answers: seq<Answer>, arrivals: seq<Arrival>)
      ensures script == answers && inbox == arrivals && wire == []
    {
      script, inbox, wire := answers, arrivals, [];
    }

    /** At most a buffer full; the rest of a larger arrival stays in the socket. */
    method Receive() returns (got: Arrival)
      modifies this`inbox
      ensures got.Data? ==>
        var (bytes, ending, rest) := Gather(inbox);
        |got.bytes| <= BUFFER_SIZE && Gather(old(inbox)) == (got.bytes + bytes, ending, rest)
      ensures !got.Data? ==> Gather(old(inbox)) == ([], got, inbox)
      ensures got.Data? ==> Pending(inbox) < Pending(old(inbox))
    {
      if inbox == [] {
        return Pause;
      }
      got := inbox[0];
      if got.Data? && |got.bytes| > BUFFER_SIZE {
        var head, tail := got.bytes[..BUFFER_SIZE], got.bytes[BUFFER_SIZE..];
        assert got.bytes == head + tail;
        inbox := [Data(tail)] + inbox[1..];
        assert inbox[1..] == old(inbox)[1..];
        assert head + (tail + Gather(inbox[1..]).0) == got.bytes + Gather(inbox[1..]).0;
        got := Data(head);
      } else {
        inbox := inbox[1..];
      }
    }

    ghost function Model(): Stream
      reads this
    {
      Stream(script, wire)
    }

    method SystemSend(msg: seq<Byte>) returns (answer: Answer, k: nat)
      requires msg != []
      modifies this`script, this`wire
      ensures answer == if old(script) == [] then WouldBlock else old(script)[0]
      ensures script == if old(script) == [] then [] else old(script)[1..]
      ensures k == (if answer.Sent? then Accepted(answer.n, |msg|) else 0) <= |msg|
      ensures if answer.Sent? then wire == old(wire) + msg[..k] else wire == old(wire)
    {
      answer, k := WouldBlock, 0;
      if script != [] {
        answer, script := script[0], script[1..];
      }
      if answer.Sent? {
        k := Accepted(answer.n, |msg|);
        wire := wire + msg[..k];
      }
    }

    method Send(msg: seq<Byte>) returns (r: SendResult)
      modifies this`script, this`wire
      ensures (r, Model()) == Transmit(old(Model()), msg, 0)
    {
      var total := 0;
      while total < |msg|
        invariant 0 <= total <= |msg|
        invariant Transmit(Model(), msg, total) == Transmit(old(Model()), msg, 0)
        decreases |msg| - total
      {
        var answer, n := SystemSend(msg[total..]);
        assert msg[total..][..n] == msg[total..total + n];
        if !answer.Sent? {
          if total == 0 && answer == WouldBlock {
            return Blocked;
          }
          return Broken;
        }
        total := total + n;
      }
      return Delivered;
    }
  }
}
