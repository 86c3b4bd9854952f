/**
 * Messages to and from contacts whose key is not known yet: one fetch per contact, a
 * queue that waits for it, and a promise per queued message.
 */
module Queueing {
  import opened Bytes
  import opened Wrappers
  import opened Accounts
  import opened Packets

  /** A message is told apart from all others by its serial. */
  datatype Msg = Msg(serial: nat, incoming: bool, sender: Id, recipient: Id)

  function Peer(m: Msg): Id
  {
    if m.incoming then m.sender else m.recipient
  }

  /**
   * Handled: given to recv or send, and its promise, if any, has a value. Failed: its
   * promise has an exception. Dropped: recv threw on it outside any queue; it was neither
   * handled to the end nor has it a promise.
   */
  datatype Fate = Handled | Failed | Dropped

  datatype Settlement = Settlement(msg: Msg, fate: Fate)

  /**
   * contacts maps an id to whether a key was found for it; outstanding counts the fetches
   * in flight; submitted and settled are histories. stuck says of a queue that a throwing
   * handler has left behind how many of its messages were handled before.
   */
  datatype State = State(contacts: map<Id, bool>, queue: map<Id, seq<Msg>>, outstanding: multiset<Id>,
                         submitted: seq<Msg>, settled: seq<Settlement>, stuck: map<Id, nat>)

  /**
   * throws: what recv or send does if it is called at once. throwing: the place in the
   * queue of the message whose handler throws, if one does.
   */
  datatype Event =
    | Receive(m: Msg, throws: bool)
    | Send(m: Msg, throws: bool)
    | Fetched(id: Id, found: bool, throwing: Option<nat>)
    | Learn(id: Id, found: bool)

  // ----- the program's steps -----

  /** unordered_map::emplace: an entry that exists stays. */
  function Emplace(contacts: map<Id, bool>, id: Id, found: bool): map<Id, bool>
  {
    if id in contacts then contacts else contacts[id := found]
  }

  function Settlements(ms: seq<Msg>, fate: Fate): (r: seq<Settlement>)
    ensures |r| == |ms|
  {
    seq(|ms|, i requires 0 <= i < |ms| => Settlement(ms[i], fate))
  }

  function Queue(q: State, id: Id): seq<Msg>
  {
    if id in q.queue then q.queue[id] else []
  }

  /** How many of n messages are handled when the fetch has ended. */
  function HandledOf(n: nat, found: bool, throwing: Option<nat>): (k: nat)
    ensures k <= n
  {
    if !found then 0 else if throwing.Some? && throwing.value < n then throwing.value else n
  }

  /**
   * The callback that waits for a fetch: handle the whole queue or fail it, then forget
   * it. If a handler throws, failing the queue starts with the first message; once that
   * has been handled its promise throws too, and the queue stays as it is.
   */
  function Flush(q: State, id: Id, found: bool, throwing: Option<nat>): State
  {
    var ms := Queue(q, id);
    var k := HandledOf(|ms|, found, throwing);
    if found && k == |ms| then q.(settled := q.settled + Settlements(ms, Handled), queue := q.queue - {id})
    else if k == 0 then q.(settled := q.settled + Settlements(ms, Failed), queue := q.queue - {id})
    else q.(settled := q.settled + Settlements(ms[..k], Handled), stuck := q.stuck[id := k])
  }

  function Enqueue(q: State, m: Msg): State
  {
    var id := Peer(m);
    if id in q.queue then q.(queue := q.queue[id := q.queue[id] + [m]])
    else
      var q1 := q.(queue := q.queue[id := [m]]);
      if id in q.contacts then Flush(q1, id, true, None)
      else q1.(outstanding := q.outstanding + multiset{id})
  }

  function Apply(q: State, e: Event): State
  {
    match e
    case Receive(m, throws) => Submit(q, m, if throws then Dropped else Handled)
    case Send(m, throws) => Submit(q, m, if throws then Failed else Handled)
    case Fetched(id, found, throwing) =>
      Flush(q.(outstanding := q.outstanding - multiset{id}, contacts := Emplace(q.contacts, id, found)),
            id, found, throwing)
    case Learn(id, found) => q.(contacts := Emplace(q.contacts, id, found))
  }

  /** A message for a known contact is dealt with at once. */
  function Submit(q: State, m: Msg, fate: Fate): State
  {
    var q1 := q.(submitted := q.submitted + [m]);
    if Peer(m) in q.contacts then q1.(settled := q.settled + [Settlement(m, fate)]) else Enqueue(q1, m)
  }

  /** A fetch ends once; a message is new and goes the way it says. */
  predicate Legal(q: State, e: Event)
  {
    match e
    case Receive(m, _) => m.incoming && New(q, m)
    case Send(m, _) => !m.incoming && New(q, m)
    case Fetched(id, _, _) => id in q.outstanding
    case Learn(_, _) => true
  }

  predicate New(q: State, m: Msg)
  {
    forall i :: 0 <= i < |q.submitted| ==> q.submitted[i].serial != m.serial
  }

  const EMPTY := State(map[], map[], multiset{}, [], [], map[])

  ghost predicate LegalRun(q: State, events: seq<Event>)
    decreases |events|
  {
    events == [] || (Legal(q, events[0]) && LegalRun(Apply(q, events[0]), events[1..]))
  }

  function Run(q: State, events: seq<Event>): State
    decreases |events|
  {
    if events == [] then q else Run(Apply(q, events[0]), events[1..])
  }

  // ----- a contact has a queue exactly while its one fetch is outstanding -----

  /** The messages of a contact that nothing has been done with yet. */
  function Waiting(q: State, id: Id): seq<Msg>
  {
    if id in q.stuck && q.stuck[id] <= |Queue(q, id)| then Queue(q, id)[q.stuck[id]..] else Queue(q, id)
  }

  ghost predicate Inv(q: State)
  {
    && Matched(q.queue, q.outstanding, q.stuck)
    && forall id :: id in q.stuck ==> id in q.contacts
  }

  ghost predicate Matched(queue: map<Id, seq<Msg>>, outstanding: multiset<Id>, stuck: map<Id, nat>)
  {
    && (forall id :: id in queue <==> id in outstanding || id in stuck)
    && (forall id :: id in stuck ==> id !in outstanding && 0 < stuck[id] < |queue[id]|)
    && (forall id :: outstanding[id] <= 1)
    && (forall id :: id in queue ==> queue[id] != [] && AllFor(queue[id], id))
  }

  predicate AllFor(ms: seq<Msg>, id: Id)
  {
    forall i :: 0 <= i < |ms| ==> Peer(ms[i]) == id
  }

  lemma MatchedStart(queue: map<Id, seq<Msg>>, outstanding: multiset<Id>, stuck: map<Id, nat>, m: Msg)
    requires Matched(queue, outstanding, stuck) && Peer(m) !in queue
    ensures Matched(queue[Peer(m) := [m]], outstanding + multiset{Peer(m)}, stuck)
  {
  }

  lemma MatchedGrow(queue: map<Id, seq<Msg>>, outstanding: multiset<Id>, stuck: map<Id, nat>, m: Msg)
    requires Matched(queue, outstanding, stuck) && Peer(m) in queue
    ensures Matched(queue[Peer(m) := queue[Peer(m)] + [m]], outstanding, stuck)
  {
  }

  lemma MatchedEnd(queue: map<Id, seq<Msg>>, outstanding: multiset<Id>, stuck: map<Id, nat>, id: Id)
    requires Matched(queue, outstanding, stuck) && id in outstanding
    ensures Matched(queue - {id}, outstanding - multiset{id}, stuck)
  {
  }

  lemma MatchedStuck(queue: map<Id, seq<Msg>>, outstanding: multiset<Id>, stuck: map<Id, nat>, id: Id, k: nat)
    requires Matched(queue, outstanding, stuck) && id in outstanding && 0 < k < |queue[id]|
    ensures Matched(queue, outstanding - multiset{id}, stuck[id := k])
  {
  }

  lemma StepKeeps(q: State, e: Event)
    requires Inv(q) && Legal(q, e)
    ensures Inv(Apply(q, e))
  {
    match e
    case Receive(m, throws) => SubmitKeeps(q, m, if throws then Dropped else Handled);
    case Send(m, throws) => SubmitKeeps(q, m, if throws then Failed else Handled);
    case Fetched(id, found, throwing) => FetchedKeeps(q, id, found, throwing);
    case Learn(_, _) =>
  }

  lemma FetchedKeeps(q: State, id: Id, found: bool, throwing: Option<nat>)
    requires Inv(q) && id in q.outstanding
    ensures Inv(Apply(q, Fetched(id, found, throwing)))
  {
    var k, r := HandledOf(|Queue(q, id)|, found, throwing), Apply(q, Fetched(id, found, throwing));
    if found && 0 < k < |Queue(q, id)| {
      MatchedStuck(q.queue, q.outstanding, q.stuck, id, k);
    } else {
      MatchedEnd(q.queue, q.outstanding, q.stuck, id);
      assert r.stuck == q.stuck && r.queue == q.queue - {id};
    }
  }

  lemma SubmitKeeps(q: State, m: Msg, fate: Fate)
    requires Inv(q)
    ensures Inv(Submit(q, m, fate))
  {
    if Peer(m) !in q.contacts {
      if Peer(m) in q.queue {
        MatchedGrow(q.queue, q.outstanding, q.stuck, m);
      } else {
        MatchedStart(q.queue, q.outstanding, q.stuck, m);
      }
    }
  }

  lemma {:induction false} RunKeeps(q: State, events: seq<Event>)
    requires Inv(q) && LegalRun(q, events)
    ensures Inv(Run(q, events))
    decreases |events|
  {
    if events != [] {
      StepKeeps(q, events[0]);
      RunKeeps(Apply(q, events[0]), events[1..]);
    }
  }

  /** In this step a handler throws behind the first message of a queue. */
  predicate BreaksOff(q: State, e: Event)
  {
    e.Fetched? && e.found && e.throwing.Some? && 0 < e.throwing.value < |Queue(q, e.id)|
  }

  ghost predicate SomeBreaksOff(q: State, events: seq<Event>)
    decreases |events|
  {
    events != [] && (BreaksOff(q, events[0]) || SomeBreaksOff(Apply(q, events[0]), events[1..]))
  }

  lemma {:induction false} StuckStays(q: State, events: seq<Event>)
    ensures Run(q, events).stuck == map[] <==> q.stuck == map[] && !SomeBreaksOff(q, events)
    decreases |events|
  {
    if events != [] {
      StepStuck(q, events[0]);
      StuckStays(Apply(q, events[0]), events[1..]);
    }
  }

  lemma StepStuck(q: State, e: Event)
    ensures Apply(q, e).stuck == map[] <==> q.stuck == map[] && !BreaksOff(q, e)
  {
    if BreaksOff(q, e) {
      assert e.id in Apply(q, e).stuck;
    }
  }

  /**
   * At rest, in every run: no contact ever has two fetches outstanding, one with a fetch
   * has a queue, and one with a queue has a fetch for all contacts if and only if no
   * handler has thrown behind the first message of a queue.
   */
  lemma QueueIffOneFetch(events: seq<Event>)
    requires LegalRun(EMPTY, events)
    ensures var q := Run(EMPTY, events);
      && (forall id :: q.outstanding[id] <= 1 && (q.outstanding[id] == 1 ==> id in q.queue))
      && ((forall id :: id in q.queue <==> q.outstanding[id] == 1) <==> !SomeBreaksOff(EMPTY, events))
  {
    var q := Run(EMPTY, events);
    RunKeeps(EMPTY, events);
    StuckStays(EMPTY, events);
    if q.stuck != map[] {
      var id :| id in q.stuck;
      assert id in q.queue && id !in q.outstanding;
    }
  }

  /** Once a contact is known nothing is queued for it again, and it stays known. */
  lemma KnownNeverQueued(q: State, e: Event, id: Id)
    requires Inv(q) && Legal(q, e) && id in q.contacts
    ensures var r := Apply(q, e);
      id in r.contacts && r.contacts[id] == q.contacts[id]
      && Waiting(r, id) == if e.Fetched? && e.id == id then Waiting(q, id)[Taken(q, e)..] else Waiting(q, id)
  {
    match e
    case Receive(m, throws) => SubmitWaiting(q, m, if throws then Dropped else Handled, id);
    case Send(m, throws) => SubmitWaiting(q, m, if throws then Failed else Handled, id);
    case Fetched(_, _, _) => FetchedWaiting(q, e, id);
    case Learn(_, _) =>
  }

  /** How many messages the end of a fetch takes from the queue. */
  function Taken(q: State, e: Event): (k: nat)
    requires e.Fetched?
    ensures k <= |Queue(q, e.id)|
  {
    if BreaksOff(q, e) then e.throwing.value else |Queue(q, e.id)|
  }

  lemma FetchedWaiting(q: State, e: Event, id: Id)
    requires Inv(q) && Legal(q, e) && e.Fetched?
    ensures Waiting(q, e.id) == Queue(q, e.id)
    ensures Waiting(Apply(q, e), id) == if e.id == id then Waiting(q, id)[Taken(q, e)..] else Waiting(q, id)
  {
    assert e.id !in q.stuck;
    var r := Apply(q, e);
    if e.id != id {
      assert Queue(r, id) == Queue(q, id) && (id in r.stuck <==> id in q.stuck);
    } else if BreaksOff(q, e) {
      assert r.stuck[id] == e.throwing.value && Queue(r, id) == Queue(q, id);
    } else {
      assert Queue(r, id) == [] && id !in r.stuck;
    }
  }

  /** A submitted message waits only if its contact is unknown, and then behind those that wait already. */
  lemma SubmitWaiting(q: State, m: Msg, fate: Fate, id: Id)
    requires Inv(q)
    ensures var r := Submit(q, m, fate);
      r.contacts == q.contacts
      && Waiting(r, id) == (if id == Peer(m) && id !in q.contacts then Waiting(q, id) + [m] else Waiting(q, id))
  {
    if Peer(m) !in q.contacts {
      assert Peer(m) !in q.stuck;
      var r := Submit(q, m, fate);
      assert r.stuck == q.stuck && Queue(r, Peer(m)) == Queue(q, Peer(m)) + [m];
      assert id != Peer(m) ==> Queue(r, id) == Queue(q, id);
    }
  }

  // ----- every message is handled or failed exactly once, in order -----

  function For(ms: seq<Msg>, id: Id): seq<Msg>
  {
    if ms == [] then []
    else For(ms[..|ms| - 1], id) + (if Peer(ms[|ms| - 1]) == id then [ms[|ms| - 1]] else [])
  }

  function Messages(ss: seq<Settlement>): (r: seq<Msg>)
    ensures |r| == |ss|
  {
    seq(|ss|, i requires 0 <= i < |ss| => ss[i].msg)
  }

  lemma ForSnoc(ms: seq<Msg>, m: Msg, id: Id)
    ensures For(ms + [m], id) == For(ms, id) + (if Peer(m) == id then [m] else [])
  {
    assert (ms + [m])[..|ms|] == ms;
  }

  lemma ForConcatOne(a: seq<Msg>, b: seq<Msg>, m: Msg, id: Id)
    requires For(a + b, id) == For(a, id) + For(b, id)
    ensures For(a + (b + [m]), id) == For(a, id) + For(b + [m], id)
  {
    ForSnoc(a + b, m, id);
    ForSnoc(b, m, id);
    Assoc(a, b, [m]);
    Assoc(For(a, id), For(b, id), if Peer(m) == id then [m] else []);
  }

  lemma {:induction false} ForConcat(a: seq<Msg>, b: seq<Msg>, id: Id)
    ensures For(a + b, id) == For(a, id) + For(b, id)
    decreases |b|
  {
    if b == [] {
      assert a + b == a;
    } else {
      var init, last := b[..|b| - 1], b[|b| - 1];
      assert init + [last] == b;
      ForConcat(a, init, id);
      ForConcatOne(a, init, last, id);
    }
  }

  lemma {:induction false} ForAll(ms: seq<Msg>, id: Id, peer: Id)
    requires forall m :: m in ms ==> Peer(m) == peer
    ensures For(ms, id) == if id == peer then ms else []
    decreases |ms|
  {
    if ms != [] {
      ForAll(ms[..|ms| - 1], id, peer);
      assert ms == ms[..|ms| - 1] + [ms[|ms| - 1]];
    }
  }

  /** The messages of one contact in the order they were settled, then those still waiting. */
  function Arrived(q: State, id: Id): seq<Msg>
  {
    For(Messages(q.settled), id) + Waiting(q, id)
  }

  /** A message for a contact that became known while its queue was still waiting. */
  predicate Overtakes(q: State, e: Event)
  {
    (e.Receive? || e.Send?) && Peer(e.m) in q.contacts && Peer(e.m) in q.queue
  }

  ghost predicate SomeOvertakes(q: State, events: seq<Event>)
    decreases |events|
  {
    events != [] && (Overtakes(q, events[0]) || SomeOvertakes(Apply(q, events[0]), events[1..]))
  }

  /** What is settled or waiting for each contact is what was submitted for it, in the same order. */
  ghost predicate Ordered(q: State)
  {
    forall id :: Arrived(q, id) == For(q.submitted, id)
  }

  lemma MessagesOf(ss: seq<Settlement>, ms: seq<Msg>, fate: Fate)
    ensures Messages(ss + Settlements(ms, fate)) == Messages(ss) + ms
  {
  }

  lemma WaitingFor(q: State, id: Id, peer: Id, k: nat)
    requires Inv(q) && k <= |Queue(q, peer)|
    ensures For(Queue(q, peer)[..k], id) == if id == peer then Queue(q, peer)[..k] else []
  {
    if peer in q.queue {
      assert AllFor(q.queue[peer], peer);
    }
    ForAll(Queue(q, peer)[..k], id, peer);
  }

  /** What a step does to one contact's messages: settled ones, waiting ones, submitted ones. */
  ghost predicate Effect(q: State, e: Event, id: Id, r: State)
  {
    var s, w, sub := For(Messages(q.settled), id), Waiting(q, id), For(q.submitted, id);
    var s', w', sub' := For(Messages(r.settled), id), Waiting(r, id), For(r.submitted, id);
    if (e.Receive? || e.Send?) && Peer(e.m) == id then
      sub' == sub + [e.m]
      && (if id in q.contacts then s' == s + [e.m] && w' == w else s' == s && w' == w + [e.m])
    else if e.Fetched? && e.id == id then
      sub' == sub && Taken(q, e) <= |w| && s' == s + w[..Taken(q, e)] && w' == w[Taken(q, e)..]
    else
      sub' == sub && s' == s && w' == w
  }

  lemma StepEffect(q: State, e: Event, id: Id)
    requires Inv(q) && Legal(q, e)
    ensures Effect(q, e, id, Apply(q, e))
  {
    match e
    case Receive(m, throws) => SubmitEffect(q, m, if throws then Dropped else Handled, id);
    case Send(m, throws) => SubmitEffect(q, m, if throws then Failed else Handled, id);
    case Fetched(_, _, _) => FetchedEffect(q, e, id);
    case Learn(_, _) =>
  }

  function FetchedFate(q: State, e: Event): Fate
    requires e.Fetched?
  {
    if HandledOf(|Queue(q, e.id)|, e.found, e.throwing) > 0 then Handled else Failed
  }

  /** What the end of a fetch settles, and how. */
  lemma FetchedSettles(q: State, e: Event)
    requires e.Fetched?
    ensures Apply(q, e).settled == q.settled + Settlements(Queue(q, e.id)[..Taken(q, e)], FetchedFate(q, e))
  {
    var ms := Queue(q, e.id);
    assert ms[..|ms|] == ms;
  }

  lemma FetchedEffect(q: State, e: Event, id: Id)
    requires Inv(q) && Legal(q, e) && e.Fetched?
    ensures Effect(q, e, id, Apply(q, e))
  {
    var fate := FetchedFate(q, e);
    var taken := Queue(q, e.id)[..Taken(q, e)];
    FetchedSettles(q, e);
    FetchedWaiting(q, e, id);
    MessagesOf(q.settled, taken, fate);
    ForConcat(Messages(q.settled), taken, id);
    WaitingFor(q, id, e.id, Taken(q, e));
  }

  lemma SubmitSettles(q: State, m: Msg, fate: Fate)
    ensures var r := Submit(q, m, fate);
      r.submitted == q.submitted + [m]
      && r.settled == q.settled + (if Peer(m) in q.contacts then [Settlement(m, fate)] else [])
  {
  }

  lemma SubmitEffect(q: State, m: Msg, fate: Fate, id: Id)
    requires Inv(q)
    ensures var r := Submit(q, m, fate);
      && For(r.submitted, id) == For(q.submitted, id) + (if Peer(m) == id then [m] else [])
      && Waiting(r, id) == (if id == Peer(m) && id !in q.contacts then Waiting(q, id) + [m] else Waiting(q, id))
      && For(Messages(r.settled), id)
         == For(Messages(q.settled), id) + (if id == Peer(m) && id in q.contacts then [m] else [])
  {
    SubmitWaiting(q, m, fate, id);
    SubmitSettles(q, m, fate);
    ForSnoc(q.submitted, m, id);
    SettledSnoc(q.settled, m, fate, id);
  }

  lemma SettledSnoc(ss: seq<Settlement>, m: Msg, fate: Fate, id: Id)
    ensures For(Messages(ss + [Settlement(m, fate)]), id) == For(Messages(ss), id) + (if Peer(m) == id then [m] else [])
  {
    ForSnoc(Messages(ss), m, id);
    assert Messages(ss + [Settlement(m, fate)]) == Messages(ss) + [m];
  }

  lemma StepOrdered(q: State, e: Event)
    requires Inv(q) && Legal(q, e) && Ordered(q) && !Overtakes(q, e)
    ensures Ordered(Apply(q, e))
  {
    var r := Apply(q, e);
    forall id
      ensures Arrived(r, id) == For(r.submitted, id)
    {
      StepEffect(q, e, id);
      EffectOrdered(q, e, id, r);
    }
  }

  lemma EffectOrdered(q: State, e: Event, id: Id, r: State)
    requires Effect(q, e, id, r) && !Overtakes(q, e) && Arrived(q, id) == For(q.submitted, id)
    ensures Arrived(r, id) == For(r.submitted, id)
  {
    var s, w := For(Messages(q.settled), id), Waiting(q, id);
    if (e.Receive? || e.Send?) && Peer(e.m) == id {
      if id in q.contacts {
        assert w == [] && s + w == s && (s + [e.m]) + w == s + [e.m];
      } else {
        assert s + (w + [e.m]) == (s + w) + [e.m];
      }
    } else if e.Fetched? && e.id == id {
      Moved(s, w, Taken(q, e));
    }
  }

  lemma {:induction false} RunOrdered(q: State, events: seq<Event>)
    requires Inv(q) && LegalRun(q, events) && Ordered(q) && !SomeOvertakes(q, events)
    ensures Ordered(Run(q, events))
    decreases |events|
  {
    if events != [] {
      StepKeeps(q, events[0]);
      StepOrdered(q, events[0]);
      RunOrdered(Apply(q, events[0]), events[1..]);
    }
  }

  /** Among the settled messages of a contact, one is not the one submitted at that place. */
  ghost predicate Diverged(q: State, id: Id)
  {
    var s, sub := For(Messages(q.settled), id), For(q.submitted, id);
    exists p :: 0 <= p < |s| && p < |sub| && s[p] != sub[p]
  }

  /** Histories only grow. */
  lemma EffectGrows(q: State, e: Event, id: Id, r: State)
    requires Effect(q, e, id, r)
    ensures For(Messages(q.settled), id) <= For(Messages(r.settled), id) && For(q.submitted, id) <= For(r.submitted, id)
  {
  }

  lemma DivergedStays(q: State, e: Event, id: Id)
    requires Inv(q) && Legal(q, e) && Diverged(q, id)
    ensures Diverged(Apply(q, e), id)
  {
    StepEffect(q, e, id);
    EffectGrows(q, e, id, Apply(q, e));
  }

  lemma {:induction false} ForIn(ms: seq<Msg>, id: Id, i: nat)
    requires i < |For(ms, id)|
    ensures For(ms, id)[i] in ms
    decreases |ms|
  {
    if ms != [] && i < |For(ms[..|ms| - 1], id)| {
      ForIn(ms[..|ms| - 1], id, i);
    }
  }

  /** The overtaking message is settled in the place of the first one that waits. */
  lemma OvertakeDiverges(q: State, e: Event)
    requires Inv(q) && Legal(q, e) && Ordered(q) && Overtakes(q, e)
    ensures Diverged(Apply(q, e), Peer(e.m))
  {
    var id, r := Peer(e.m), Apply(q, e);
    StepEffect(q, e, id);
    var p := |For(Messages(q.settled), id)|;
    assert Arrived(q, id) == For(q.submitted, id);
    var first := For(q.submitted, id)[p];
    ForIn(q.submitted, id, p);
    assert first != e.m;
    assert For(Messages(r.settled), id)[p] == e.m && For(r.submitted, id)[p] == first;
  }

  lemma {:induction false} RunDiverged(q: State, events: seq<Event>, id: Id)
    requires Inv(q) && LegalRun(q, events) && Diverged(q, id)
    ensures Diverged(Run(q, events), id)
    decreases |events|
  {
    if events != [] {
      StepKeeps(q, events[0]);
      DivergedStays(q, events[0], id);
      RunDiverged(Apply(q, events[0]), events[1..], id);
    }
  }

  lemma {:induction false} OvertakenRun(q: State, events: seq<Event>) returns (id: Id)
    requires Inv(q) && LegalRun(q, events) && Ordered(q) && SomeOvertakes(q, events)
    ensures Diverged(Run(q, events), id)
    decreases |events|
  {
    StepKeeps(q, events[0]);
    var r := Apply(q, events[0]);
    if Overtakes(q, events[0]) {
      OvertakeDiverges(q, events[0]);
      id := Peer(events[0].m);
      RunDiverged(r, events[1..], id);
    } else {
      StepOrdered(q, events[0]);
      id := OvertakenRun(r, events[1..]);
    }
  }

  /**
   * In every run, messages of each contact are dealt with in the order submitted if and
   * only if none was submitted for a contact already known while its queue still waited.
   */
  lemma OrderedIffNoneOvertakes(events: seq<Event>)
    requires LegalRun(EMPTY, events)
    ensures Ordered(Run(EMPTY, events)) <==> !SomeOvertakes(EMPTY, events)
  {
    if SomeOvertakes(EMPTY, events) {
      var id := OvertakenRun(EMPTY, events);
      DivergedIsDisorder(Run(EMPTY, events), id);
    } else {
      RunOrdered(EMPTY, events);
    }
  }

  lemma DivergedIsDisorder(q: State, id: Id)
    requires Diverged(q, id)
    ensures Arrived(q, id) != For(q.submitted, id)
  {
    var s, sub := For(Messages(q.settled), id), For(q.submitted, id);
    var p :| 0 <= p < |s| && p < |sub| && s[p] != sub[p];
    assert Arrived(q, id)[p] == s[p];
  }

  // ----- conservation, overtaking or not -----

  /** Each contact's submitted messages are, each once, settled or waiting. */
  ghost predicate Conserved(q: State)
  {
    forall id :: multiset(Arrived(q, id)) == multiset(For(q.submitted, id))
  }

  lemma Moved(s: seq<Msg>, w: seq<Msg>, k: nat)
    requires k <= |w|
    ensures (s + w[..k]) + w[k..] == s + w
  {
    assert w[..k] + w[k..] == w;
  }

  lemma Added(s: seq<Msg>, w: seq<Msg>, m: Msg)
    ensures multiset((s + [m]) + w) == multiset(s + w) + multiset{m}
    ensures multiset(s + (w + [m])) == multiset(s + w) + multiset{m}
  {
  }

  lemma EffectConserved(q: State, e: Event, id: Id, r: State)
    requires Effect(q, e, id, r) && multiset(Arrived(q, id)) == multiset(For(q.submitted, id))
    ensures multiset(Arrived(r, id)) == multiset(For(r.submitted, id))
  {
    var s, w, sub := For(Messages(q.settled), id), Waiting(q, id), For(q.submitted, id);
    if (e.Receive? || e.Send?) && Peer(e.m) == id {
      Added(s, w, e.m);
      Added(sub, [], e.m);
      assert sub + [] == sub && (sub + [e.m]) + [] == sub + [e.m];
    } else if e.Fetched? && e.id == id {
      Moved(s, w, Taken(q, e));
    }
  }

  lemma {:induction false} RunConserved(q: State, events: seq<Event>)
    requires Inv(q) && LegalRun(q, events) && Conserved(q)
    ensures Conserved(Run(q, events))
    decreases |events|
  {
    if events != [] {
      StepKeeps(q, events[0]);
      var r := Apply(q, events[0]);
      forall id
        ensures multiset(Arrived(r, id)) == multiset(For(r.submitted, id))
      {
        StepEffect(q, events[0], id);
        EffectConserved(q, events[0], id, r);
      }
      RunConserved(r, events[1..]);
    }
  }

  ghost predicate DistinctSerials(ms: seq<Msg>)
  {
    forall i, j :: 0 <= i < j < |ms| ==> ms[i].serial != ms[j].serial
  }

  lemma {:induction false} RunDistinct(q: State, events: seq<Event>)
    requires LegalRun(q, events) && DistinctSerials(q.submitted)
    ensures DistinctSerials(Run(q, events).submitted)
    decreases |events|
  {
    if events != [] {
      RunDistinct(Apply(q, events[0]), events[1..]);
    }
  }

  lemma {:induction false} ForCount(ms: seq<Msg>, m: Msg)
    requires DistinctSerials(ms) && m in ms
    ensures multiset(For(ms, Peer(m)))[m] == 1
    decreases |ms|
  {
    var init, last := ms[..|ms| - 1], ms[|ms| - 1];
    assert ms == init + [last];
    if m in init {
      ForCount(init, m);
    } else {
      if m in multiset(For(init, Peer(m))) {
        var i :| 0 <= i < |For(init, Peer(m))| && For(init, Peer(m))[i] == m;
        ForIn(init, Peer(m), i);
        assert false;
      }
    }
  }

  /**
   * Never both: in every run each submitted message is exactly once settled, by being
   * handled, by failing or by being dropped, or else still waits.
   */
  lemma ExactlyOneFate(events: seq<Event>, m: Msg)
    requires LegalRun(EMPTY, events) && m in Run(EMPTY, events).submitted
    ensures var q := Run(EMPTY, events);
      multiset(For(Messages(q.settled), Peer(m)))[m] + multiset(Waiting(q, Peer(m)))[m] == 1
  {
    var q := Run(EMPTY, events);
    RunKeeps(EMPTY, events);
    RunConserved(EMPTY, events);
    RunDistinct(EMPTY, events);
    ForCount(q.submitted, m);
    assert multiset(Arrived(q, Peer(m))) == multiset(For(q.submitted, Peer(m)));
    assert multiset(Arrived(q, Peer(m))) == multiset(For(Messages(q.settled), Peer(m))) + multiset(Waiting(q, Peer(m)));
  }

  /** Every message settled or waiting has been submitted. */
  lemma ArrivedSubmitted(events: seq<Event>, id: Id, m: Msg)
    requires LegalRun(EMPTY, events) && m in multiset(Arrived(Run(EMPTY, events), id))
    ensures m in Run(EMPTY, events).submitted
  {
    var q := Run(EMPTY, events);
    RunConserved(EMPTY, events);
    var ms := For(q.submitted, id);
    assert multiset(Arrived(q, id)) == multiset(ms);
    var i :| 0 <= i < |ms| && ms[i] == m;
    ForIn(q.submitted, id, i);
  }

  lemma WaitingSubmitted(events: seq<Event>, id: Id, m: Msg)
    requires LegalRun(EMPTY, events) && m in Waiting(Run(EMPTY, events), id)
    ensures m in Run(EMPTY, events).submitted && Peer(m) == id
  {
    var q := Run(EMPTY, events);
    RunKeeps(EMPTY, events);
    assert id in q.queue && AllFor(q.queue[id], id);
    ArrivedSubmitted(events, id, m);
  }

  // ----- never neither, and when -----

  /** Here recv throws on a message outside any queue. */
  predicate Drops(q: State, e: Event)
  {
    e.Receive? && e.throws && Peer(e.m) in q.contacts
  }

  ghost predicate SomeDrops(q: State, events: seq<Event>)
    decreases |events|
  {
    events != [] && (Drops(q, events[0]) || SomeDrops(Apply(q, events[0]), events[1..]))
  }

  predicate NoneDropped(ss: seq<Settlement>)
  {
    forall i :: 0 <= i < |ss| ==> ss[i].fate != Dropped
  }

  lemma SubmitDrops(q: State, m: Msg, fate: Fate)
    ensures NoneDropped(Submit(q, m, fate).settled)
            <==> NoneDropped(q.settled) && (Peer(m) in q.contacts ==> fate != Dropped)
  {
    var r := Submit(q, m, fate).settled;
    if Peer(m) in q.contacts {
      assert r[|q.settled|] == Settlement(m, fate);
    }
    assert q.settled <= r;
  }

  lemma StepDrops(q: State, e: Event)
    ensures NoneDropped(Apply(q, e).settled) <==> NoneDropped(q.settled) && !Drops(q, e)
  {
    match e
    case Receive(m, throws) => SubmitDrops(q, m, if throws then Dropped else Handled);
    case Send(m, throws) => SubmitDrops(q, m, if throws then Failed else Handled);
    case Fetched(_, _, _) =>
      FetchedSettles(q, e);
      assert q.settled <= Apply(q, e).settled;
    case Learn(_, _) =>
  }

  lemma {:induction false} RunDrops(q: State, events: seq<Event>)
    ensures NoneDropped(Run(q, events).settled) <==> NoneDropped(q.settled) && !SomeDrops(q, events)
    decreases |events|
  {
    if events != [] {
      StepDrops(q, events[0]);
      RunDrops(Apply(q, events[0]), events[1..]);
    }
  }

  lemma {:induction false} CountFor(ms: seq<Msg>, m: Msg)
    ensures multiset(For(ms, Peer(m)))[m] == multiset(ms)[m]
    decreases |ms|
  {
    if ms != [] {
      CountFor(ms[..|ms| - 1], m);
      assert ms == ms[..|ms| - 1] + [ms[|ms| - 1]];
    }
  }

  /** A message settled once has one fate. */
  lemma OneFate(ss: seq<Settlement>, m: Msg) returns (f: Fate)
    requires multiset(Messages(ss))[m] == 1
    ensures forall g :: Settlement(m, g) in ss <==> g == f
  {
    var ms := Messages(ss);
    assert m in multiset(ms);
    var i :| 0 <= i < |ms| && ms[i] == m;
    f := ss[i].fate;
    assert ss[i] == Settlement(m, f);
    forall g | Settlement(m, g) in ss
      ensures g == f
    {
      var j :| 0 <= j < |ss| && ss[j] == Settlement(m, g);
      assert ms[j] == m;
      Twice(ms, i, j);
    }
  }

  lemma Twice<T>(ms: seq<T>, i: nat, j: nat)
    requires i < |ms| && j < |ms| && ms[i] == ms[j]
    ensures i == j || multiset(ms)[ms[i]] >= 2
  {
    var lo, hi := if i < j then i else j, if i < j then j else i;
    if lo < hi {
      assert ms == ms[..hi] + ms[hi..];
      assert ms[..hi][lo] == ms[i] && ms[hi..][0] == ms[i];
    }
  }

  predicate HasFate(q: State, m: Msg)
  {
    Settlement(m, Handled) in q.settled || Settlement(m, Failed) in q.settled
  }

  lemma SettledCounts(ss: seq<Settlement>, m: Msg, f: Fate)
    requires Settlement(m, f) in ss
    ensures multiset(Messages(ss))[m] > 0
  {
    var i :| 0 <= i < |ss| && ss[i] == Settlement(m, f);
    assert Messages(ss)[i] == m && m in multiset(Messages(ss));
  }

  /** One message: it has a fate unless it waits or was dropped. */
  lemma FateUnless(events: seq<Event>, m: Msg)
    requires LegalRun(EMPTY, events) && m in Run(EMPTY, events).submitted
    ensures var q := Run(EMPTY, events);
      HasFate(q, m) <==> m !in Waiting(q, Peer(m)) && Settlement(m, Dropped) !in q.settled
  {
    var q := Run(EMPTY, events);
    var w := Waiting(q, Peer(m));
    ExactlyOneFate(events, m);
    CountFor(Messages(q.settled), m);
    assert m in w <==> multiset(w)[m] > 0;
    forall f | Settlement(m, f) in q.settled
      ensures multiset(Messages(q.settled))[m] > 0
    {
      SettledCounts(q.settled, m, f);
    }
    if m !in w {
      var f := OneFate(q.settled, m);
    }
  }

  lemma SettledSubmitted(events: seq<Event>, i: nat)
    requires LegalRun(EMPTY, events) && i < |Run(EMPTY, events).settled|
    ensures var q := Run(EMPTY, events); q.settled[i].msg in q.submitted
  {
    var q := Run(EMPTY, events);
    var m := q.settled[i].msg;
    CountFor(Messages(q.settled), m);
    assert Messages(q.settled)[i] == m && m in multiset(Messages(q.settled));
    assert m in multiset(For(Messages(q.settled), Peer(m))) && m in multiset(Arrived(q, Peer(m)));
    ArrivedSubmitted(events, Peer(m), m);
  }

  /**
   * Never neither: once no fetch is outstanding every message submitted has been handled
   * or has failed, if and only if no handler threw behind the first message of a queue
   * and recv threw on no message outside a queue.
   */
  lemma NeverNeither(events: seq<Event>)
    requires LegalRun(EMPTY, events) && Run(EMPTY, events).outstanding == multiset{}
    ensures var q := Run(EMPTY, events);
      (forall m :: m in q.submitted ==> HasFate(q, m)) <==> !SomeBreaksOff(EMPTY, events) && !SomeDrops(EMPTY, events)
  {
    var q := Run(EMPTY, events);
    RunKeeps(EMPTY, events);
    StuckStays(EMPTY, events);
    RunDrops(EMPTY, events);
    if SomeBreaksOff(EMPTY, events) {
      var id :| id in q.stuck;
      var m := Waiting(q, id)[0];
      WaitingSubmitted(events, id, m);
      FateUnless(events, m);
    } else if SomeDrops(EMPTY, events) {
      var i :| 0 <= i < |q.settled| && q.settled[i].fate == Dropped;
      var m := q.settled[i].msg;
      SettledSubmitted(events, i);
      FateUnless(events, m);
      assert q.settled[i] == Settlement(m, Dropped);
    } else {
      forall m | m in q.submitted
        ensures HasFate(q, m)
      {
        FateUnless(events, m);
        assert Peer(m) !in q.queue;
      }
    }
  }

  // ----- the fate of a message and its cause -----

  /**
   * The fate a step gives a message, by its cause: its submission when the contact is
   * known, or the end of the fetch it waited for. Submitted for a known contact, it is
   * handled unless its handler throws, which fails it if it was to be sent and drops it
   * if it was received. A fetch that finds no key fails all
   * that wait; one that finds a key has them handled, except that a handler that throws
   * fails all if its message is the first, and otherwise leaves its own message and
   * those behind it without any fate.
   */
  function FateAt(q: State, e: Event, m: Msg): Option<Fate>
  {
    match e
    case Receive(x, throws) => if x == m && Peer(m) in q.contacts then Some(if throws then Dropped else Handled) else None
    case Send(x, throws) => if x == m && Peer(m) in q.contacts then Some(if throws then Failed else Handled) else None
    case Learn(_, _) => None
    case Fetched(id, found, throwing) =>
      var ms := Queue(q, id);
      if m !in ms then None
      else if !found then Some(Failed)
      else if throwing.None? || throwing.value >= |ms| then Some(Handled)
      else if throwing.value == 0 then Some(Failed)
      else if m in ms[..throwing.value] then Some(Handled)
      else None
  }

  lemma InSettlements(ms: seq<Msg>, fate: Fate, m: Msg, f: Fate)
    ensures Settlement(m, f) in Settlements(ms, fate) <==> m in ms && f == fate
  {
    if m in ms && f == fate {
      var i :| 0 <= i < |ms| && ms[i] == m;
      assert Settlements(ms, fate)[i] == Settlement(m, f);
    }
  }

  lemma FetchedSettlesOne(q: State, e: Event, m: Msg, f: Fate)
    requires e.Fetched?
    ensures Settlement(m, f) in Apply(q, e).settled
            <==> Settlement(m, f) in q.settled || (m in Queue(q, e.id)[..Taken(q, e)] && f == FetchedFate(q, e))
  {
    FetchedSettles(q, e);
    InSettlements(Queue(q, e.id)[..Taken(q, e)], FetchedFate(q, e), m, f);
  }

  /** The fate by its cause is the fate of those taken from the queue. */
  lemma FetchedFateAt(q: State, e: Event, m: Msg, f: Fate)
    requires e.Fetched?
    ensures FateAt(q, e, m) == Some(f) <==> m in Queue(q, e.id)[..Taken(q, e)] && f == FetchedFate(q, e)
  {
    var ms := Queue(q, e.id);
    assert ms[..|ms|] == ms;
    assert m in ms[..Taken(q, e)] ==> m in ms;
  }

  lemma SubmitSettlesOne(q: State, x: Msg, fate: Fate, m: Msg, f: Fate)
    ensures Settlement(m, f) in Submit(q, x, fate).settled
            <==> Settlement(m, f) in q.settled || (x == m && fate == f && Peer(m) in q.contacts)
  {
    SubmitSettles(q, x, fate);
  }

  lemma StepSettles(q: State, e: Event, m: Msg, f: Fate)
    requires Inv(q) && Legal(q, e)
    ensures Settlement(m, f) in Apply(q, e).settled
            <==> Settlement(m, f) in q.settled || FateAt(q, e, m) == Some(f)
  {
    match e
    case Receive(x, throws) => SubmitSettlesOne(q, x, if throws then Dropped else Handled, m, f);
    case Send(x, throws) => SubmitSettlesOne(q, x, if throws then Failed else Handled, m, f);
    case Fetched(_, _, _) =>
      FetchedSettlesOne(q, e, m, f);
      FetchedFateAt(q, e, m, f);
    case Learn(_, _) =>
  }

  lemma {:induction false} RunSnoc(q: State, events: seq<Event>, n: nat)
    requires n < |events| && LegalRun(q, events)
    ensures LegalRun(q, events[..n]) && Legal(Run(q, events[..n]), events[n])
    ensures Run(q, events[..n + 1]) == Apply(Run(q, events[..n]), events[n])
    decreases n
  {
    if n > 0 {
      RunSnoc(Apply(q, events[0]), events[1..], n - 1);
      assert events[..n][1..] == events[1..][..n - 1] && events[..n + 1][1..] == events[1..][..n];
    } else {
      assert events[..1][1..] == [];
    }
  }

  /** One of the first n steps gives the message this fate. */
  ghost predicate Caused(events: seq<Event>, m: Msg, f: Fate, n: nat)
    requires n <= |events|
  {
    exists i :: 0 <= i < n && FateAt(Run(EMPTY, events[..i]), events[i], m) == Some(f)
  }

  lemma CausedSnoc(events: seq<Event>, m: Msg, f: Fate, n: nat)
    requires n < |events|
    ensures Caused(events, m, f, n + 1) <==> Caused(events, m, f, n) || FateAt(Run(EMPTY, events[..n]), events[n], m) == Some(f)
  {
    if Caused(events, m, f, n) {
      var i :| 0 <= i < n && FateAt(Run(EMPTY, events[..i]), events[i], m) == Some(f);
      assert 0 <= i < n + 1;
    }
  }

  /** Over whole runs: a message has a fate exactly when some step of the run gave it that fate. */
  lemma {:induction false} FateByCause(events: seq<Event>, m: Msg, f: Fate, n: nat)
    requires LegalRun(EMPTY, events) && n <= |events|
    ensures Settlement(m, f) in Run(EMPTY, events[..n]).settled <==> Caused(events, m, f, n)
    decreases n
  {
    if n > 0 {
      FateByCause(events, m, f, n - 1);
      CausedSnoc(events, m, f, n - 1);
      RunSnoc(EMPTY, events, n - 1);
      RunKeeps(EMPTY, events[..n - 1]);
      StepSettles(Run(EMPTY, events[..n - 1]), events[n - 1], m, f);
    }
  }

  // ----- who is known, and who is asked for -----

  /** This event tells whether the contact has a key. */
  predicate Answers(e: Event, id: Id)
  {
    (e.Fetched? || e.Learn?) && e.id == id
  }

  /** The first answer about a contact. */
  function FirstAnswer(events: seq<Event>, id: Id): (r: Option<bool>)
    ensures r.Some? <==> exists i :: 0 <= i < |events| && Answers(events[i], id)
  {
    if events == [] then None
    else if Answers(events[0], id) then Some(events[0].found)
    else
      assert forall i :: 0 <= i < |events| - 1 ==> events[1..][i] == events[i + 1];
      FirstAnswer(events[1..], id)
  }

  lemma SubmitContacts(q: State, m: Msg, fate: Fate)
    ensures Submit(q, m, fate).contacts == q.contacts
  {
  }

  lemma FlushContacts(q: State, id: Id, found: bool, throwing: Option<nat>)
    ensures Flush(q, id, found, throwing).contacts == q.contacts
    ensures Flush(q, id, found, throwing).outstanding == q.outstanding
  {
  }

  lemma EmplaceAt(contacts: map<Id, bool>, x: Id, found: bool, id: Id)
    ensures var r := Emplace(contacts, x, found);
      && (id in r <==> id in contacts || id == x)
      && (id in r ==> r[id] == if id in contacts then contacts[id] else found)
  {
  }

  lemma StepContacts(q: State, e: Event)
    ensures Apply(q, e).contacts == if e.Fetched? || e.Learn? then Emplace(q.contacts, e.id, e.found) else q.contacts
  {
    match e
    case Receive(m, throws) => SubmitContacts(q, m, if throws then Dropped else Handled);
    case Send(m, throws) => SubmitContacts(q, m, if throws then Failed else Handled);
    case Fetched(x, found, throwing) =>
      var q1 := q.(outstanding := q.outstanding - multiset{x}, contacts := Emplace(q.contacts, x, found));
      FlushContacts(q1, x, found, throwing);
    case Learn(_, _) =>
  }

  lemma StepAnswers(q: State, e: Event, id: Id)
    ensures var r := Apply(q, e);
      && (id in r.contacts <==> id in q.contacts || Answers(e, id))
      && (id in r.contacts ==> r.contacts[id] == if id in q.contacts then q.contacts[id] else e.found)
  {
    StepContacts(q, e);
    if e.Fetched? || e.Learn? {
      EmplaceAt(q.contacts, e.id, e.found, id);
    }
  }

  lemma {:induction false} RunAnswers(q: State, events: seq<Event>, id: Id)
    ensures var r := Run(q, events);
      && (id in r.contacts <==> id in q.contacts || FirstAnswer(events, id).Some?)
      && (id in r.contacts ==>
            r.contacts[id] == if id in q.contacts then q.contacts[id] else FirstAnswer(events, id).value)
    decreases |events|
  {
    if events != [] {
      StepAnswers(q, events[0], id);
      RunAnswers(Apply(q, events[0]), events[1..], id);
    }
  }

  /** A contact is known if and only if something has told about it, and then by what the first thing told. */
  lemma KnownIffAnswered(events: seq<Event>, id: Id)
    ensures var q := Run(EMPTY, events);
      && (id in q.contacts <==> exists i :: 0 <= i < |events| && Answers(events[i], id))
      && (id in q.contacts ==> FirstAnswer(events, id) == Some(q.contacts[id]))
  {
    RunAnswers(EMPTY, events, id);
  }

  /** A message from, or to, the contact. */
  predicate Concerns(e: Event, id: Id)
  {
    match e
    case Receive(m, _) => m.sender == id
    case Send(m, _) => m.recipient == id
    case _ => false
  }

  /** In how many steps one more fetch of the contact is outstanding than before. */
  ghost function FetchesStarted(q: State, events: seq<Event>, id: Id): nat
    decreases |events|
  {
    if events == [] then 0
    else (if Apply(q, events[0]).outstanding[id] > q.outstanding[id] then 1 else 0)
         + FetchesStarted(Apply(q, events[0]), events[1..], id)
  }

  /** A message from or to the contact comes before any answer about it. */
  predicate WantedFirst(events: seq<Event>, id: Id)
  {
    events != [] && (Concerns(events[0], id) || (!Answers(events[0], id) && WantedFirst(events[1..], id)))
  }

  /** Nobody is asked for again once asked for, or told about. */
  ghost predicate Asked(q: State, id: Id)
  {
    id in q.contacts || id in q.outstanding
  }

  lemma StepFetches(q: State, e: Event, id: Id)
    requires Inv(q) && Legal(q, e)
    ensures var r := Apply(q, e);
      && (r.outstanding[id] > q.outstanding[id] <==> !Asked(q, id) && Concerns(e, id))
      && (Asked(r, id) <==> Asked(q, id) || Concerns(e, id) || Answers(e, id))
  {
    match e
    case Receive(m, throws) => SubmitFetches(q, m, if throws then Dropped else Handled, id);
    case Send(m, throws) => SubmitFetches(q, m, if throws then Failed else Handled, id);
    case Fetched(_, _, _) => AnswerFetches(q, e, id);
    case Learn(_, _) => AnswerFetches(q, e, id);
  }

  lemma AnswerFetches(q: State, e: Event, id: Id)
    requires Legal(q, e) && (e.Fetched? || e.Learn?)
    ensures var r := Apply(q, e);
      r.outstanding[id] <= q.outstanding[id] && (Asked(r, id) <==> Asked(q, id) || Answers(e, id))
  {
    StepAnswers(q, e, id);
    if e.Fetched? {
      var q1 := q.(outstanding := q.outstanding - multiset{e.id}, contacts := Emplace(q.contacts, e.id, e.found));
      FlushContacts(q1, e.id, e.found, e.throwing);
    }
  }

  lemma SubmitFetches(q: State, m: Msg, fate: Fate, id: Id)
    requires Inv(q)
    ensures var r := Submit(q, m, fate);
      && (r.outstanding[id] > q.outstanding[id] <==> !Asked(q, id) && Peer(m) == id)
      && (Asked(r, id) <==> Asked(q, id) || Peer(m) == id)
  {
  }

  lemma {:induction false} RunFetches(q: State, events: seq<Event>, id: Id)
    requires Inv(q) && LegalRun(q, events)
    ensures FetchesStarted(q, events, id) == if !Asked(q, id) && WantedFirst(events, id) then 1 else 0
    decreases |events|
  {
    if events != [] {
      StepKeeps(q, events[0]);
      StepFetches(q, events[0], id);
      RunFetches(Apply(q, events[0]), events[1..], id);
    }
  }

  /**
   * In every run a contact is fetched once, if a message from or to it comes before
   * anything has told about it, and never otherwise.
   */
  lemma FetchedOnce(events: seq<Event>, id: Id)
    requires LegalRun(EMPTY, events)
    ensures FetchesStarted(EMPTY, events, id) == if WantedFirst(events, id) then 1 else 0
  {
    RunFetches(EMPTY, events, id);
  }

  // ----- runs that exist -----

  lemma ThreeSteps(a: Event, b: Event, c: Event)
    requires var q := Apply(EMPTY, a); Legal(EMPTY, a) && Legal(q, b) && Legal(Apply(q, b), c)
    ensures LegalRun(EMPTY, [a, b, c])
    ensures var r := Apply(Apply(EMPTY, a), b);
      && (Overtakes(r, c) ==> SomeOvertakes(EMPTY, [a, b, c]))
      && (BreaksOff(r, c) ==> SomeBreaksOff(EMPTY, [a, b, c]))
      && (Drops(r, c) ==> SomeDrops(EMPTY, [a, b, c]))
  {
    var q := Apply(EMPTY, a);
    var three, two, one, none: seq<Event> := [a, b, c], [b, c], [c], [];
    assert three[1..] == two && two[1..] == one && one[1..] == none;
    assert LegalRun(Apply(q, b), one) && LegalRun(q, two);
    if Overtakes(Apply(q, b), c) {
      assert SomeOvertakes(Apply(q, b), one) && SomeOvertakes(q, two);
    }
    if BreaksOff(Apply(q, b), c) {
      assert SomeBreaksOff(Apply(q, b), one) && SomeBreaksOff(q, two);
    }
    if Drops(Apply(q, b), c) {
      assert SomeDrops(Apply(q, b), one) && SomeDrops(q, two);
    }
  }

  /** A run in which one message overtakes another, one in which a handler breaks a flush off, one that drops a message. */
  lemma AllHappen(a: Id)
    ensures var m, n, o := Msg(0, false, a, a), Msg(1, false, a, a), Msg(2, true, a, a);
      && LegalRun(EMPTY, [Send(m, false), Learn(a, true), Send(n, false)])
      && SomeOvertakes(EMPTY, [Send(m, false), Learn(a, true), Send(n, false)])
      && LegalRun(EMPTY, [Send(m, false), Send(n, false), Fetched(a, true, Some(1))])
      && SomeBreaksOff(EMPTY, [Send(m, false), Send(n, false), Fetched(a, true, Some(1))])
      && LegalRun(EMPTY, [Send(m, false), Learn(a, true), Receive(o, true)])
      && SomeDrops(EMPTY, [Send(m, false), Learn(a, true), Receive(o, true)])
  {
    var m, n, o := Msg(0, false, a, a), Msg(1, false, a, a), Msg(2, true, a, a);
    ThreeSteps(Send(m, false), Learn(a, true), Send(n, false));
    ThreeSteps(Send(m, false), Send(n, false), Fetched(a, true, Some(1)));
    ThreeSteps(Send(m, false), Learn(a, true), Receive(o, true));
  }
}
