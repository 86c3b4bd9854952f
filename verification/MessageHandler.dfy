/** The message handler and the contact store as the program runs them. */
module MessageHandler {
  import opened Wrappers
  import opened Accounts
  import opened Packets
  import Q = Queueing

  class ContactStore {
    /** From an id to whether a key was found; an id whose fetch failed stays, without one. */
    var idmap: map<Id, bool>

    constructor ()
      ensures idmap == map[]
    {
      idmap := map[];
    }

    predicate HasContact(id: Id)
      reads this
    {
      id in idmap
    }

    method Emplace(id: Id, found: bool)
      modifies this
      ensures idmap == Q.Emplace(old(idmap), id, found)
    {
      if id !in idmap {
        idmap := idmap[id := found];
      }
    }
  }

  class Handler {
    const contacts: ContactStore
    var packetQueue: map<Id, seq<Q.Msg>>
    /** Requests the identity service has not answered. */
    var requests: multiset<Id>
    ghost var submitted: seq<Q.Msg>
    /** Messages given to recv or send, or whose promise failed, with what became of them. */
    var settled: seq<Q.Settlement>
    /** Of a queue that a throwing handler has left behind: how many of its messages were handled. */
    ghost var stuck: map<Id, nat>

    ghost function Model(): Q.State
      reads this, contacts
    {
      Q.State(contacts.idmap, packetQueue, requests, submitted, settled, stuck)
    }

    constructor (store: ContactStore)
      requires store.idmap == map[]
      ensures contacts == store && Model() == Q.EMPTY
    {
      contacts := store;
      packetQueue, requests, submitted, settled, stuck := map[], multiset{}, [], [], map[];
    }

    method Settle(m: Q.Msg, fate: Q.Fate)
      modifies this`settled
      ensures settled == old(settled) + [Q.Settlement(m, fate)]
    {
      settled := settled + [Q.Settlement(m, fate)];
    }

    /** throws: whether recv raises an exception, which then goes to the caller; threw: whether one does. */
    method OnRecvMessage(m: Q.Msg, throws: bool) returns (threw: bool)
      requires m.incoming
      modifies this, contacts
      ensures Model() == Q.Apply(old(Model()), Q.Receive(m, throws))
      ensures threw == (throws && old(contacts.HasContact(m.sender)))
    {
      submitted := submitted + [m];
      if contacts.HasContact(m.sender) {
        Settle(m, if throws then Q.Dropped else Q.Handled);
        return throws;
      }
      Enqueue(m);
      return false;
    }

    /** throws: whether send raises an exception, which then goes to the message's promise. */
    method SendMessage(m: Q.Msg, throws: bool)
      requires !m.incoming
      modifies this, contacts
      ensures Model() == Q.Apply(old(Model()), Q.Send(m, throws))
    {
      submitted := submitted + [m];
      if contacts.HasContact(m.recipient) {
        Settle(m, if throws then Q.Failed else Q.Handled);
      } else {
        Enqueue(m);
      }
    }

    method Enqueue(m: Q.Msg)
      modifies this, contacts
      ensures Model() == Q.Enqueue(old(Model()), m)
    {
      var contactId := if m.incoming then m.sender else m.recipient;
      if contactId in packetQueue {
        packetQueue := packetQueue[contactId := packetQueue[contactId] + [m]];
      } else {
        packetQueue := packetQueue[contactId := []];
        packetQueue := packetQueue[contactId := packetQueue[contactId] + [m]];
        assert packetQueue[contactId] == [m];
        assert packetQueue == old(packetQueue)[contactId := [m]];
        var ready := FetchContact(contactId);
        if ready {
          Flush(contactId, true, None);
        }
      }
    }

    /** Whether the future returned is resolved already; if not, a request has been sent. */
    method FetchContact(id: Id) returns (ready: bool)
      modifies this`requests
      ensures ready == contacts.HasContact(id)
      ensures requests == if ready then old(requests) else old(requests) + multiset{id}
    {
      if contacts.HasContact(id) {
        return true;
      }
      requests := requests + multiset{id};
      return false;
    }

    /**
     * The callback on the fetched contact: handle every queued message, or fail every
     * promise. Failing starts with the first message; if that has been handled before a
     * later handler threw, its promise is satisfied already and throws, which ends the
     * callback before the queue is erased.
     */
    method Flush(contactId: Id, found: bool, throwing: Option<nat>)
      modifies this
      ensures Model() == Q.Flush(old(Model()), contactId, found, throwing)
    {
      ghost var before := settled;
      var waiting := if contactId in packetQueue then packetQueue[contactId] else [];
      var handled := 0;
      var threw := !found;
      while !threw && handled < |waiting|
        invariant packetQueue == old(packetQueue) && requests == old(requests) && submitted == old(submitted)
        invariant contacts.idmap == old(contacts.idmap) && stuck == old(stuck)
        invariant handled <= Q.HandledOf(|waiting|, found, throwing)
        invariant threw ==> handled == Q.HandledOf(|waiting|, found, throwing) && (!found || handled < |waiting|)
        invariant found || threw
        invariant settled == before + Q.Settlements(waiting[..handled], Q.Handled)
        decreases !threw, |waiting| - handled
      {
        if throwing == Some(handled) {
          threw := true;
        } else {
          Settle(waiting[handled], Q.Handled);
          SettlementsSnoc(waiting, handled, Q.Handled);
          handled := handled + 1;
        }
      }
      assert waiting[..|waiting|] == waiting;
      if threw {
        if handled > 0 {
          stuck := stuck[contactId := handled];
          return;
        }
        assert settled == before + Q.Settlements(waiting[..0], Q.Failed);
        for i := 0 to |waiting|
          invariant packetQueue == old(packetQueue) && requests == old(requests) && submitted == old(submitted)
          invariant contacts.idmap == old(contacts.idmap) && stuck == old(stuck)
          invariant settled == before + Q.Settlements(waiting[..i], Q.Failed)
        {
          Settle(waiting[i], Q.Failed);
          SettlementsSnoc(waiting, i, Q.Failed);
        }
      }
      packetQueue := packetQueue - {contactId};
    }

    /** The identity service answers: the store keeps the answer, then the waiting queue is flushed. */
    method OnFetched(id: Id, found: bool, throwing: Option<nat>)
      requires id in requests
      modifies this, contacts
      ensures Model() == Q.Apply(old(Model()), Q.Fetched(id, found, throwing))
    {
      requests := requests - multiset{id};
      contacts.Emplace(id, found);
      Flush(id, found, throwing);
    }
  }

  lemma SettlementsSnoc(ms: seq<Q.Msg>, i: nat, fate: Q.Fate)
    requires i < |ms|
    ensures Q.Settlements(ms[..i + 1], fate) == Q.Settlements(ms[..i], fate) + [Q.Settlement(ms[i], fate)]
  {
  }
}
