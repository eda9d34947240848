/**
 * The node record of models/server.go and its RPC handlers.
 *
 * The record is a class whose fields the handlers update in place. The
 * unbuffered increment channel is an explicit FIFO `incrementChan` of op ids
 * handed to the consumer (Web.ApplyIncrement) and not yet applied. Every
 * locked region is one atomic step. Each dial attempt's outcome is an input:
 * `dial(k)` is the connection the k-th attempt yields, or None if it fails.
 */
module Models {
  import opened Wrappers
  import Arrays

  /** An open transport channel to a peer, as an opaque handle. */
  datatype Conn = Conn(handle: nat)

  /** Dial attempts made by GetOrCreateConnection before it gives up. */
  const MaxDialAttempts: nat := 5

  /** The seconds slept after each of `failures` failed dials: 1, 2, 3, ... */
  function LinearBackoff(failures: nat): (d: seq<nat>)
    ensures |d| == failures
    ensures forall i :: 0 <= i < failures ==> d[i] == i + 1
  {
    seq(failures, i => i + 1)
  }

  /** The connection the dial loop ends with, trying attempts `from` .. 4. */
  function Dialed(dial: nat -> Option<Conn>, from: nat): Option<Conn>
    decreases MaxDialAttempts - from
  {
    if from >= MaxDialAttempts then None
    else if dial(from).Some? then dial(from)
    else Dialed(dial, from + 1)
  }

  /** The dial loop of GetOrCreateConnection: at most five attempts, linear
      backoff after each failure, stopping at the first success. */
  method DialWithRetry(dial: nat -> Option<Conn>) returns (conn: Option<Conn>, attempts: nat, delays: seq<nat>)
    ensures 1 <= attempts <= MaxDialAttempts
    ensures forall k :: 0 <= k < attempts - 1 ==> dial(k).None?
    ensures conn.Some? ==> conn == dial(attempts - 1) && delays == LinearBackoff(attempts - 1)
    ensures conn.None? ==> attempts == MaxDialAttempts && dial(attempts - 1).None?
                           && delays == LinearBackoff(MaxDialAttempts)
    ensures conn == Dialed(dial, 0)
  {
    delays := [];
    var attempt := 0;
    while attempt < MaxDialAttempts
      invariant 0 <= attempt <= MaxDialAttempts
      invariant forall k :: 0 <= k < attempt ==> dial(k).None?
      invariant delays == LinearBackoff(attempt)
      invariant Dialed(dial, 0) == Dialed(dial, attempt)
    {
      var outcome := dial(attempt);
      if outcome.Some? {
        return outcome, attempt + 1, delays;
      }
      delays := delays + [attempt + 1];
      attempt := attempt + 1;
    }
    return None, MaxDialAttempts, delays;
  }

  /** The counter-related part of the record: the counter, the applied op
      ids and the op ids queued on the increment channel. */
  datatype Ledger = Ledger(counter: int, seenOps: set<string>, pending: seq<string>)

  /** The PropagateIncrement handler: an op id not yet seen is queued. */
  function Receive(l: Ledger, opId: string): Ledger
  {
    if opId in l.seenOps then l else l.(pending := l.pending + [opId])
  }

  /** One step of the channel consumer: the oldest queued op is applied. */
  function ApplyNext(l: Ledger): Ledger
    requires l.pending != []
  {
    Ledger(l.counter + 1, l.seenOps + {l.pending[0]}, l.pending[1..])
  }

  /** The consumer applies everything queued. */
  function Settle(l: Ledger): Ledger
    decreases |l.pending|
  {
    if l.pending == [] then l else Settle(ApplyNext(l))
  }

  /** One delivery of `opId` followed by the consumer catching up, `n` times. */
  function DeliverTimes(l: Ledger, opId: string, n: nat): Ledger
    decreases n
  {
    if n == 0 then l else DeliverTimes(Settle(Receive(l, opId)), opId, n - 1)
  }

  /** Settling applies every queued op: the counter rises by the number of
      queued ops and every one of them becomes seen. */
  lemma {:induction false} SettleApplies(l: Ledger)
    ensures Settle(l).pending == []
    ensures Settle(l).counter == l.counter + |l.pending|
    ensures Settle(l).seenOps == l.seenOps + set x | x in l.pending
    decreases |l.pending|
  {
    if l.pending != [] {
      var next := ApplyNext(l);
      SettleApplies(next);
      assert l.pending == [l.pending[0]] + next.pending;
      assert (set x | x in l.pending) == {l.pending[0]} + set x | x in next.pending;
    }
  }

  /** The handler never changes the counter, and the consumer only raises it. */
  lemma CounterMonotone(l: Ledger, opId: string)
    ensures Receive(l, opId).counter == l.counter
    ensures Settle(l).counter >= l.counter
    ensures Settle(Receive(l, opId)).counter >= l.counter
  {
    SettleApplies(l);
    SettleApplies(Receive(l, opId));
  }

  /** Delivering the same op id n >= 1 times, one after another, raises the
      counter by exactly one if it was unseen and by zero otherwise. */
  lemma {:induction false} RepeatedDeliveryCountsOnce(l: Ledger, opId: string, n: nat)
    requires l.pending == [] && n >= 1
    ensures DeliverTimes(l, opId, n).counter == l.counter + (if opId in l.seenOps then 0 else 1)
    ensures DeliverTimes(l, opId, n).seenOps == l.seenOps + {opId}
    ensures DeliverTimes(l, opId, n).pending == []
  {
    var once := Settle(Receive(l, opId));
    SettleApplies(Receive(l, opId));
    if opId !in l.seenOps {
      assert (set x | x in [opId]) == {opId};
    }
    assert once.counter == l.counter + (if opId in l.seenOps then 0 else 1);
    assert opId in once.seenOps && once.pending == [];
    if n > 1 {
      SeenDeliveryIsNoop(once, opId, n - 1);
    }
  }

  /** Delivering an already seen op id changes nothing, however often. */
  lemma {:induction false} SeenDeliveryIsNoop(l: Ledger, opId: string, n: nat)
    requires l.pending == [] && opId in l.seenOps
    ensures DeliverTimes(l, opId, n) == l
  {
    if n > 0 {
      assert Settle(Receive(l, opId)) == l;
      SeenDeliveryIsNoop(l, opId, n - 1);
    }
  }

  /** The handler checks only the applied ids, not those still queued: two
      deliveries of an unseen op id before the consumer runs queue it twice,
      and the consumer then counts it twice. */
  lemma UnsettledDeliveryCountsTwice(l: Ledger, opId: string)
    requires opId !in l.seenOps
    ensures Receive(Receive(l, opId), opId).pending == l.pending + [opId, opId]
    ensures Settle(Receive(Receive(l, opId), opId)).counter == l.counter + |l.pending| + 2
  {
    SettleApplies(Receive(Receive(l, opId), opId));
  }

  /** The alive list after Register: the requester is appended unless it is
      already there. */
  function WithPeer(peers: seq<string>, requester: string): (r: seq<string>)
    ensures peers <= r && requester in r
    ensures forall x :: x in r <==> x in peers || x == requester
  {
    if requester in peers then peers else peers + [requester]
  }

  /** Registering twice is registering once, and it is the de-duplicating
      append of the one requester. */
  lemma RegisterIdempotent(peers: seq<string>, requester: string)
    ensures WithPeer(WithPeer(peers, requester), requester) == WithPeer(peers, requester)
    ensures WithPeer(peers, requester) == Arrays.AppendedUnique(peers, [requester])
  {
    Arrays.AppendedUniqueOne(peers, requester);
  }

  /** The node record (models.Server). */
  class Server {
    const id: string
    var peers: seq<string>
    var deadPeers: seq<string>
    var counter: int
    var missedOps: map<string, seq<string>>
    var seenOps: set<string>
    var connPool: map<string, Conn>
    var incrementChan: seq<string>

    /** The counter-related fields as one value. */
    function LedgerView(): Ledger
      reads this
    {
      Ledger(counter, seenOps, incrementChan)
    }

    /** NewServer: the node knows only itself. */
    constructor (nodeId: string)
      ensures id == nodeId && peers == [nodeId] && deadPeers == []
      ensures counter == 0 && seenOps == {} && missedOps == map[]
      ensures connPool == map[] && incrementChan == []
    {
      id := nodeId;
      peers := [nodeId];
      deadPeers := [];
      counter := 0;
      missedOps := map[];
      seenOps := {};
      connPool := map[];
      incrementChan := [];
    }

    /** Register: the requester is added to the alive list unless it is
        already there (the dead list is not consulted), and the reply is
        every peer known, alive then dead. */
    method Register(requester: string) returns (response: seq<string>)
      modifies this`peers
      ensures peers == WithPeer(old(peers), requester)
      ensures requester in old(peers) ==> peers == old(peers)
      ensures response == peers + deadPeers
    {
      var present := Arrays.Contains(peers, requester);
      if !present {
        peers := peers + [requester];
      }
      response := peers + deadPeers;
    }

    /** GetPeers: the alive then the dead peers; nothing changes. */
    method GetPeers() returns (response: seq<string>)
      ensures response == peers + deadPeers
    {
      response := peers + deadPeers;
    }

    /** Heartbeat: always alive; nothing changes. */
    method Heartbeat(sender: string) returns (alive: bool)
      ensures alive
    {
      alive := true;
    }

    /** GetCounter: the current counter; nothing changes. */
    method GetCounter() returns (value: int)
      ensures value == counter
    {
      value := counter;
    }

    /** PropagateIncrement handler: a seen op id is acknowledged and ignored,
        an unseen one is queued once for the consumer; the reply is always
        success. */
    method PropagateIncrement(opId: string) returns (success: bool)
      modifies this`incrementChan
      ensures success
      ensures opId in seenOps ==> incrementChan == old(incrementChan)
      ensures opId !in seenOps ==> incrementChan == old(incrementChan) + [opId]
      ensures LedgerView() == Receive(old(LedgerView()), opId)
    {
      if opId in seenOps {
        return true;
      }
      incrementChan := incrementChan + [opId];
      return true;
    }

    /** GetOrCreateConnection: a pooled connection is returned without
        dialing; otherwise up to five dials are made and the first success is
        pooled. After five failures nothing is pooled and None is returned. */
    method GetOrCreateConnection(peer: string, dial: nat -> Option<Conn>) returns (conn: Option<Conn>, attempts: nat)
      modifies this`connPool
      ensures peer in old(connPool) ==>
                conn == Some(old(connPool)[peer]) && attempts == 0 && connPool == old(connPool)
      ensures peer !in old(connPool) ==> 1 <= attempts <= MaxDialAttempts && conn == Dialed(dial, 0)
      ensures peer !in old(connPool) && conn.Some? ==> connPool == old(connPool)[peer := conn.value]
      ensures peer !in old(connPool) && conn.None? ==> connPool == old(connPool)
      ensures conn.Some? <==> peer in connPool
      ensures conn.Some? ==> conn.value == connPool[peer]
    {
      if peer in connPool {
        return Some(connPool[peer]), 0;
      }
      var delays;
      conn, attempts, delays := DialWithRetry(dial);
      if conn.Some? {
        connPool := connPool[peer := conn.value];
      }
    }
  }
}
