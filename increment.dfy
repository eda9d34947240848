/**
 * counter/increment: broadcasting an op id to every peer of a snapshot of
 * the alive list and queueing it in `missedOps` for each peer whose call
 * fails.
 *
 * Inputs standing for the network, indexed by the position `i` of the peer
 * in the snapshot: `dial(i)` the dial outcomes of GetOrCreateConnection for
 * that peer, `callOk(i)` whether the PropagateIncrement call succeeds. A call
 * without a connection fails.
 */
module Increment {
  import opened Wrappers
  import Models

  /** The missed-op queue of a peer; an absent key reads as empty, as a nil
      slice does. */
  function QueueOf(m: map<string, seq<string>>, p: string): seq<string>
  {
    if p in m then m[p] else []
  }

  /** `n` copies of `x`. */
  function Repeat(x: string, n: nat): (r: seq<string>)
    ensures |r| == n && forall i :: 0 <= i < n ==> r[i] == x
    decreases n
  {
    if n == 0 then [] else Repeat(x, n - 1) + [x]
  }

  /** The missed-op map after the broadcast has reached the first `n`
      snapshot positions, given which positions were delivered: each
      undelivered position other than `self` appends `opId` to its peer's
      queue, in snapshot order. */
  function QueueFailures(m: map<string, seq<string>>, snapshot: seq<string>, self: string,
                         delivered: seq<bool>, opId: string, n: nat): map<string, seq<string>>
    requires n <= |snapshot| && n <= |delivered|
    decreases n
  {
    if n == 0 then m
    else
      var prev := QueueFailures(m, snapshot, self, delivered, opId, n - 1);
      var peer := snapshot[n - 1];
      if peer != self && !delivered[n - 1] then prev[peer := QueueOf(prev, peer) + [opId]] else prev
  }

  /** How many undelivered positions among the first `n` hold peer `p`
      (other than `self`). */
  function FailuresOf(snapshot: seq<string>, self: string, delivered: seq<bool>, p: string, n: nat): nat
    requires n <= |snapshot| && n <= |delivered|
    decreases n
  {
    if n == 0 then 0
    else FailuresOf(snapshot, self, delivered, p, n - 1)
         + (if snapshot[n - 1] == p && p != self && !delivered[n - 1] then 1 else 0)
  }

  /** Outcomes past position `n` do not matter for the first `n`. */
  lemma {:induction false} QueueFailuresPrefix(m: map<string, seq<string>>, snapshot: seq<string>, self: string,
                                               delivered: seq<bool>, extra: seq<bool>, opId: string, n: nat)
    requires n <= |snapshot| && n <= |delivered|
    ensures QueueFailures(m, snapshot, self, delivered + extra, opId, n)
            == QueueFailures(m, snapshot, self, delivered, opId, n)
    decreases n
  {
    if n > 0 {
      QueueFailuresPrefix(m, snapshot, self, delivered, extra, opId, n - 1);
      assert (delivered + extra)[n - 1] == delivered[n - 1];
    }
  }

  /** Per peer, the broadcast appends one `opId` for each of its failed
      positions and nothing else: existing entries for every peer are kept. */
  lemma {:induction false} QueueFailuresAt(m: map<string, seq<string>>, snapshot: seq<string>, self: string,
                                           delivered: seq<bool>, opId: string, p: string, n: nat)
    requires n <= |snapshot| && n <= |delivered|
    ensures QueueOf(QueueFailures(m, snapshot, self, delivered, opId, n), p)
            == QueueOf(m, p) + Repeat(opId, FailuresOf(snapshot, self, delivered, p, n))
    decreases n
  {
    if n == 0 {
      assert QueueOf(m, p) + Repeat(opId, 0) == QueueOf(m, p);
    } else {
      QueueFailuresAt(m, snapshot, self, delivered, opId, p, n - 1);
      var prev := QueueFailures(m, snapshot, self, delivered, opId, n - 1);
      var peer, ok := snapshot[n - 1], delivered[n - 1];
      assert QueueOf(if peer != self && !ok then prev[peer := QueueOf(prev, peer) + [opId]] else prev, p)
             == if peer == p && peer != self && !ok then QueueOf(prev, p) + [opId] else QueueOf(prev, p);
      if peer == p && p != self && !ok {
        var before, added := QueueOf(m, p), Repeat(opId, FailuresOf(snapshot, self, delivered, p, n - 1));
        assert (before + added) + [opId] == before + (added + [opId]);
      }
    }
  }

  /** A peer has an entry after the broadcast exactly when it had one before
      or one of its positions failed. */
  lemma {:induction false} QueueFailuresKeys(m: map<string, seq<string>>, snapshot: seq<string>, self: string,
                                             delivered: seq<bool>, opId: string, p: string, n: nat)
    requires n <= |snapshot| && n <= |delivered|
    ensures p in QueueFailures(m, snapshot, self, delivered, opId, n)
            <==> p in m || FailuresOf(snapshot, self, delivered, p, n) > 0
    decreases n
  {
    if n > 0 {
      QueueFailuresKeys(m, snapshot, self, delivered, opId, p, n - 1);
    }
  }

  /** The node never queues for itself. */
  lemma {:induction false} NeverQueuesSelf(snapshot: seq<string>, self: string, delivered: seq<bool>, n: nat)
    requires n <= |snapshot| && n <= |delivered|
    ensures FailuresOf(snapshot, self, delivered, self, n) == 0
    decreases n
  {
    if n > 0 {
      NeverQueuesSelf(snapshot, self, delivered, n - 1);
    }
  }

  /** A peer none of whose positions failed is not counted. */
  lemma {:induction false} DeliveredNotCounted(snapshot: seq<string>, self: string, delivered: seq<bool>,
                                               p: string, n: nat)
    requires n <= |snapshot| && n <= |delivered|
    requires forall i :: 0 <= i < n && snapshot[i] == p ==> delivered[i]
    ensures FailuresOf(snapshot, self, delivered, p, n) == 0
    decreases n
  {
    if n > 0 {
      DeliveredNotCounted(snapshot, self, delivered, p, n - 1);
    }
  }

  /** In a snapshot without duplicates, a peer at a failed position is
      counted exactly once. */
  lemma {:induction false} FailedCountedOnce(snapshot: seq<string>, self: string, delivered: seq<bool>,
                                             i: nat, n: nat)
    requires n <= |snapshot| && n <= |delivered|
    requires forall a, b :: 0 <= a < b < |snapshot| ==> snapshot[a] != snapshot[b]
    requires i < n && snapshot[i] != self && !delivered[i]
    ensures FailuresOf(snapshot, self, delivered, snapshot[i], n) == 1
    decreases n
  {
    if i == n - 1 {
      DeliveredNotCounted(snapshot, self, delivered, snapshot[i], n - 1);
    } else {
      FailedCountedOnce(snapshot, self, delivered, i, n - 1);
    }
  }

  /** The broadcast, peer by peer: every peer of a duplicate-free snapshot
      whose call failed gets `opId` appended exactly once at the end of its
      queue; the node itself and peers whose call succeeded keep their queue
      (and a peer without a queue gets none). */
  lemma BroadcastQueues(m: map<string, seq<string>>, snapshot: seq<string>, self: string,
                        delivered: seq<bool>, opId: string)
    requires |delivered| == |snapshot|
    requires forall a, b :: 0 <= a < b < |snapshot| ==> snapshot[a] != snapshot[b]
    ensures forall i :: 0 <= i < |snapshot| && snapshot[i] != self && !delivered[i] ==>
              QueueOf(QueueFailures(m, snapshot, self, delivered, opId, |snapshot|), snapshot[i])
              == QueueOf(m, snapshot[i]) + [opId]
    ensures QueueOf(QueueFailures(m, snapshot, self, delivered, opId, |snapshot|), self) == QueueOf(m, self)
    ensures self in QueueFailures(m, snapshot, self, delivered, opId, |snapshot|) <==> self in m
    ensures forall i :: 0 <= i < |snapshot| && delivered[i] ==>
              QueueOf(QueueFailures(m, snapshot, self, delivered, opId, |snapshot|), snapshot[i])
              == QueueOf(m, snapshot[i])
  {
    var n := |snapshot|;
    var r := QueueFailures(m, snapshot, self, delivered, opId, n);
    forall i | 0 <= i < n && snapshot[i] != self && !delivered[i]
      ensures QueueOf(r, snapshot[i]) == QueueOf(m, snapshot[i]) + [opId]
    {
      QueueFailuresAt(m, snapshot, self, delivered, opId, snapshot[i], n);
      FailedCountedOnce(snapshot, self, delivered, i, n);
    }
    QueueFailuresAt(m, snapshot, self, delivered, opId, self, n);
    QueueFailuresKeys(m, snapshot, self, delivered, opId, self, n);
    NeverQueuesSelf(snapshot, self, delivered, n);
    forall i | 0 <= i < n && delivered[i]
      ensures QueueOf(r, snapshot[i]) == QueueOf(m, snapshot[i])
    {
      QueueFailuresAt(m, snapshot, self, delivered, opId, snapshot[i], n);
      DeliveredNotCounted(snapshot, self, delivered, snapshot[i], n);
    }
  }

  /** The pool after the broadcast has reached the first `n` snapshot
      positions: a position other than the node's own is dialed only when its
      peer is not pooled yet, and a successful dial is pooled. */
  function PoolAfter(pool: map<string, Models.Conn>, snapshot: seq<string>, self: string,
                     dial: nat -> nat -> Option<Models.Conn>, n: nat): map<string, Models.Conn>
    requires n <= |snapshot|
    decreases n
  {
    if n == 0 then pool
    else
      var prev := PoolAfter(pool, snapshot, self, dial, n - 1);
      var peer := snapshot[n - 1];
      if peer == self || peer in prev || Models.Dialed(dial(n - 1), 0).None? then prev
      else prev[peer := Models.Dialed(dial(n - 1), 0).value]
  }

  /** Reference for the peers the broadcast dials successfully among the
      first `n` positions, whether or not they were pooled already. */
  function DialedPeers(snapshot: seq<string>, self: string,
                       dial: nat -> nat -> Option<Models.Conn>, n: nat): set<string>
    requires n <= |snapshot|
    decreases n
  {
    if n == 0 then {}
    else DialedPeers(snapshot, self, dial, n - 1)
         + (if snapshot[n - 1] != self && Models.Dialed(dial(n - 1), 0).Some? then {snapshot[n - 1]} else {})
  }

  /** The broadcast only adds connections: every pooled one is kept as it
      was, and the pooled peers afterwards are those pooled before plus the
      peers dialed successfully. */
  lemma {:induction false} PoolAfterGrows(pool: map<string, Models.Conn>, snapshot: seq<string>, self: string,
                                          dial: nat -> nat -> Option<Models.Conn>, n: nat)
    requires n <= |snapshot|
    ensures forall p :: p in pool ==> p in PoolAfter(pool, snapshot, self, dial, n)
                                      && PoolAfter(pool, snapshot, self, dial, n)[p] == pool[p]
    ensures PoolAfter(pool, snapshot, self, dial, n).Keys == pool.Keys + DialedPeers(snapshot, self, dial, n)
    decreases n
  {
    if n > 0 {
      PoolAfterGrows(pool, snapshot, self, dial, n - 1);
    }
  }

  /** Whether snapshot position `i` has a connection when it is reached: its
      peer is pooled by then, or the dials made for it succeed. */
  predicate Connected(pool: map<string, Models.Conn>, snapshot: seq<string>, self: string,
                      dial: nat -> nat -> Option<Models.Conn>, i: nat)
    requires i < |snapshot|
  {
    snapshot[i] in PoolAfter(pool, snapshot, self, dial, i) || Models.Dialed(dial(i), 0).Some?
  }

  /** Which of the first `n` snapshot positions the broadcast delivers to:
      not the node itself, a connection is at hand, and the call succeeds. */
  function Deliveries(pool: map<string, Models.Conn>, snapshot: seq<string>, self: string,
                      dial: nat -> nat -> Option<Models.Conn>, callOk: nat -> bool, n: nat): seq<bool>
    requires n <= |snapshot|
    decreases n
  {
    if n == 0 then []
    else Deliveries(pool, snapshot, self, dial, callOk, n - 1)
         + [snapshot[n - 1] != self && callOk(n - 1) && Connected(pool, snapshot, self, dial, n - 1)]
  }

  /** Position by position: position `i` is delivered exactly when it is not
      the node itself, it is connected and its call succeeds. */
  lemma {:induction false} DeliveriesAt(pool: map<string, Models.Conn>, snapshot: seq<string>, self: string,
                                        dial: nat -> nat -> Option<Models.Conn>, callOk: nat -> bool, n: nat)
    requires n <= |snapshot|
    ensures |Deliveries(pool, snapshot, self, dial, callOk, n)| == n
    ensures forall i :: 0 <= i < n ==>
              (Deliveries(pool, snapshot, self, dial, callOk, n)[i]
               <==> snapshot[i] != self && callOk(i) && Connected(pool, snapshot, self, dial, i))
    decreases n
  {
    if n > 0 {
      DeliveriesAt(pool, snapshot, self, dial, callOk, n - 1);
    }
  }

  /** queueMissedOp: `opId` goes to the end of the peer's queue; every other
      entry is kept. */
  method QueueMissedOp(s: Models.Server, peer: string, opId: string)
    modifies s`missedOps
    ensures s.missedOps == old(s.missedOps)[peer := QueueOf(old(s.missedOps), peer) + [opId]]
  {
    s.missedOps := s.missedOps[peer := QueueOf(s.missedOps, peer) + [opId]];
  }

  /** One peer of the broadcast: the pooled or freshly dialed connection
      carries one call; without a connection, or when the call fails, `opId`
      is queued for the peer. */
  method DeliverTo(s: Models.Server, peer: string, opId: string, dial: nat -> Option<Models.Conn>, callOk: bool)
    returns (ok: bool)
    modifies s`missedOps, s`connPool
    ensures ok == ((peer in old(s.connPool) || Models.Dialed(dial, 0).Some?) && callOk)
    ensures s.missedOps == if ok then old(s.missedOps)
                           else old(s.missedOps)[peer := QueueOf(old(s.missedOps), peer) + [opId]]
    ensures s.connPool == if peer in old(s.connPool) || Models.Dialed(dial, 0).None? then old(s.connPool)
                          else old(s.connPool)[peer := Models.Dialed(dial, 0).value]
  {
    var conn, attempts := s.GetOrCreateConnection(peer, dial);
    ok := conn.Some? && callOk;
    if !ok {
      QueueMissedOp(s, peer, opId);
    }
  }

  /** PropagateIncrement (the broadcast): a snapshot of the alive list is
      walked in order; the node itself is skipped; each other peer gets one
      call over its pooled or freshly dialed connection, and `opId` is queued
      for it when the call fails. `delivered[i]` says whether position `i`
      received the op. Only `missedOps` and the pool change. */
  method PropagateIncrement(s: Models.Server, opId: string,
                            dial: nat -> nat -> Option<Models.Conn>, callOk: nat -> bool)
    returns (delivered: seq<bool>)
    modifies s`missedOps, s`connPool
    ensures delivered == Deliveries(old(s.connPool), old(s.peers), s.id, dial, callOk, |old(s.peers)|)
    ensures |delivered| == |old(s.peers)|
    ensures s.missedOps == QueueFailures(old(s.missedOps), old(s.peers), s.id, delivered, opId, |old(s.peers)|)
    ensures forall i :: 0 <= i < |delivered| ==>
              (delivered[i] <==> old(s.peers)[i] != s.id && callOk(i)
                                 && Connected(old(s.connPool), old(s.peers), s.id, dial, i))
    ensures s.connPool == PoolAfter(old(s.connPool), old(s.peers), s.id, dial, |old(s.peers)|)
  {
    var snapshot := s.peers;
    ghost var pool0 := s.connPool;
    delivered := [];
    var i := 0;
    while i < |snapshot|
      invariant 0 <= i <= |snapshot|
      invariant s.peers == snapshot
      invariant delivered == Deliveries(pool0, snapshot, s.id, dial, callOk, i)
      invariant |delivered| == i
      invariant s.missedOps == QueueFailures(old(s.missedOps), snapshot, s.id, delivered, opId, i)
      invariant s.connPool == PoolAfter(pool0, snapshot, s.id, dial, i)
    {
      var peer := snapshot[i];
      var ok := false;
      if peer != s.id {
        ok := DeliverTo(s, peer, opId, dial(i), callOk(i));
      }
      QueueFailuresPrefix(old(s.missedOps), snapshot, s.id, delivered, [ok], opId, i);
      delivered := delivered + [ok];
      i := i + 1;
    }
    DeliveriesAt(pool0, snapshot, s.id, dial, callOk, i);
  }
}
