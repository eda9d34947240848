/**
 * counter/resend: the Resend recovery action, which flushes the missed-op
 * queue of a healed peer op by op.
 *
 * Inputs standing for the network: `dial` the dial outcomes used when the
 * peer has no pooled connection, `sendOk(i)` whether the PropagateIncrement
 * call for the i-th op of the snapshot succeeds. A call without a connection
 * fails.
 */
module Resend {
  import opened Wrappers
  import Models
  import Arrays
  import Increment

  /** The op ids among the first `n` snapshot positions whose resend
      succeeded. */
  function Resent(snapshot: seq<string>, sent: seq<bool>, n: nat): set<string>
    requires n <= |snapshot| && n <= |sent|
    decreases n
  {
    if n == 0 then {}
    else Resent(snapshot, sent, n - 1) + (if sent[n - 1] then {snapshot[n - 1]} else {})
  }

  /** Outcomes past position `n` do not matter for the first `n`. */
  lemma {:induction false} ResentPrefix(snapshot: seq<string>, sent: seq<bool>, extra: seq<bool>, n: nat)
    requires n <= |snapshot| && n <= |sent|
    ensures Resent(snapshot, sent + extra, n) == Resent(snapshot, sent, n)
    decreases n
  {
    if n > 0 {
      ResentPrefix(snapshot, sent, extra, n - 1);
    }
  }

  /** Exactly the ops at successful positions are resent. */
  lemma {:induction false} ResentMembers(snapshot: seq<string>, sent: seq<bool>, n: nat)
    requires n <= |snapshot| && n <= |sent|
    ensures forall i :: 0 <= i < n && sent[i] ==> snapshot[i] in Resent(snapshot, sent, n)
    ensures forall x :: x in Resent(snapshot, sent, n) ==>
              exists i :: 0 <= i < n && sent[i] && snapshot[i] == x
    decreases n
  {
    if n > 0 {
      ResentMembers(snapshot, sent, n - 1);
    }
  }

  /** `q` without the ops of `gone`, the rest kept in order. */
  function Keep(q: seq<string>, gone: set<string>): seq<string>
  {
    if q == [] then []
    else Keep(q[..|q| - 1], gone) + (if q[|q| - 1] in gone then [] else [q[|q| - 1]])
  }

  /** An op is kept exactly when it is queued and not gone. */
  lemma {:induction false} KeepMembers(q: seq<string>, gone: set<string>)
    ensures forall x :: x in Keep(q, gone) <==> x in q && x !in gone
  {
    if q != [] {
      var q' := q[..|q| - 1];
      KeepMembers(q', gone);
      assert q == q' + [q[|q| - 1]];
    }
  }

  /** Removing one more op from the kept ops keeps fewer. */
  lemma {:induction false} KeepStep(q: seq<string>, gone: set<string>, x: string)
    ensures Arrays.Without(Keep(q, gone), x) == Keep(q, gone + {x})
  {
    if q != [] {
      var q' := q[..|q| - 1];
      KeepStep(q', gone, x);
      var tail := if q[|q| - 1] in gone then [] else [q[|q| - 1]];
      Arrays.WithoutConcat(Keep(q', gone), tail, x);
    }
  }

  /** Nothing gone: the queue is kept whole. */
  lemma {:induction false} KeepNothing(q: seq<string>)
    ensures Keep(q, {}) == q
  {
    if q != [] {
      KeepNothing(q[..|q| - 1]);
      assert q == q[..|q| - 1] + [q[|q| - 1]];
    }
  }

  /** An op not removed keeps its multiplicity: with the left-to-right
      definition, Keep is the filter of `q` by `!in gone`. */
  lemma {:induction false} KeepCounts(q: seq<string>, gone: set<string>)
    ensures forall x :: x !in gone ==> multiset(Keep(q, gone))[x] == multiset(q)[x]
    ensures forall x :: x in gone ==> multiset(Keep(q, gone))[x] == 0
  {
    if q != [] {
      var q' := q[..|q| - 1];
      assert q == q' + [q[|q| - 1]];
      KeepCounts(q', gone);
    }
  }

  /** Everything gone: nothing is kept. */
  lemma {:induction false} KeepAllGone(q: seq<string>, gone: set<string>)
    requires forall i :: 0 <= i < |q| ==> q[i] in gone
    ensures Keep(q, gone) == []
  {
    if q != [] {
      KeepAllGone(q[..|q| - 1], gone);
    }
  }

  /** When every resend succeeds the queue ends empty. */
  lemma AllResentEmpties(snapshot: seq<string>, sent: seq<bool>)
    requires |sent| == |snapshot|
    requires forall i :: 0 <= i < |sent| ==> sent[i]
    ensures Keep(snapshot, Resent(snapshot, sent, |snapshot|)) == []
  {
    ResentMembers(snapshot, sent, |snapshot|);
    KeepAllGone(snapshot, Resent(snapshot, sent, |snapshot|));
  }

  /** Writing a key twice is writing it once, with the second value. */
  lemma UpdateTwice(m: map<string, seq<string>>, k: string, a: seq<string>, b: seq<string>)
    ensures m[k := a][k := b] == m[k := b]
  {
  }

  /** Resend.Execute: the peer's queue is snapshotted; an empty snapshot ends
      the action with no call; otherwise each op of the snapshot is sent once,
      in queue order, and each op whose send succeeds is removed from the
      queue. Other peers' queues and every other field are untouched. */
  method Execute(s: Models.Server, peer: string, dial: nat -> Option<Models.Conn>, sendOk: nat -> bool)
    returns (attempted: seq<string>, sent: seq<bool>)
    modifies s`missedOps, s`connPool
    ensures attempted == Increment.QueueOf(old(s.missedOps), peer) && |sent| == |attempted|
    ensures attempted == [] ==> s.missedOps == old(s.missedOps) && s.connPool == old(s.connPool)
    ensures attempted != [] ==>
              s.missedOps == old(s.missedOps)[peer := Keep(attempted, Resent(attempted, sent, |attempted|))]
    ensures attempted != [] ==>
              s.connPool == if peer in old(s.connPool) || Models.Dialed(dial, 0).None? then old(s.connPool)
                            else old(s.connPool)[peer := Models.Dialed(dial, 0).value]
    ensures forall i :: 0 <= i < |sent| ==>
              (sent[i] <==> sendOk(i) && (peer in old(s.connPool) || Models.Dialed(dial, 0).Some?))
  {
    var snapshot := Increment.QueueOf(s.missedOps, peer);
    attempted, sent := snapshot, [];
    if |snapshot| == 0 {
      return;
    }
    var conn, attempts := s.GetOrCreateConnection(peer, dial);
    assert s.missedOps == old(s.missedOps)[peer := snapshot];
    sent := SendSnapshot(s, peer, snapshot, conn.Some?, sendOk);
  }

  /** The send loop of Resend.Execute, with the peer's queue equal to the
      snapshot on entry: op `i` gets through when there is a connection and
      `sendOk(i)`, and each op that gets through is removed from the queue. */
  method SendSnapshot(s: Models.Server, peer: string, snapshot: seq<string>, connected: bool, sendOk: nat -> bool)
    returns (sent: seq<bool>)
    requires peer in s.missedOps && s.missedOps[peer] == snapshot
    modifies s`missedOps
    ensures |sent| == |snapshot|
    ensures s.missedOps == old(s.missedOps)[peer := Keep(snapshot, Resent(snapshot, sent, |snapshot|))]
    ensures forall k :: 0 <= k < |sent| ==> sent[k] == (connected && sendOk(k))
  {
    sent := [];
    KeepNothing(snapshot);
    assert Resent(snapshot, sent, 0) == {};
    var i := 0;
    while i < |snapshot|
      invariant 0 <= i <= |snapshot| && |sent| == i
      invariant s.missedOps == old(s.missedOps)[peer := Keep(snapshot, Resent(snapshot, sent, i))]
      invariant forall k :: 0 <= k < i ==> sent[k] == (connected && sendOk(k))
    {
      var opId := snapshot[i];
      var ok := connected && sendOk(i);
      ghost var before := Resent(snapshot, sent, i);
      ghost var after := if ok then before + {opId} else before;
      ResentPrefix(snapshot, sent, [ok], i);
      assert Resent(snapshot, sent + [ok], i + 1) == after;
      if ok {
        var rest := Arrays.Remove(s.missedOps[peer], opId);
        KeepStep(snapshot, before, opId);
        s.missedOps := s.missedOps[peer := rest];
        UpdateTwice(old(s.missedOps), peer, Keep(snapshot, before), rest);
      }
      sent := sent + [ok];
      i := i + 1;
    }
  }
}
