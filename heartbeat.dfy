/**
 * discovery/heartbeat: the failure detector. The package-level table of
 * per-peer states and the ordered list of recovery actions are the fields of
 * a `Detector` object; one round of the monitoring loop is `Round`.
 *
 * Inputs standing for the network: `dial` the dial outcomes of
 * GetOrCreateConnection, `beat(k)` whether the k-th Heartbeat call succeeds,
 * `sendOk(j)(i)` whether the Resend action registered at position `j` gets
 * its i-th op through. In a round each is indexed first by the position of
 * the peer in the probe list.
 */
module Heartbeat {
  import opened Wrappers
  import Models
  import Arrays
  import Increment
  import Resend

  /** Heartbeat calls per probe before the peer counts as failed. */
  const MaxRetries: nat := 5

  /** The detector's belief about one peer. */
  datatype PeerState = PeerState(failures: nat, dead: bool)

  /** The recovery actions run when a peer heals (discovery/reconnect's
      Reconnect and counter/resend's Resend). */
  datatype RecoveryAction = ReconnectAction | ResendAction

  /** No element of `a` is in `b`. */
  predicate Disjoint(a: seq<string>, b: seq<string>)
  {
    forall x :: x in a ==> x !in b
  }

  function Pow2(k: nat): (p: nat)
    ensures p >= 1
  {
    if k == 0 then 1 else 2 * Pow2(k - 1)
  }

  /** The seconds slept after each of `failures` failed heartbeats: the base
      backoff of one second, doubled after every failure. */
  function ExponentialBackoff(failures: nat): (d: seq<nat>)
    ensures |d| == failures
    ensures forall i :: 0 <= i < failures ==> d[i] == Pow2(i)
  {
    seq(failures, i requires 0 <= i => Pow2(i))
  }

  /** The retry loop of checkHeartbeat: at most five Heartbeat calls, stopping
      at the first success, sleeping after each failure. */
  method ProbeWithRetry(beat: nat -> bool) returns (success: bool, attempts: nat, delays: seq<nat>)
    ensures 1 <= attempts <= MaxRetries
    ensures success <==> exists k :: 0 <= k < MaxRetries && beat(k)
    ensures forall k :: 0 <= k < attempts - 1 ==> !beat(k)
    ensures success ==> beat(attempts - 1) && delays == ExponentialBackoff(attempts - 1)
    ensures !success ==> attempts == MaxRetries && delays == ExponentialBackoff(MaxRetries)
  {
    var backoff: nat := 1;
    success := false;
    delays := [];
    var attempt := 0;
    while attempt < MaxRetries
      invariant 0 <= attempt <= MaxRetries
      invariant forall k :: 0 <= k < attempt ==> !beat(k)
      invariant backoff == Pow2(attempt)
      invariant delays == ExponentialBackoff(attempt)
    {
      if beat(attempt) {
        success := true;
        break;
      }
      delays := delays + [backoff];
      backoff := backoff * 2;
      attempt := attempt + 1;
    }
    attempts := if success then attempt + 1 else MaxRetries;
  }

  /** The peers of `order` the detector holds dead that are not in `listed`,
      in the order of `order`. */
  function DeadExtras(order: seq<string>, state: map<string, PeerState>, listed: seq<string>): (r: seq<string>)
    ensures forall x :: x in r ==> x in order && x in state && state[x].dead && x !in listed
  {
    if order == [] then []
    else
      var last := order[|order| - 1];
      DeadExtras(order[..|order| - 1], state, listed)
        + (if last in state && state[last].dead && last !in listed then [last] else [])
  }

  /** The probe list of one round: the alive peers, the dead peers, then the
      peers the detector holds dead that neither list has. */
  function ProbeList(peers: seq<string>, deadPeers: seq<string>, state: map<string, PeerState>,
                     order: seq<string>): seq<string>
  {
    peers + deadPeers + DeadExtras(order, state, peers + deadPeers)
  }

  /** Every peer the detector holds dead is probed. */
  lemma {:induction false} DeadAreProbed(peers: seq<string>, deadPeers: seq<string>,
                                         state: map<string, PeerState>, order: seq<string>, p: string)
    requires p in order && p in state && state[p].dead
    ensures p in ProbeList(peers, deadPeers, state, order)
  {
    if p !in peers + deadPeers {
      DeadExtrasHas(order, state, peers + deadPeers, p);
    }
  }

  lemma {:induction false} DeadExtrasHas(order: seq<string>, state: map<string, PeerState>,
                                         listed: seq<string>, p: string)
    requires p in order && p in state && state[p].dead && p !in listed
    ensures p in DeadExtras(order, state, listed)
  {
    var last := order[|order| - 1];
    if p != last {
      assert order == order[..|order| - 1] + [last];
      DeadExtrasHas(order[..|order| - 1], state, listed, p);
    }
  }

  /** The state after a probe: success clears the failures and the dead
      flag; exhausted retries add one failure and set the flag. */
  function AfterProbe(st: PeerState, success: bool): PeerState
  {
    if success then PeerState(0, false) else PeerState(st.failures + 1, true)
  }

  /** The queue left by a heal's Resend action over a pooled connection,
      where `ok(i)` says whether the i-th op gets through. */
  function Flushed(q: seq<string>, ok: nat -> bool): seq<string>
  {
    var sent := seq(|q|, i requires 0 <= i => ok(i));
    Resend.Keep(q, Resend.Resent(q, sent, |sent|))
  }

  /** The peer's queue after the first `n` recovery actions. */
  function Recovered(q: seq<string>, actions: seq<RecoveryAction>, sendOk: nat -> nat -> bool, n: nat): seq<string>
    requires n <= |actions|
    decreases n
  {
    if n == 0 then q
    else
      var prev := Recovered(q, actions, sendOk, n - 1);
      if actions[n - 1] == ResendAction && prev != [] then Flushed(prev, sendOk(n - 1)) else prev
  }

  /** The missed-op map after the detector's recovery actions ran for `peer`. */
  function RecoveredMap(m: map<string, seq<string>>, peer: string, actions: seq<RecoveryAction>,
                        sendOk: nat -> nat -> bool): map<string, seq<string>>
  {
    if peer in m then m[peer := Recovered(m[peer], actions, sendOk, |actions|)] else m
  }

  /** Recovery only drops ops: nothing enters the peer's queue that was
      not in it before. */
  lemma {:induction false} RecoveredOnlyDrops(q: seq<string>, actions: seq<RecoveryAction>,
                                              sendOk: nat -> nat -> bool, n: nat)
    requires n <= |actions|
    ensures forall x :: x in Recovered(q, actions, sendOk, n) ==> x in q
    decreases n
  {
    if n > 0 {
      RecoveredOnlyDrops(q, actions, sendOk, n - 1);
      var prev := Recovered(q, actions, sendOk, n - 1);
      if actions[n - 1] == ResendAction && prev != [] {
        var sent := seq(|prev|, i requires 0 <= i => sendOk(n - 1)(i));
        Resend.KeepMembers(prev, Resend.Resent(prev, sent, |sent|));
      }
    }
  }

  /** With the bootstrap's registration order (Reconnect, then Resend), a
      heal flushes the queue once; when every op gets through it is empty. */
  lemma StandardRecoveryFlushes(q: seq<string>, sendOk: nat -> nat -> bool)
    requires forall i :: 0 <= i < |q| ==> sendOk(1)(i)
    ensures Recovered(q, [ReconnectAction, ResendAction], sendOk, 2) == []
  {
    var actions := [ReconnectAction, ResendAction];
    assert Recovered(q, actions, sendOk, 1) == q;
    if q != [] {
      var sent := seq(|q|, i requires 0 <= i => sendOk(1)(i));
      Resend.AllResentEmpties(q, sent);
      assert Flushed(q, sendOk(1)) == [];
    }
  }

  /** The package-level detector state of heartbeat.go. */
  class Detector {
    var peersState: map<string, PeerState>
    var recoveryActions: seq<RecoveryAction>

    constructor ()
      ensures peersState == map[] && recoveryActions == []
    {
      peersState := map[];
      recoveryActions := [];
    }

    /** RegisterRecoveryAction: actions run in the order registered. */
    method RegisterRecoveryAction(action: RecoveryAction)
      modifies this`recoveryActions
      ensures recoveryActions == old(recoveryActions) + [action]
    {
      recoveryActions := recoveryActions + [action];
    }

    /** Steps 1 and 2 of a round: the alive and dead lists, then every dead
        peer of the table not yet listed, in the map's iteration order
        `order` (each key once). */
    method BuildProbeList(s: Models.Server, order: seq<string>) returns (probe: seq<string>)
      requires Arrays.NoDup(order)
      requires forall p :: p in order <==> p in peersState
      ensures probe == ProbeList(s.peers, s.deadPeers, peersState, order)
    {
      var base := s.peers + s.deadPeers;
      probe := base;
      var i := 0;
      while i < |order|
        invariant 0 <= i <= |order|
        invariant probe == base + DeadExtras(order[..i], peersState, base)
      {
        var peer := order[i];
        assert order[..i + 1][..i] == order[..i];
        assert peer !in DeadExtras(order[..i], peersState, base);
        ghost var extra := if peersState[peer].dead && peer !in base then [peer] else [];
        assert DeadExtras(order[..i + 1], peersState, base) == DeadExtras(order[..i], peersState, base) + extra;
        var listed := Arrays.Contains(probe, peer);
        if peersState[peer].dead && !listed {
          probe := probe + [peer];
        }
        assert probe == base + DeadExtras(order[..i], peersState, base) + extra;
        i := i + 1;
      }
      assert order[..i] == order;
    }

    /** A probed peer without a table entry gets a fresh one. */
    method EnsureState(peer: string)
      modifies this`peersState
      ensures peersState == if peer in old(peersState) then old(peersState)
                            else old(peersState)[peer := PeerState(0, false)]
    {
      if peer !in peersState {
        peersState := peersState[peer := PeerState(0, false)];
      }
    }

    /** The registered recovery actions, in order, for a healed peer whose
        connection is pooled: Reconnect reuses it and only sends two calls;
        Resend flushes the peer's queue over it. */
    method RunRecoveryActions(s: Models.Server, peer: string, dial: nat -> Option<Models.Conn>,
                              sendOk: nat -> nat -> bool)
      returns (ran: seq<RecoveryAction>)
      requires peer in s.connPool
      modifies s`missedOps, s`connPool
      ensures ran == recoveryActions
      ensures s.connPool == old(s.connPool)
      ensures s.missedOps == RecoveredMap(old(s.missedOps), peer, recoveryActions, sendOk)
    {
      ran := [];
      var j := 0;
      while j < |recoveryActions|
        invariant 0 <= j <= |recoveryActions|
        invariant ran == recoveryActions[..j]
        invariant s.connPool == old(s.connPool)
        invariant s.missedOps == if peer in old(s.missedOps)
                                 then old(s.missedOps)[peer := Recovered(old(s.missedOps)[peer], recoveryActions, sendOk, j)]
                                 else old(s.missedOps)
      {
        var action := recoveryActions[j];
        assert recoveryActions[..j + 1] == recoveryActions[..j] + [action];
        if action == ReconnectAction {
          var conn, attempts := s.GetOrCreateConnection(peer, dial);
        } else {
          var attempted, sent := Resend.Execute(s, peer, dial, sendOk(j));
          if attempted != [] {
            assert sent == seq(|attempted|, i requires 0 <= i => sendOk(j)(i));
          }
        }
        ran := ran + [action];
        j := j + 1;
      }
    }

    /** handleHeartbeatResult. Success resets the failures; on a dead peer it
        clears the flag, appends the peer to the alive list (without a
        duplicate check), removes it from the dead list and runs the recovery
        actions. Failure adds a failure; on an alive peer it sets the flag,
        removes the peer from the alive list, appends it to the dead list and
        evicts its pooled connection (closeConnection). */
    method HandleHeartbeatResult(s: Models.Server, peer: string, success: bool,
                                 dial: nat -> Option<Models.Conn>, sendOk: nat -> nat -> bool)
      returns (ran: seq<RecoveryAction>)
      requires peer in peersState
      requires peer in s.connPool
      modifies this`peersState, s`peers, s`deadPeers, s`connPool, s`missedOps
      ensures peersState == old(peersState)[peer := AfterProbe(old(peersState)[peer], success)]
      ensures success && old(peersState)[peer].dead ==>
                && s.peers == old(s.peers) + [peer]
                && s.deadPeers == Arrays.Without(old(s.deadPeers), peer)
                && ran == recoveryActions
                && s.missedOps == RecoveredMap(old(s.missedOps), peer, recoveryActions, sendOk)
                && s.connPool == old(s.connPool)
      ensures !success && !old(peersState)[peer].dead ==>
                && s.peers == Arrays.Without(old(s.peers), peer)
                && s.deadPeers == old(s.deadPeers) + [peer]
                && s.connPool == old(s.connPool) - {peer}
                && ran == [] && s.missedOps == old(s.missedOps)
      ensures (success && !old(peersState)[peer].dead) || (!success && old(peersState)[peer].dead) ==>
                && s.peers == old(s.peers) && s.deadPeers == old(s.deadPeers)
                && s.connPool == old(s.connPool) && s.missedOps == old(s.missedOps) && ran == []
      ensures Disjoint(old(s.peers), old(s.deadPeers)) ==> Disjoint(s.peers, s.deadPeers)
    {
      var state := peersState[peer];
      ran := [];
      if success {
        peersState := peersState[peer := PeerState(0, state.dead)];
        if state.dead {
          peersState := peersState[peer := PeerState(0, false)];
          s.peers := s.peers + [peer];
          s.deadPeers := Arrays.Remove(s.deadPeers, peer);
          ran := RunRecoveryActions(s, peer, dial, sendOk);
        }
      } else {
        peersState := peersState[peer := PeerState(state.failures + 1, state.dead)];
        if !state.dead {
          peersState := peersState[peer := PeerState(state.failures + 1, true)];
          s.peers := Arrays.Remove(s.peers, peer);
          s.deadPeers := s.deadPeers + [peer];
          CloseConnection(s, peer);
        }
      }
    }

    /** checkHeartbeat: obtain a connection (no change at all for this round
        when none can be had), probe with retries, then apply the result. */
    method CheckHeartbeat(s: Models.Server, peer: string, dial: nat -> Option<Models.Conn>,
                          beat: nat -> bool, sendOk: nat -> nat -> bool)
      returns (connected: bool, success: bool, delays: seq<nat>, ran: seq<RecoveryAction>)
      requires peer in peersState
      modifies this`peersState, s`peers, s`deadPeers, s`connPool, s`missedOps
      ensures connected <==> peer in old(s.connPool) || Models.Dialed(dial, 0).Some?
      ensures !connected ==>
                && peersState == old(peersState) && s.peers == old(s.peers) && s.deadPeers == old(s.deadPeers)
                && s.connPool == old(s.connPool) && s.missedOps == old(s.missedOps)
                && !success && delays == [] && ran == []
      ensures connected ==> (success <==> exists k :: 0 <= k < MaxRetries && beat(k))
      ensures connected ==> peersState == old(peersState)[peer := AfterProbe(old(peersState)[peer], success)]
      ensures connected && success && old(peersState)[peer].dead ==>
                && s.peers == old(s.peers) + [peer]
                && s.deadPeers == Arrays.Without(old(s.deadPeers), peer)
                && ran == recoveryActions
                && s.missedOps == RecoveredMap(old(s.missedOps), peer, recoveryActions, sendOk)
      ensures connected && !success && !old(peersState)[peer].dead ==>
                && s.peers == Arrays.Without(old(s.peers), peer)
                && s.deadPeers == old(s.deadPeers) + [peer]
                && s.connPool == old(s.connPool) - {peer}
                && s.missedOps == old(s.missedOps)
      ensures connected && success == !old(peersState)[peer].dead ==>
                && s.peers == old(s.peers) && s.deadPeers == old(s.deadPeers)
                && s.missedOps == old(s.missedOps) && ran == []
      ensures Disjoint(old(s.peers), old(s.deadPeers)) ==> Disjoint(s.peers, s.deadPeers)
    {
      var conn, dials := s.GetOrCreateConnection(peer, dial);
      if conn.None? {
        return false, false, [], [];
      }
      connected := true;
      var attempts;
      success, attempts, delays := ProbeWithRetry(beat);
      ran := HandleHeartbeatResult(s, peer, success, dial, sendOk);
    }

    /** One iteration of MonitorHeartbeats: the probe list is built, the
        node's own id skipped, and every other listed peer gets a table
        entry and one probe. `probed` lists the peers probed, in order. */
    method Round(s: Models.Server, order: seq<string>, dial: nat -> nat -> Option<Models.Conn>,
                 beat: nat -> nat -> bool, sendOk: nat -> nat -> nat -> bool)
      returns (probed: seq<string>)
      requires Arrays.NoDup(order)
      requires forall p :: p in order <==> p in peersState
      modifies this`peersState, s`peers, s`deadPeers, s`connPool, s`missedOps
      ensures probed == Arrays.Without(ProbeList(old(s.peers), old(s.deadPeers), old(peersState), order), s.id)
      ensures s.id !in probed
      ensures peersState.Keys == old(peersState).Keys + set p | p in probed
      ensures Disjoint(old(s.peers), old(s.deadPeers)) ==> Disjoint(s.peers, s.deadPeers)
    {
      var probe := BuildProbeList(s, order);
      ghost var keys0 := peersState.Keys;
      ghost var disjoint0 := Disjoint(s.peers, s.deadPeers);
      probed := [];
      var i := 0;
      while i < |probe|
        invariant 0 <= i <= |probe|
        invariant probed == Arrays.Without(probe[..i], s.id)
        invariant forall p :: p in peersState <==> p in keys0 || p in probed
        invariant disjoint0 ==> Disjoint(s.peers, s.deadPeers)
      {
        var peer := probe[i];
        assert probe[..i + 1][..i] == probe[..i];
        if peer != s.id {
          EnsureState(peer);
          var connected, success, delays, ran := CheckHeartbeat(s, peer, dial(i), beat(i), sendOk(i));
          probed := probed + [peer];
        }
        i := i + 1;
      }
      assert probe[..i] == probe;
    }
  }

  /** closeConnection: the peer's pooled connection is closed and evicted. */
  method CloseConnection(s: Models.Server, peer: string)
    modifies s`connPool
    ensures s.connPool == old(s.connPool) - {peer}
  {
    s.connPool := s.connPool - {peer};
  }
}
