/**
 * discovery/client: the bootstrap. The node registers with each initial
 * address and, depth first, with every peer a registration returns,
 * syncing its counter from the registered peer along the way.
 *
 * Inputs standing for the network: `dialOk(a)` whether dialing `a`
 * succeeds, `register(a)` the peer list `a` answers Register with (None when
 * the call fails), `counterReply(a)(k)` what `a` answers the GetCounter call
 * made for the k-th returned peer (made only when that peer is not yet
 * alive). The network is finite: every address a
 * registration can return lies in `universe`, a ghost set, and that is what
 * makes the depth-first walk terminate.
 */
module Client {
  import opened Wrappers
  import Models
  import Arrays
  import CounterSync
  import Heartbeat

  /** Every registration answered by an address of `universe` returns
      addresses of `universe` only. */
  ghost predicate Closed(universe: set<string>, register: string -> Option<seq<string>>)
  {
    forall a :: a in universe && register(a).Some? ==> forall p :: p in register(a).value ==> p in universe
  }

  /** If registering with `a` succeeds, `a` and every peer it returned are in
      `peers`. */
  predicate Joined(a: string, peers: seq<string>, dialOk: string -> bool, register: string -> Option<seq<string>>)
  {
    dialOk(a) && register(a).Some? ==> a in peers && forall p :: p in register(a).value ==> p in peers
  }

  /** The counter after the sync loop over the first `n` peers of `resp`:
      a GetCounter reply is merged for each peer not in `known`. */
  function JoinedCounter(local: int, known: seq<string>, resp: seq<string>,
                         reply: nat -> Option<int>, n: nat): int
    requires n <= |resp|
    decreases n
  {
    if n == 0 then local
    else
      var prev := JoinedCounter(local, known, resp, reply, n - 1);
      if resp[n - 1] !in known then CounterSync.Synced(prev, reply(n - 1)) else prev
  }

  /** The sync loop takes a maximum: the result is at least the local
      counter and every value a newly learned peer's query returned, and it
      is one of those values. */
  lemma {:induction false} JoinedCounterIsMax(local: int, known: seq<string>, resp: seq<string>,
                                             reply: nat -> Option<int>, n: nat)
    requires n <= |resp|
    ensures JoinedCounter(local, known, resp, reply, n) >= local
    ensures forall k :: 0 <= k < n && resp[k] !in known && reply(k).Some? ==>
              JoinedCounter(local, known, resp, reply, n) >= reply(k).value
    ensures JoinedCounter(local, known, resp, reply, n) == local
            || exists k :: 0 <= k < n && resp[k] !in known && reply(k) == Some(JoinedCounter(local, known, resp, reply, n))
    decreases n
  {
    if n > 0 {
      JoinedCounterIsMax(local, known, resp, reply, n - 1);
      var prev := JoinedCounter(local, known, resp, reply, n - 1);
      var r := JoinedCounter(local, known, resp, reply, n);
      if resp[n - 1] !in known && reply(n - 1).Some? && r != prev {
        assert resp[n - 1] !in known && reply(n - 1) == Some(r);
      }
    }
  }

  /** Every address of `done` whose registration succeeded has had each
      peer it returned, other than `self` and the empty address, visited. */
  ghost predicate Covered(done: set<string>, visited: set<string>, self: string,
                          dialOk: string -> bool, register: string -> Option<seq<string>>)
  {
    forall a :: a in done && dialOk(a) && register(a).Some? ==>
      forall p :: p in register(a).value && p != self && p != "" ==> p in visited
  }

  /** `p` was learned from an address of `done`: it is that address, dialed
      and registered with successfully, or a peer that registration returned. */
  ghost predicate Learned(p: string, done: set<string>,
                          dialOk: string -> bool, register: string -> Option<seq<string>>)
  {
    exists a :: a in done && dialOk(a) && register(a).Some? && (p == a || p in register(a).value)
  }

  /** Two growth steps of the alive list compose: what `peers` adds to `mid`
      and what `mid` adds to `base` is learned from the union of the two
      address sets. */
  lemma LearnedChain(peers: seq<string>, mid: seq<string>, base: seq<string>,
                     d1: set<string>, d2: set<string>, d: set<string>,
                     dialOk: string -> bool, register: string -> Option<seq<string>>)
    requires d1 <= d && d2 <= d
    requires forall p :: p in mid ==> p in base || Learned(p, d2, dialOk, register)
    requires forall p :: p in peers ==> p in mid || Learned(p, d1, dialOk, register)
    ensures forall p :: p in peers ==> p in base || Learned(p, d, dialOk, register)
  {
    forall p | p in peers && p !in base
      ensures Learned(p, d, dialOk, register)
    {
      var from := if p in mid then d2 else d1;
      var a :| a in from && dialOk(a) && register(a).Some? && (p == a || p in register(a).value);
      assert a in d;
    }
  }

  /** A joined address stays joined as the alive list grows. */
  lemma JoinedGrows(a: string, peers: seq<string>, peers': seq<string>,
                    dialOk: string -> bool, register: string -> Option<seq<string>>)
    requires peers <= peers' && Joined(a, peers, dialOk, register)
    ensures Joined(a, peers', dialOk, register)
  {
  }

  /** The sync loop of connectAndRegister: for each returned peer not in the
      alive list, the counter merges the registered peer's GetCounter reply
      (`reply(k)` for the k-th peer). Only the counter changes. */
  method SyncFromResponse(s: Models.Server, resp: seq<string>, reply: nat -> Option<int>)
    modifies s`counter
    ensures s.counter == JoinedCounter(old(s.counter), s.peers, resp, reply, |resp|)
  {
    var k := 0;
    while k < |resp|
      invariant 0 <= k <= |resp|
      invariant s.counter == JoinedCounter(old(s.counter), s.peers, resp, reply, k)
    {
      var listed := Arrays.Contains(s.peers, resp[k]);
      if !listed {
        CounterSync.SyncCounterFromPeer(s, resp[k], reply(k));
      }
      k := k + 1;
    }
  }

  /** The successful-registration part of connectAndRegister: the counter is
      synced from the response, then the registered address and the returned
      peers are appended to the alive list without duplicates. */
  method JoinWith(s: Models.Server, addr: string, resp: seq<string>, reply: nat -> Option<int>)
    modifies s`peers, s`counter
    ensures s.counter == JoinedCounter(old(s.counter), old(s.peers), resp, reply, |resp|)
    ensures s.peers == Arrays.AppendedUnique(Arrays.AppendedUnique(old(s.peers), [addr]), resp)
    ensures old(s.peers) <= s.peers
    ensures Arrays.NoDup(old(s.peers)) ==> Arrays.NoDup(s.peers)
    ensures forall p :: p in s.peers <==> p in old(s.peers) || p == addr || p in resp
  {
    SyncFromResponse(s, resp, reply);
    ghost var known := s.peers;
    s.peers := Arrays.AppendUnique(s.peers, [addr]);
    ghost var withAddr := s.peers;
    s.peers := Arrays.AppendUnique(s.peers, resp);
    if Arrays.NoDup(known) {
      Arrays.AppendedUniqueNoDup(known, [addr]);
      Arrays.AppendedUniqueNoDup(withAddr, resp);
    }
  }

  /** connectAndRegister. Self, the empty address and visited addresses are
      skipped; otherwise the address is marked visited, dialed and
      registered with. On success the counter is synced from the peer for
      each returned peer not yet in the alive list, the address and the
      returned peers are appended without duplicates, and each returned
      peer is walked in turn. */
  method ConnectAndRegister(s: Models.Server, addr: string, visited: set<string>, ghost universe: set<string>,
                            dialOk: string -> bool, register: string -> Option<seq<string>>,
                            counterReply: string -> nat -> Option<int>)
    returns (visited': set<string>, ghost walked: seq<string>)
    requires addr in universe
    requires Closed(universe, register)
    modifies s`peers, s`counter
    ensures visited <= visited' <= visited + universe
    ensures forall a :: a in walked <==> a in visited' - visited
    ensures Arrays.NoDup(walked)
    ensures s.id !in walked && "" !in walked
    ensures addr == s.id || addr in visited || addr == "" ==>
              visited' == visited && s.peers == old(s.peers) && s.counter == old(s.counter)
    ensures addr != s.id && addr != "" ==> addr in visited'
    ensures addr != s.id && addr !in visited && addr != "" && !(dialOk(addr) && register(addr).Some?) ==>
              visited' == visited + {addr} && s.peers == old(s.peers) && s.counter == old(s.counter)
    ensures old(s.peers) <= s.peers
    ensures Arrays.NoDup(old(s.peers)) ==> Arrays.NoDup(s.peers)
    ensures forall p :: p in s.peers ==> p in old(s.peers) || p in universe
    ensures s.counter >= old(s.counter)
    ensures forall a :: a in visited' - visited ==> Joined(a, s.peers, dialOk, register)
    ensures addr != s.id && addr !in visited && addr != "" && dialOk(addr) && register(addr).Some? ==>
              s.counter >= JoinedCounter(old(s.counter), old(s.peers), register(addr).value,
                                         counterReply(addr), |register(addr).value|)
    ensures Covered(visited' - visited, visited', s.id, dialOk, register)
    ensures forall p :: p in s.peers ==> p in old(s.peers) || Learned(p, visited' - visited, dialOk, register)
    decreases universe - visited, 1
  {
    if addr == s.id || addr in visited || addr == "" {
      return visited, [];
    }
    visited' := visited + {addr};
    if !dialOk(addr) {
      return visited', [addr];
    }
    var reply := register(addr);
    if reply.None? {
      return visited', [addr];
    }
    var resp := reply.value;

    ghost var known := s.peers;
    JoinWith(s, addr, resp, counterReply(addr));
    assert s.counter >= old(s.counter) by {
      JoinedCounterIsMax(old(s.counter), known, resp, counterReply(addr), |resp|);
    }
    ghost var joined := s.peers;

    ghost var marked := visited';
    ghost var further;
    visited', further := WalkReturned(s, resp, visited', universe, universe - visited, dialOk, register, counterReply);
    Arrays.NoDupConcat([addr], further);
    walked := [addr] + further;
    assert joined <= s.peers;
    assert Joined(addr, s.peers, dialOk, register);
    assert visited' - visited == (visited' - marked) + {addr};
    forall p | p in joined
      ensures p in known || Learned(p, {addr}, dialOk, register)
    {
      if p !in known {
        assert addr in {addr} && (p == addr || p in register(addr).value);
      }
    }
    LearnedChain(s.peers, joined, known, visited' - marked, {addr}, visited' - visited, dialOk, register);
  }

  /** The recursion of connectAndRegister over the peers a registration
      returned: each is walked in turn, sharing the visited set. `bound`
      is the unvisited part of the universe before the registered address
      was marked; it only serves termination. */
  method WalkReturned(s: Models.Server, resp: seq<string>, visited: set<string>, ghost universe: set<string>,
                      ghost bound: set<string>, dialOk: string -> bool, register: string -> Option<seq<string>>,
                      counterReply: string -> nat -> Option<int>)
    returns (visited': set<string>, ghost walked: seq<string>)
    requires forall p :: p in resp ==> p in universe
    requires Closed(universe, register)
    requires universe - visited < bound
    modifies s`peers, s`counter
    ensures visited <= visited' <= visited + universe
    ensures forall a :: a in walked <==> a in visited' - visited
    ensures Arrays.NoDup(walked)
    ensures s.id !in walked && "" !in walked
    ensures old(s.peers) <= s.peers
    ensures Arrays.NoDup(old(s.peers)) ==> Arrays.NoDup(s.peers)
    ensures forall p :: p in s.peers ==> p in old(s.peers) || p in universe
    ensures s.counter >= old(s.counter)
    ensures forall a :: a in visited' - visited ==> Joined(a, s.peers, dialOk, register)
    ensures forall p :: p in resp && p != s.id && p != "" ==> p in visited'
    ensures Covered(visited' - visited, visited', s.id, dialOk, register)
    ensures forall p :: p in s.peers ==> p in old(s.peers) || Learned(p, visited' - visited, dialOk, register)
    decreases bound, 0
  {
    visited', walked := visited, [];
    var k := 0;
    while k < |resp|
      invariant 0 <= k <= |resp|
      invariant visited <= visited' <= visited + universe
      invariant old(s.peers) <= s.peers
      invariant Arrays.NoDup(old(s.peers)) ==> Arrays.NoDup(s.peers)
      invariant forall p :: p in s.peers ==> p in old(s.peers) || p in universe
      invariant s.counter >= old(s.counter)
      invariant forall a :: a in visited' - visited ==> Joined(a, s.peers, dialOk, register)
      invariant forall a :: a in walked <==> a in visited' - visited
      invariant Arrays.NoDup(walked)
      invariant s.id !in walked && "" !in walked
      invariant forall j :: 0 <= j < k && resp[j] != s.id && resp[j] != "" ==> resp[j] in visited'
      invariant Covered(visited' - visited, visited', s.id, dialOk, register)
      invariant forall p :: p in s.peers ==> p in old(s.peers) || Learned(p, visited' - visited, dialOk, register)
    {
      ghost var before, seen := s.peers, visited';
      ghost var further;
      visited', further := ConnectAndRegister(s, resp[k], visited', universe, dialOk, register, counterReply);
      forall a | a in seen - visited
        ensures Joined(a, s.peers, dialOk, register)
      {
        JoinedGrows(a, before, s.peers, dialOk, register);
      }
      LearnedChain(s.peers, before, old(s.peers), visited' - seen, seen - visited, visited' - visited, dialOk, register);
      Arrays.NoDupConcat(walked, further);
      walked := walked + further;
      k := k + 1;
    }
  }

  /** StartClient: the connection pool is reset, every initial address is
      walked in order with one shared visited set, then the recovery actions
      Reconnect and Resend are registered, in that order. Starting the
      monitoring loop is Heartbeat.Detector.Round, iterated. */
  method StartClient(s: Models.Server, d: Heartbeat.Detector, initialPeers: seq<string>, ghost universe: set<string>,
                     dialOk: string -> bool, register: string -> Option<seq<string>>,
                     counterReply: string -> nat -> Option<int>)
    returns (ghost walked: seq<string>)
    requires forall a :: a in initialPeers ==> a in universe
    requires Closed(universe, register)
    modifies s`connPool, s`peers, s`counter, d`recoveryActions
    ensures s.connPool == map[]
    ensures d.recoveryActions == old(d.recoveryActions) + [Heartbeat.ReconnectAction, Heartbeat.ResendAction]
    ensures old(s.peers) <= s.peers
    ensures Arrays.NoDup(old(s.peers)) ==> Arrays.NoDup(s.peers)
    ensures forall p :: p in s.peers ==> p in old(s.peers) || p in universe
    ensures s.counter >= old(s.counter)
    ensures forall a :: a in initialPeers && a != s.id && a != "" ==> a in walked
    ensures forall a :: a in walked ==> Joined(a, s.peers, dialOk, register)
    ensures Arrays.NoDup(walked)
    ensures s.id !in walked && "" !in walked
    ensures forall a :: a in walked && dialOk(a) && register(a).Some? ==>
              forall p :: p in register(a).value && p != s.id && p != "" ==> p in walked
    ensures forall p :: p in s.peers ==> p in old(s.peers) || Learned(p, (set a | a in walked), dialOk, register)
  {
    var visited: set<string> := {};
    walked := [];
    s.connPool := map[];
    var i := 0;
    while i < |initialPeers|
      invariant 0 <= i <= |initialPeers|
      invariant s.connPool == map[] && d.recoveryActions == old(d.recoveryActions)
      invariant old(s.peers) <= s.peers
      invariant Arrays.NoDup(old(s.peers)) ==> Arrays.NoDup(s.peers)
      invariant forall p :: p in s.peers ==> p in old(s.peers) || p in universe
      invariant s.counter >= old(s.counter)
      invariant forall a :: a in visited ==> Joined(a, s.peers, dialOk, register)
      invariant forall j :: 0 <= j < i && initialPeers[j] != s.id && initialPeers[j] != "" ==> initialPeers[j] in visited
      invariant forall a :: a in walked <==> a in visited
      invariant Arrays.NoDup(walked)
      invariant s.id !in walked && "" !in walked
      invariant Covered(visited, visited, s.id, dialOk, register)
      invariant forall p :: p in s.peers ==> p in old(s.peers) || Learned(p, visited, dialOk, register)
    {
      ghost var before, seen := s.peers, visited;
      ghost var further;
      visited, further := ConnectAndRegister(s, initialPeers[i], visited, universe, dialOk, register, counterReply);
      LearnedChain(s.peers, before, old(s.peers), visited - seen, seen, visited, dialOk, register);
      Arrays.NoDupConcat(walked, further);
      walked := walked + further;
      i := i + 1;
    }
    assert (set a | a in walked) == visited;
    d.RegisterRecoveryAction(Heartbeat.ReconnectAction);
    d.RegisterRecoveryAction(Heartbeat.ResendAction);
  }
}
