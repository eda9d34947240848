/**
 * counter/sync: join-time reconciliation. The GetCounter reply is an input:
 * None when the call fails, Some(v) when the remote counter is v.
 */
module CounterSync {
  import opened Wrappers
  import Models

  /** The counter after merging one GetCounter reply: the larger of the two
      values on success, the local value on error. */
  function Synced(local: int, reply: Option<int>): (c: int)
    ensures c >= local
    ensures reply.Some? ==> c >= reply.value && (c == local || c == reply.value)
    ensures reply.None? ==> c == local
  {
    if reply.Some? && reply.value > local then reply.value else local
  }

  /** SyncCounterFromPeer: only the counter may change, and it becomes the
      maximum of the local and the remote value. */
  method SyncCounterFromPeer(s: Models.Server, peer: string, reply: Option<int>)
    modifies s`counter
    ensures s.counter == Synced(old(s.counter), reply)
  {
    if reply.None? {
      return;
    }
    if reply.value > s.counter {
      s.counter := reply.value;
    }
  }

  /** Syncing twice with the same reply is syncing once. */
  lemma SyncIdempotent(local: int, reply: Option<int>)
    ensures Synced(Synced(local, reply), reply) == Synced(local, reply)
  {
  }

  /** A fresh node joining a peer whose counter is 4 reads 4. */
  lemma JoinAtFour()
    ensures Synced(0, Some(4)) == 4
  {
  }
}
