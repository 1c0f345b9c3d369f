/** A replica that joins, on the classes themselves: packs made by one store, applied to another, and
    the entries committed to a store machine one by one, as Raft has it done. */
module Joining {
  import opened Wire
  import opened RaftLog
  import opened LogStore
  import opened StateMachine
  import opened Cluster

  /** A fresh store is sent the peer's log in adjacent packs, however cut. */
  method ReceivePacks(peer: InMemLogStore, joiner: InMemLogStore, chunks: seq<nat>)
    requires peer != joiner && peer.Valid() && peer.Abs().start == 1
    requires joiner.Valid() && joiner.Abs() == Log(1, [])
    requires Deliverable(peer.Abs(), 1, chunks)
    modifies joiner`logs, joiner`startIdx
    ensures Sum(chunks) <= |peer.Abs().entries|
    ensures joiner.Valid() && joiner.Abs() == Log(1, peer.Abs().entries[..Sum(chunks)])
  {
    ghost var log := peer.Abs();
    var i := 1;
    assert log.entries[..0] == [];
    for k := 0 to |chunks|
      invariant 1 <= i <= |log.entries| + 1
      invariant Deliverable(log, i, chunks[k..]) && i + Sum(chunks[k..]) == 1 + Sum(chunks)
      invariant joiner.Valid() && joiner.Abs() == Log(1, log.entries[..i - 1])
    {
      assert chunks[k..][1..] == chunks[k + 1..];
      ShipOne(peer, joiner, i, chunks[k]);
      i := i + chunks[k];
    }
  }

  /** One pack. */
  method ShipOne(peer: InMemLogStore, joiner: InMemLogStore, i: nat, n: nat)
    requires peer != joiner && peer.Valid() && peer.Abs().start == 1
    requires 1 <= i && CanShip(peer.Abs(), i, n)
    requires joiner.Valid() && joiner.Abs() == Log(1, peer.Abs().entries[..i - 1])
    modifies joiner`logs, joiner`startIdx
    ensures joiner.Valid() && joiner.Abs() == Log(1, peer.Abs().entries[..i + n - 1])
  {
    var buf := peer.Pack(i, n);
    DecodeEncodePack(peer.Abs().Slice(i, i + n));
    ReceiveOne(peer.Abs().entries, i, n);
    var ok := joiner.ApplyPack(i, buf.data[..]);
  }

  lemma {:induction false} FoldStops(merge: Merge, kv: Store, es: seq<LogEntry>, k: nat)
    requires k <= |es| && Fold(merge, kv, es[..k]) == None
    ensures Fold(merge, kv, es) == None
    decreases |es| - k
  {
    if k < |es| {
      TakeSnoc(es, k);
      FoldSnoc(merge, kv, es[..k], es[k]);
      FoldStops(merge, kv, es, k + 1);
    } else {
      assert es[..k] == es;
    }
  }

  /** Entries 1 to `n` are committed to a machine that has committed none, each as its type has it,
      until one fails. */
  method CommitUpTo(store: InMemLogStore, machine: Machine, n: nat) returns (ok: bool)
    requires store.Valid() && store.Abs().start == 1 && n + 1 <= store.Abs().Next()
    requires machine.db == map[] && machine.lastCommitted == 0
    modifies machine
    ensures match Committed(machine.merge, store.Abs(), n)
            case None => !ok
            case Some(kv) => ok && machine.db == kv && machine.lastCommitted == n
  {
    ghost var es := store.Abs().Slice(1, n + 1);
    assert es[..0] == [];
    for k := 0 to n
      invariant Fold(machine.merge, map[], es[..k]) == Some(machine.db) && machine.lastCommitted == k
    {
      var e := store.EntryAt(k + 1);
      assert e == es[k];
      TakeSnoc(es, k);
      FoldSnoc(machine.merge, map[], es[..k], e);
      if e.kind == APP_LOG {
        ok := machine.Commit(k + 1, e.payload);
        if !ok {
          FoldStops(machine.merge, map[], es, k + 1);
          return;
        }
      } else {
        machine.CommitConfig(k + 1);
      }
    }
    assert es[..n] == es;
    ok := true;
  }

  /** A joining replica ends with what its peer's store holds after the same commits, whatever the
      packs and whatever the log holds; for a log of commands that is the commands applied in order. */
  method Join(peer: InMemLogStore, joiner: InMemLogStore, machine: Machine, chunks: seq<nat>, n: nat, ghost cs: seq<Command>)
      returns (ok: bool)
    requires peer != joiner && peer.Valid() && peer.Abs().start == 1
    requires joiner.Valid() && joiner.Abs() == Log(1, [])
    requires machine.db == map[] && machine.lastCommitted == 0
    requires Deliverable(peer.Abs(), 1, chunks) && n <= Sum(chunks)
    modifies joiner`logs, joiner`startIdx, machine
    ensures peer.Valid() && peer.Abs() == old(peer.Abs()) && n + 1 <= peer.Abs().Next()
    ensures match Committed(machine.merge, peer.Abs(), n)
            case None => !ok
            case Some(kv) => ok && machine.db == kv && machine.lastCommitted == n
    ensures Carries(peer.Abs().entries, cs) ==>
              && ok && AllKnown(ClientOps(cs[..n]))
              && machine.db == ApplyAll(machine.merge, map[], ClientOps(cs[..n]))
  {
    ReceivePacks(peer, joiner, chunks);
    ghost var log := peer.Abs();
    assert log.entries[..Sum(chunks)][..n] == log.entries[..n];
    assert joiner.Abs().Slice(1, n + 1) == log.Slice(1, n + 1);
    ok := CommitUpTo(joiner, machine, n);
    if Carries(log.entries, cs) {
      CommittedCommands(machine.merge, log, cs, n);
    }
  }
}
