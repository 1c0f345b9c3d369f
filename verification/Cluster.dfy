/** Replicas that commit from the log store, over whole runs of the calls Raft makes on them. */
module Cluster {
  import opened Wire
  import opened RaftLog
  import opened StateMachine

  /** One replica: its log, its store, how far it has committed, and the entries it committed. */
  datatype Replica = Replica(log: Log, db: Store, committed: nat, history: seq<LogEntry>)

  /** What Raft asks of one replica. */
  datatype Call =
    | Append(e: LogEntry)
    | WriteAt(i: nat, e: LogEntry)
    | ApplyPack(i: nat, es: seq<LogEntry>)
    | Compact(last: nat)
    | Commit

  /** A call on the replica `at`, or a pack of `n` entries from `i` sent to it by another. */
  datatype Action =
    | Local(at: nat, call: Call)
    | Ship(from: nat, at: nat, i: nat, n: nat)

  const FRESH := Replica(Log(1, []), map[], 0, [])

  /** The log holds the history's entries wherever the two overlap. */
  ghost predicate Agrees(log: Log, history: seq<LogEntry>) {
    forall k: nat | log.Has(k) && 1 <= k <= |history| :: log.At(k) == history[k - 1]
  }

  /** Raft overwrites only what is not committed, compacts only what is, and sends only packs that
      agree with what the receiver committed (Log Matching) and leave its log reaching past that. */
  ghost predicate Allowed(r: Replica, call: Call) {
    match call
    case Append(_) => true
    case WriteAt(i, _) => r.committed < i && r.log.start <= i <= r.log.Next()
    case ApplyPack(i, es) =>
      && 1 <= i && r.log.Touches(i, |es|)
      && r.committed < r.log.Splice(i, es).Next()
      && Agrees(Log(i, es), r.history)
    case Compact(last) => last <= r.committed
    case Commit => r.log.Has(r.committed + 1)
  }

  ghost function After(merge: Merge, r: Replica, call: Call): Replica
    requires Allowed(r, call)
  {
    match call
    case Append(e) => r.(log := r.log.Append(e))
    case WriteAt(i, e) => r.(log := r.log.WriteAt(i, e))
    case ApplyPack(i, es) => r.(log := r.log.Splice(i, es))
    case Compact(last) => r.(log := r.log.Compact(last))
    case Commit =>
      var e := r.log.At(r.committed + 1);
      match CommitEntry(merge, r.db, e)
      case None => r
      case Some(kv) => Replica(r.log, kv, r.committed + 1, r.history + [e])
  }

  predicate CanShip(log: Log, i: nat, n: nat) {
    log.start <= i && i + n <= log.Next() && AllPackable(log.Slice(i, i + n))
  }

  /** The entries a pack carries when it arrives are those it was made from. */
  function Shipped(log: Log, i: nat, n: nat): (es: seq<LogEntry>)
    requires CanShip(log, i, n)
    ensures es == log.Slice(i, i + n)
  {
    DecodeEncodePack(log.Slice(i, i + n));
    DecodePack(EncodePack(log.Slice(i, i + n))).0
  }

  predicate WellAddressed(c: seq<Replica>, a: Action) {
    && a.at < |c|
    && (a.Ship? ==> a.from < |c| && CanShip(c[a.from].log, a.i, a.n))
  }

  /** A pack is a call with whatever its bytes decode to. */
  function CallOf(c: seq<Replica>, a: Action): Call
    requires WellAddressed(c, a)
  {
    match a
    case Local(_, call) => call
    case Ship(from, _, i, n) => ApplyPack(i, Shipped(c[from].log, i, n))
  }

  /** Besides, no entry is committed at an index where another was committed (State Machine Safety). */
  ghost predicate Enabled(c: seq<Replica>, a: Action) {
    && WellAddressed(c, a)
    && var r := c[a.at];
       && Allowed(r, CallOf(c, a))
       && (CallOf(c, a).Commit? ==>
             forall q | 0 <= q < |c| && r.committed < |c[q].history| ::
               c[q].history[r.committed] == r.log.At(r.committed + 1))
  }

  ghost function Step(merge: Merge, c: seq<Replica>, a: Action): seq<Replica>
    requires Enabled(c, a)
  {
    c[a.at := After(merge, c[a.at], CallOf(c, a))]
  }

  ghost predicate AllEnabled(merge: Merge, c: seq<Replica>, run: seq<Action>)
    decreases |run|
  {
    run != [] ==> Enabled(c, run[0]) && AllEnabled(merge, Step(merge, c, run[0]), run[1..])
  }

  ghost function Run(merge: Merge, c: seq<Replica>, run: seq<Action>): seq<Replica>
    requires AllEnabled(merge, c, run)
    decreases |run|
  {
    if run == [] then c else Run(merge, Step(merge, c, run[0]), run[1..])
  }

  /** A replica's store is the fold of its history, and its log still holds that history from its
      start on: neither truncation, compaction nor a shipped pack has touched it. */
  ghost predicate Sound(merge: Merge, r: Replica) {
    && |r.history| == r.committed < r.log.Next()
    && 1 <= r.log.start
    && Fold(merge, map[], r.history) == Some(r.db)
    && Agrees(r.log, r.history)
  }

  ghost predicate Inv(merge: Merge, c: seq<Replica>) {
    && (forall p | 0 <= p < |c| :: Sound(merge, c[p]))
    && (forall p, q | 0 <= p < |c| && 0 <= q < |c| :: Compatible(c[p].history, c[q].history))
  }

  ghost predicate Compatible(g: seq<LogEntry>, h: seq<LogEntry>) {
    forall k | 0 <= k < |g| && k < |h| :: g[k] == h[k]
  }

  lemma CallKeepsAgreement(r: Replica, log: Log, call: Call)
    requires 1 <= r.log.start && |r.history| == r.committed && Agrees(r.log, r.history)
    requires Allowed(r, call) && !call.Commit?
    requires log == match call
                    case Append(e) => r.log.Append(e)
                    case WriteAt(i, e) => r.log.WriteAt(i, e)
                    case ApplyPack(i, es) => r.log.Splice(i, es)
                    case Compact(last) => r.log.Compact(last)
    requires r.committed < r.log.Next()
    ensures Agrees(log, r.history)
  {
    forall k: nat | log.Has(k) && 1 <= k <= |r.history| ensures log.At(k) == r.history[k - 1] {
      if call.ApplyPack? {
        SpliceAt(r.log, call.i, call.es, k);
        if call.i <= k < call.i + |call.es| {
          assert Log(call.i, call.es).Has(k);
        } else {
          assert r.log.Has(k);
        }
      } else {
        assert r.log.Has(k);
      }
    }
  }

  lemma CallKeepsSound(merge: Merge, r: Replica, call: Call)
    requires Sound(merge, r) && Allowed(r, call)
    ensures Sound(merge, After(merge, r, call))
  {
    var r' := After(merge, r, call);
    if call.Commit? {
      FoldSnoc(merge, map[], r.history, r.log.At(r.committed + 1));
    } else {
      CallKeepsAgreement(r, r'.log, call);
    }
  }

  /** Overwriting is safe exactly above the commit index, or at it with the entry committed there. */
  lemma OverwriteIff(merge: Merge, r: Replica, i: nat, e: LogEntry)
    requires Sound(merge, r) && r.log.start <= i <= r.log.Next()
    ensures Sound(merge, r.(log := r.log.WriteAt(i, e)))
            <==> r.committed < i || (i == r.committed && e == r.history[i - 1])
  {
    var log := r.log.WriteAt(i, e);
    if r.committed < i {
      CallKeepsSound(merge, r, WriteAt(i, e));
    } else if i == r.committed {
      assert log.Has(i) && log.At(i) == e;
      forall k: nat | log.Has(k) && 1 <= k < i ensures log.At(k) == r.history[k - 1] {
        assert r.log.Has(k);
      }
    }
  }

  lemma StepKeepsInv(merge: Merge, c: seq<Replica>, a: Action)
    requires Inv(merge, c) && Enabled(c, a)
    ensures Inv(merge, Step(merge, c, a))
  {
    var r := c[a.at];
    var c' := Step(merge, c, a);
    CallKeepsSound(merge, r, CallOf(c, a));
    forall q | 0 <= q < |c|
      ensures Compatible(c'[a.at].history, c'[q].history) && Compatible(c'[q].history, c'[a.at].history)
    {
      assert Compatible(r.history, c[q].history);
    }
    assert forall p | 0 <= p < |c| && p != a.at :: c'[p] == c[p];
  }

  lemma {:induction false} RunKeepsInv(merge: Merge, c: seq<Replica>, run: seq<Action>)
    requires Inv(merge, c) && AllEnabled(merge, c, run)
    ensures Inv(merge, Run(merge, c, run)) && |Run(merge, c, run)| == |c|
    decreases |run|
  {
    if run != [] {
      StepKeepsInv(merge, c, run[0]);
      RunKeepsInv(merge, Step(merge, c, run[0]), run[1..]);
    }
  }

  function AllFresh(n: nat): seq<Replica> {
    seq(n, _ => FRESH)
  }

  /** After any run from fresh replicas, a replica that has committed no more than another holds
      exactly the store the other held at that commit index; at equal indices the stores are equal. */
  lemma ReplicasAgree(merge: Merge, n: nat, run: seq<Action>, p: nat, q: nat)
    requires AllEnabled(merge, AllFresh(n), run) && p < n && q < n
    requires var c := Run(merge, AllFresh(n), run); |c| == n && c[p].committed <= c[q].committed
    ensures var c := Run(merge, AllFresh(n), run);
            && |c[q].history| == c[q].committed
            && c[p].history == c[q].history[..c[p].committed]
            && Fold(merge, map[], c[q].history[..c[p].committed]) == Some(c[p].db)
            && (c[p].committed == c[q].committed ==> c[p].db == c[q].db)
  {
    RunKeepsInv(merge, AllFresh(n), run);
    var c := Run(merge, AllFresh(n), run);
    assert Sound(merge, c[p]) && Sound(merge, c[q]);
    assert Compatible(c[p].history, c[q].history);
    assert c[p].history == c[q].history[..c[p].committed];
    assert c[q].history == c[q].history[..c[q].committed];
  }

  /** So when the committed entries carry commands, the store is those commands applied in order. */
  lemma StoreIsCommandsApplied(merge: Merge, n: nat, run: seq<Action>, p: nat, cs: seq<Command>)
    requires AllEnabled(merge, AllFresh(n), run) && p < n
    requires var c := Run(merge, AllFresh(n), run); |c| == n && Carries(c[p].history, cs)
    ensures AllKnown(ClientOps(cs))
    ensures Run(merge, AllFresh(n), run)[p].db == ApplyAll(merge, map[], ClientOps(cs))
  {
    RunKeepsInv(merge, AllFresh(n), run);
    assert Sound(merge, Run(merge, AllFresh(n), run)[p]);
    FoldAppliesCommands(merge, map[], Run(merge, AllFresh(n), run)[p].history, cs);
  }

  // ---- A replica that joins ----

  function Sum(chunks: seq<nat>): nat {
    if chunks == [] then 0 else chunks[0] + Sum(chunks[1..])
  }

  /** What arrives of each pack a peer is asked for; `None` if it cannot make the pack. */
  type Peer = (nat, nat) -> Option<seq<LogEntry>>

  function Sending(peer: Log): Peer {
    (i: nat, n: nat) => if CanShip(peer, i, n) then Some(Shipped(peer, i, n)) else None
  }

  /** A log that is sent entries from index `i` in adjacent packs; `None` if one of them cannot be
      made or would leave a hole. */
  function Receive(log: Log, peer: Peer, i: nat, chunks: seq<nat>): Option<Log>
    decreases |chunks|
  {
    if chunks == [] then Some(log)
    else
      var es := peer(i, chunks[0]);
      if es == None || !log.Touches(i, |es.value|) then None
      else Receive(log.Splice(i, es.value), peer, i + chunks[0], chunks[1..])
  }

  /** Each of the adjacent packs from index `i` can be made: its entries are there, and its count and
      their sizes fit their fields. */
  predicate Deliverable(peer: Log, i: nat, chunks: seq<nat>)
    decreases |chunks|
  {
    chunks != [] ==> CanShip(peer, i, chunks[0]) && Deliverable(peer, i + chunks[0], chunks[1..])
  }

  /** `peer` sends the entries `all`, which start at index 1, in adjacent packs from index `i`. */
  predicate Sends(peer: Peer, all: seq<LogEntry>, i: nat, chunks: seq<nat>)
    decreases |chunks|
  {
    chunks != [] ==>
      && 1 <= i && i + chunks[0] <= |all| + 1
      && peer(i, chunks[0]) == Some(all[i - 1..i + chunks[0] - 1])
      && Sends(peer, all, i + chunks[0], chunks[1..])
  }

  lemma {:induction false} SendingSends(peer: Log, i: nat, chunks: seq<nat>)
    requires peer.start == 1 && Deliverable(peer, i, chunks)
    ensures Sends(Sending(peer), peer.entries, i, chunks)
    decreases |chunks|
  {
    if chunks != [] {
      SendingSends(peer, i + chunks[0], chunks[1..]);
    }
  }

  lemma ReceiveOne(all: seq<LogEntry>, i: nat, n: nat)
    requires 1 <= i && i + n <= |all| + 1
    ensures Log(1, all[..i - 1]).Touches(i, n)
    ensures Log(1, all[..i - 1]).Splice(i, all[i - 1..i + n - 1]) == Log(1, all[..i + n - 1])
  {
    assert all[..i + n - 1] == all[..i - 1] + all[i - 1..i + n - 1];
  }

  lemma {:induction false} ReceiveIsPrefix(peer: Peer, all: seq<LogEntry>, i: nat, chunks: seq<nat>)
    requires Sends(peer, all, i, chunks) && 1 <= i <= |all| + 1
    ensures i + Sum(chunks) <= |all| + 1
    ensures Receive(Log(1, all[..i - 1]), peer, i, chunks) == Some(Log(1, all[..i + Sum(chunks) - 1]))
    decreases |chunks|
  {
    if chunks != [] {
      ReceiveOne(all, i, chunks[0]);
      ReceiveIsPrefix(peer, all, i + chunks[0], chunks[1..]);
    }
  }

  /** The store after committing entries 1 to `n` of a log. */
  function Committed(merge: Merge, log: Log, n: nat): Option<Store>
    requires log.start == 1 && n + 1 <= log.Next()
  {
    Fold(merge, map[], log.Slice(1, n + 1))
  }

  lemma CommittedCommands(merge: Merge, log: Log, cs: seq<Command>, n: nat)
    requires log.start == 1 && Carries(log.entries, cs) && n <= |cs|
    ensures AllKnown(ClientOps(cs[..n]))
    ensures Committed(merge, log, n) == Some(ApplyAll(merge, map[], ClientOps(cs[..n])))
  {
    FoldAppliesCommands(merge, map[], log.Slice(1, n + 1), cs[..n]);
  }

  /** A fresh replica that is sent its peer's log in packs, however cut, and commits 1 to `n`, holds
      what the peer holds after committing 1 to `n`: the clients' commands applied in order. */
  lemma JoinerCatchesUp(merge: Merge, peer: Log, cs: seq<Command>, chunks: seq<nat>, n: nat)
    requires peer.start == 1 && Carries(peer.entries, cs)
    requires Deliverable(peer, 1, chunks) && n <= Sum(chunks)
    ensures n <= |cs| && AllKnown(ClientOps(cs[..n]))
    ensures var joiner := Receive(FRESH.log, Sending(peer), 1, chunks);
            && joiner.Some? && joiner.value.start == 1 && n + 1 <= joiner.value.Next()
            && Committed(merge, joiner.value, n) == Committed(merge, peer, n)
               == Some(ApplyAll(merge, map[], ClientOps(cs[..n])))
  {
    JoinerReceives(peer, chunks);
    assert peer.entries[..Sum(chunks)][..n] == peer.entries[..n];
    CommittedCommands(merge, peer, cs, n);
  }

  lemma JoinerReceives(peer: Log, chunks: seq<nat>)
    requires peer.start == 1 && Deliverable(peer, 1, chunks)
    ensures Sum(chunks) <= |peer.entries|
    ensures Receive(FRESH.log, Sending(peer), 1, chunks) == Some(Log(1, peer.entries[..Sum(chunks)]))
  {
    SendingSends(peer, 1, chunks);
    assert peer.entries[..0] == [];
    ReceiveIsPrefix(Sending(peer), peer.entries, 1, chunks);
  }
}
