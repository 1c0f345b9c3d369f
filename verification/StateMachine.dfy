/** Applying committed log entries to the key-value store. */
module StateMachine {
  import opened Wire
  import opened Operation
  import opened RaftLog

  type Store = map<Bytes, Bytes>

  /** How the store merges an update into what a key holds; any deterministic function will do. */
  type Merge = (Option<Bytes>, Bytes) -> Option<Bytes>

  function Lookup(kv: Store, key: Bytes): Option<Bytes> {
    if key in kv then Some(kv[key]) else None
  }

  predicate Known(op: Op) {
    && WellFormed(op)
    && (op.kind == PUT || op.kind == UPDATE || op.kind == DELETE)
  }

  predicate AllKnown(ops: seq<Op>) {
    forall i | 0 <= i < |ops| :: Known(ops[i])
  }

  function Apply(merge: Merge, kv: Store, op: Op): Store
    requires Known(op)
  {
    if op.kind == PUT then kv[op.key := op.value.value]
    else if op.kind == UPDATE then
      var merged := merge(Lookup(kv, op.key), op.value.value);
      if merged.Some? then kv[op.key := merged.value] else kv - {op.key}
    else kv - {op.key}
  }

  /** A put leaves its value, a delete nothing, and an update what merging makes of what was there; no
      command touches another key. */
  lemma ApplyOn(merge: Merge, kv: Store, op: Op, key: Bytes)
    requires Known(op)
    ensures Lookup(Apply(merge, kv, op), key)
            == if key != op.key then Lookup(kv, key)
               else if op.kind == UPDATE then merge(Lookup(kv, key), op.value.value)
               else op.value
  {
  }

  function ApplyAll(merge: Merge, kv: Store, ops: seq<Op>): Store
    requires AllKnown(ops)
    decreases |ops|
  {
    if ops == [] then kv else ApplyAll(merge, Apply(merge, kv, ops[0]), ops[1..])
  }

  /** `None` where the commit throws: the payload does not decode, or its tag is unknown. */
  function CommitPayload(merge: Merge, kv: Store, payload: Bytes): Option<Store> {
    match Decode(payload)
    case None => None
    case Some((op, _)) =>
      if op.kind == PUT || op.kind == UPDATE || op.kind == DELETE then
        EncodeDecode(payload);
        Some(Apply(merge, kv, op))
      else None
  }

  /** A commit goes through exactly for the encoding of a known command, with anything after it, and then
      applies that command. */
  lemma CommitIff(merge: Merge, kv: Store, payload: Bytes, kv': Store)
    ensures CommitPayload(merge, kv, payload) == Some(kv')
            <==> exists op, rest :: Known(op) && payload == Encode(op) + rest && kv' == Apply(merge, kv, op)
  {
    if CommitPayload(merge, kv, payload) == Some(kv') {
      EncodeDecode(payload);
      var (op, rest) := Decode(payload).value;
      assert Known(op) && payload == Encode(op) + rest;
    }
    if op, rest :| Known(op) && payload == Encode(op) + rest && kv' == Apply(merge, kv, op) {
      DecodeEncode(op, rest);
    }
  }

  /** Only application entries reach the store; a configuration entry leaves it alone. */
  function CommitEntry(merge: Merge, kv: Store, e: LogEntry): Option<Store> {
    if e.kind == APP_LOG then CommitPayload(merge, kv, e.payload) else Some(kv)
  }

  function Fold(merge: Merge, kv: Store, es: seq<LogEntry>): Option<Store>
    decreases |es|
  {
    if es == [] then Some(kv)
    else
      match CommitEntry(merge, kv, es[0])
      case None => None
      case Some(kv') => Fold(merge, kv', es[1..])
  }

  lemma {:induction false} FoldSnoc(merge: Merge, kv: Store, es: seq<LogEntry>, e: LogEntry)
    ensures Fold(merge, kv, es + [e])
            == match Fold(merge, kv, es) case None => None case Some(kv') => CommitEntry(merge, kv', e)
    decreases |es|
  {
    if es == [] {
      assert (es + [e])[1..] == [];
    } else {
      assert (es + [e])[1..] == es[1..] + [e];
      var kv' := CommitEntry(merge, kv, es[0]);
      if kv'.Some? {
        FoldSnoc(merge, kv'.value, es[1..], e);
      }
    }
  }

  class Machine {
    const merge: Merge
    var db: Store
    var lastCommitted: nat

    constructor (merge: Merge)
      ensures this.merge == merge && db == map[] && lastCommitted == 0
    {
      this.merge := merge;
      db, lastCommitted := map[], 0;
    }

    /** A commit that throws leaves the store and the commit index as they were. */
    method Commit(idx: nat, payload: Bytes) returns (ok: bool)
      modifies `db, `lastCommitted
      ensures match CommitPayload(merge, old(db), payload)
              case None => !ok && db == old(db) && lastCommitted == old(lastCommitted)
              case Some(kv) => ok && db == kv && lastCommitted == idx
    {
      var decoded := Deserialize(payload);
      if decoded == None {
        return false;
      }
      var op := decoded.value;
      if op.kind == PUT {
        EncodeDecode(payload);
        db := db[op.key := op.value.value];
      } else if op.kind == UPDATE {
        EncodeDecode(payload);
        var merged := merge(Lookup(db, op.key), op.value.value);
        db := if merged.Some? then db[op.key := merged.value] else db - {op.key};
      } else if op.kind == DELETE {
        db := db - {op.key};
      } else {
        return false;
      }
      lastCommitted := idx;
      return true;
    }

    /** The store is where the fold over the log has it after a configuration entry. */
    method CommitConfig(idx: nat)
      modifies `lastCommitted
      ensures lastCommitted == idx
      ensures forall e: LogEntry | e.kind != APP_LOG :: CommitEntry(merge, old(db), e) == Some(db)
    {
      lastCommitted := idx;
    }
  }

  // ---- Commands end to end ----

  /** What a leader appends: a client's command, or a configuration of its own. */
  datatype Command = Client(op: Op) | Config(payload: Bytes)

  predicate Loggable(c: Command) {
    c.Client? ==> Known(c.op)
  }

  function EntryOf(c: Command, term: nat): LogEntry {
    if c.Client? then LogEntry(term, APP_LOG, Encode(c.op)) else LogEntry(term, CONF, c.payload)
  }

  function ClientOps(cs: seq<Command>): seq<Op> {
    if cs == [] then []
    else (if cs[0].Client? then [cs[0].op] else []) + ClientOps(cs[1..])
  }

  lemma {:induction false} ClientOpsKnown(cs: seq<Command>)
    requires forall i | 0 <= i < |cs| :: Loggable(cs[i])
    ensures AllKnown(ClientOps(cs))
  {
    if cs != [] {
      ClientOpsKnown(cs[1..]);
    }
  }

  /** `es` are the entries a leader wrote for the commands `cs`, in whatever terms. */
  ghost predicate Carries(es: seq<LogEntry>, cs: seq<Command>) {
    && |es| == |cs|
    && forall i | 0 <= i < |es| :: Loggable(cs[i]) && es[i] == EntryOf(cs[i], es[i].term)
  }

  /** Committing encoded commands applies the commands themselves, in order, configurations skipped. */
  lemma {:induction false} FoldAppliesCommands(merge: Merge, kv: Store, es: seq<LogEntry>, cs: seq<Command>)
    requires Carries(es, cs)
    ensures AllKnown(ClientOps(cs))
    ensures Fold(merge, kv, es) == Some(ApplyAll(merge, kv, ClientOps(cs)))
    decreases |es|
  {
    ClientOpsKnown(cs);
    if es != [] {
      assert es[0] == EntryOf(cs[0], es[0].term);
      if cs[0].Client? {
        DecodeEncode(cs[0].op, []);
        assert Encode(cs[0].op) + [] == Encode(cs[0].op);
        assert ClientOps(cs)[1..] == ClientOps(cs[1..]);
      } else {
        assert ClientOps(cs) == ClientOps(cs[1..]);
      }
      FoldAppliesCommands(merge, CommitEntry(merge, kv, es[0]).value, es[1..], cs[1..]);
    }
  }

  // ---- Last writer wins ----

  /** A command that does not read what was there. */
  predicate Blind(op: Op) {
    Known(op) && op.kind != UPDATE
  }

  /** The three mutating calls a client makes on the server. */
  datatype Call =
    | Put(key: Bytes, value: Bytes)
    | Update(key: Bytes, value: Bytes)
    | Del(key: Bytes)

  /** The command the server logs for a call; an update is logged as a put. */
  function Logged(call: Call): Op {
    match call
    case Put(key, value) => MakePut(key, value)
    case Update(key, value) => MakePut(key, value)
    case Del(key) => MakeDelete(key)
  }

  function LoggedAll(calls: seq<Call>): (ops: seq<Op>)
    ensures |ops| == |calls| && forall i | 0 <= i < |calls| :: ops[i] == Logged(calls[i])
  {
    if calls == [] then [] else [Logged(calls[0])] + LoggedAll(calls[1..])
  }

  /** Keys and values short enough for their length prefix. */
  predicate Sendable(call: Call) {
    |call.key| < TWO_64 && (!call.Del? ==> |call.value| < TWO_64)
  }

  predicate AllBlind(ops: seq<Op>) {
    forall i | 0 <= i < |ops| :: Blind(ops[i])
  }

  /** The last command on `key`. */
  function LastOn(ops: seq<Op>, key: Bytes): Option<Op> {
    if ops == [] then None
    else if ops[|ops| - 1].key == key then Some(ops[|ops| - 1])
    else LastOn(ops[..|ops| - 1], key)
  }

  lemma {:induction false} ApplyAllSnoc(merge: Merge, kv: Store, ops: seq<Op>, op: Op)
    requires Known(op) && AllKnown(ops)
    ensures ApplyAll(merge, kv, ops + [op]) == Apply(merge, ApplyAll(merge, kv, ops), op)
    decreases |ops|
  {
    if ops == [] {
      assert (ops + [op])[1..] == [];
    } else {
      assert (ops + [op])[1..] == ops[1..] + [op];
      ApplyAllSnoc(merge, Apply(merge, kv, ops[0]), ops[1..], op);
    }
  }

  /** What a key holds in the end is decided by the last command on it alone. */
  lemma {:induction false} LastWriterDecides(merge: Merge, kv: Store, ops: seq<Op>, key: Bytes)
    requires AllBlind(ops)
    ensures Lookup(ApplyAll(merge, kv, ops), key)
            == match LastOn(ops, key) case None => Lookup(kv, key) case Some(op) => op.value
  {
    if ops != [] {
      var n := |ops| - 1;
      assert ops == ops[..n] + [ops[n]];
      ApplyAllSnoc(merge, kv, ops[..n], ops[n]);
      LastWriterDecides(merge, kv, ops[..n], key);
    }
  }

  /** Two histories with the same last command on every key end in the same map. */
  lemma LastWriterWins(merge: Merge, kv: Store, a: seq<Op>, b: seq<Op>)
    requires AllBlind(a) && AllBlind(b)
    requires forall key :: LastOn(a, key) == LastOn(b, key)
    ensures ApplyAll(merge, kv, a) == ApplyAll(merge, kv, b)
  {
    var ka, kb := ApplyAll(merge, kv, a), ApplyAll(merge, kv, b);
    forall key ensures Lookup(ka, key) == Lookup(kb, key) {
      LastWriterDecides(merge, kv, a, key);
      LastWriterDecides(merge, kv, b, key);
    }
    forall key ensures (key in ka <==> key in kb) && (key in ka ==> ka[key] == kb[key]) {
      assert Lookup(ka, key) == Lookup(kb, key);
    }
  }

  function Without(ops: seq<Op>, i: nat): seq<Op>
    requires i < |ops|
  {
    ops[..i] + ops[i + 1..]
  }

  lemma {:induction false} LastOnWithout(ops: seq<Op>, i: nat, j: nat, key: Bytes)
    requires i < j < |ops| && ops[i].key == ops[j].key
    ensures LastOn(Without(ops, i), key) == LastOn(ops, key)
    decreases |ops|
  {
    var n := |ops| - 1;
    var rest := Without(ops, i);
    assert rest[|rest| - 1] == ops[n];
    if ops[n].key != key {
      if j == n {
        LastOnAbsent(ops[..n], i, key);
      } else {
        LastOnWithout(ops[..n], i, j, key);
      }
      assert rest[..|rest| - 1] == Without(ops[..n], i);
    }
  }

  lemma {:induction false} LastOnAbsent(ops: seq<Op>, i: nat, key: Bytes)
    requires i < |ops| && ops[i].key != key
    ensures LastOn(Without(ops, i), key) == LastOn(ops, key)
    decreases |ops|
  {
    var n := |ops| - 1;
    var rest := Without(ops, i);
    if i == n {
      assert rest == ops[..n];
    } else {
      assert rest[|rest| - 1] == ops[n];
      if ops[n].key != key {
        LastOnAbsent(ops[..n], i, key);
        assert rest[..|rest| - 1] == Without(ops[..n], i);
      }
    }
  }

  /** An earlier attempt left behind by a retry changes nothing once a later command has hit its
      key, whatever other clients did before, in between or after. */
  lemma EarlierAttemptIsInvisible(merge: Merge, kv: Store, ops: seq<Op>, i: nat, j: nat)
    requires AllBlind(ops)
    requires i < j < |ops| && ops[i].key == ops[j].key
    ensures AllBlind(Without(ops, i))
    ensures ApplyAll(merge, kv, Without(ops, i)) == ApplyAll(merge, kv, ops)
  {
    forall key ensures LastOn(Without(ops, i), key) == LastOn(ops, key) {
      LastOnWithout(ops, i, j, key);
    }
    LastWriterWins(merge, kv, Without(ops, i), ops);
  }

  /** The history with every attempt of a command but the last taken out. */
  function KeepLast(ops: seq<Op>, op: Op): seq<Op> {
    if ops == [] then []
    else (if ops[0] == op && op in ops[1..] then [] else [ops[0]]) + KeepLast(ops[1..], op)
  }

  /** However often a client's retry loop had its command logged, between whatever other commands,
      the store ends up as if only the last attempt had been logged. */
  lemma {:induction false} RetriesAreInvisible(merge: Merge, kv: Store, ops: seq<Op>, op: Op)
    requires AllBlind(ops)
    ensures AllBlind(KeepLast(ops, op)) && ApplyAll(merge, kv, KeepLast(ops, op)) == ApplyAll(merge, kv, ops)
    decreases |ops|
  {
    if ops != [] {
      if ops[0] == op && op in ops[1..] {
        var j :| 1 <= j < |ops| && ops[j] == op;
        EarlierAttemptIsInvisible(merge, kv, ops, 0, j);
        assert Without(ops, 0) == ops[1..] && KeepLast(ops, op) == KeepLast(ops[1..], op);
        RetriesAreInvisible(merge, kv, ops[1..], op);
      } else {
        RetriesAreInvisible(merge, Apply(merge, kv, ops[0]), ops[1..], op);
        assert KeepLast(ops, op)[1..] == KeepLast(ops[1..], op);
      }
    }
  }

  /** So repeating a client's call, update or not, any number of times and between whatever other
      calls, leaves the store as if only its last attempt had come through. */
  lemma RepeatedCallsAreInvisible(merge: Merge, kv: Store, calls: seq<Call>, call: Call)
    requires forall i | 0 <= i < |calls| :: Sendable(calls[i])
    ensures var ops := LoggedAll(calls);
            && AllBlind(ops) && AllBlind(KeepLast(ops, Logged(call)))
            && ApplyAll(merge, kv, KeepLast(ops, Logged(call))) == ApplyAll(merge, kv, ops)
  {
    RetriesAreInvisible(merge, kv, LoggedAll(calls), Logged(call));
  }

  /** One attempt is left if there was any, and every other command is left as often as it was. */
  lemma {:induction false} KeepLastKeepsOne(ops: seq<Op>, op: Op, other: Op)
    ensures multiset(KeepLast(ops, op))[other]
            == if other == op then (if op in ops then 1 else 0) else multiset(ops)[other]
  {
    if ops != [] {
      KeepLastKeepsOne(ops[1..], op, other);
      assert ops == [ops[0]] + ops[1..];
      if ops[0] == op && op in ops[1..] {
        assert KeepLast(ops, op) == KeepLast(ops[1..], op);
      }
    }
  }

  /** Had the server logged updates as updates, a repeated attempt could be seen. */
  lemma RepeatedUpdateIsVisible()
    ensures var merge: Merge := (held: Option<Bytes>, delta: Bytes) =>
              Some((if held.Some? then held.value else []) + delta);
            var op := MakeUpdate([1], [2]);
            && Known(op)
            && ApplyAll(merge, map[], [op, op]) != ApplyAll(merge, map[], Without([op, op], 0))
  {
    var merge: Merge := (held: Option<Bytes>, delta: Bytes) =>
      Some((if held.Some? then held.value else []) + delta);
    var op := MakeUpdate([1], [2]);
    assert Without([op, op], 0) == [op] && [op, op][1..] == [op];
    var once := Apply(merge, map[], op);
    assert once[[1]] == [2];
    assert Apply(merge, once, op)[[1]] == [2, 2];
    assert ApplyAll(merge, map[], [op, op]) == ApplyAll(merge, once, [op]) == Apply(merge, once, op);
    assert ApplyAll(merge, map[], [op]) == once;
  }
}
