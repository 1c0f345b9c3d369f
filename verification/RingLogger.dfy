/** The ring logger when calls do not overlap: nothing is lost and order is kept. */
module RingLogger {
  import opened Wire
  import opened RingThreads

  /** The state a call leaves: the ring, the rotated files and the open one, the revision of the
      open file, the compressor's queue and the job counter. */
  datatype Logger = Logger(
    slots: seq<Slot>, cursor: nat, closed: seq<Bytes>, open: Bytes, maxSize: nat,
    rev: nat, queue: seq<nat>, jobs: nat)

  predicate Resting(l: Logger) {
    && l.cursor < |l.slots|
    && forall i | 0 <= i < |l.slots| :: RestingSlot(l.slots[i])
  }

  predicate RestingSlot(slot: Slot) {
    && (slot.status == CLEAN || slot.status == DIRTY)
    && |slot.ctx| == MSG_SIZE && slot.len <= MSG_SIZE
  }

  /** The messages in the dirty slots, in order. */
  function Messages(slots: seq<Slot>): seq<Bytes>
    requires forall i | 0 <= i < |slots| :: RestingSlot(slots[i])
  {
    if slots == [] then []
    else Messages(slots[..|slots| - 1]) + (if Last(slots).status == DIRTY then [Text(Last(slots))] else [])
  }

  function Last(slots: seq<Slot>): Slot
    requires slots != []
  {
    slots[|slots| - 1]
  }

  function Text(slot: Slot): Bytes
    requires RestingSlot(slot)
  {
    slot.ctx[..slot.len]
  }

  function Cleaned(slot: Slot): Slot {
    slot.(status := CLEAN)
  }

  function CleanedAll(slots: seq<Slot>): seq<Slot> {
    seq(|slots|, i requires 0 <= i < |slots| => Cleaned(slots[i]))
  }

  /** The file that passed the limit is closed and queued for compression. */
  function Rotated(l: Logger): Logger {
    if l.maxSize != 0 && |l.open| > l.maxSize then
      l.(closed := l.closed + [l.open], open := [], rev := l.rev + 1, queue := l.queue + [l.rev], jobs := l.jobs + 1)
    else l
  }

  function Flushed(l: Logger, start: nat): Logger
    requires Resting(l) && start <= |l.slots|
  {
    Rotated(l.(slots := CleanedAll(l.slots), open := l.open + Cat(Messages(Round(l.slots, start)))))
  }

  function Filled(slot: Slot, msg: Bytes): Slot
    requires RestingSlot(slot)
  {
    Slot(DIRTY, |Cut(msg)|, Cut(msg) + slot.ctx[|Cut(msg)|..])
  }

  function AfterPut(l: Logger, msg: Bytes): Logger
    requires Resting(l)
  {
    var c := l.cursor;
    var l' := if l.slots[c].status == DIRTY then Flushed(l, c) else l;
    l'.(slots := l'.slots[c := Filled(l'.slots[c], msg)], cursor := (c + 1) % |l.slots|)
  }

  class SimpleLogger {
    const logs: array<Slot>
    const maxLogFileSize: nat
    var cursor: nat
    var closed: seq<Bytes>
    var open: Bytes
    var curRevnum: nat
    var pendingComp: seq<nat>
    var numCompJobs: nat
    var curLogLevel: int
    /** Whether the output stream is good. */
    var fs: bool

    ghost function State(): Logger
      reads this, logs
    {
      Logger(logs[..], cursor, closed, open, maxLogFileSize, curRevnum, pendingComp, numCompJobs)
    }

    ghost predicate Valid()
      reads this, logs
    {
      Resting(State())
    }

    /** Start on the file of revision `rev`, which already holds `before`. */
    constructor (elems: nat, rev: nat, before: Bytes, limit: nat)
      requires 0 < elems
      ensures Valid() && fresh(logs) && fs && curLogLevel == 4 && Holds(State(), [])
      ensures State() == Logger(seq(elems, _ => Slot(CLEAN, 0, seq(MSG_SIZE, _ => 0))), 0, [], before, limit, rev, [], 0)
    {
      logs := new Slot[elems](_ => Slot(CLEAN, 0, seq(MSG_SIZE, _ => 0)));
      cursor, closed, open, maxLogFileSize := 0, [], before, limit;
      curRevnum, pendingComp, numCompJobs, curLogLevel, fs := rev, [], 0, 4, true;
      new;
      CleanRound(logs[..], 0);
      assert CleanedAll(logs[..]) == logs[..];
    }

    method WriteElem(i: nat, msg: Bytes) returns (rc: int)
      requires i < logs.Length && RestingSlot(logs[i])
      modifies logs
      ensures logs[..] == if old(logs[i]).status == CLEAN then old(logs[..])[i := Filled(old(logs[i]), msg)]
                          else old(logs[..])
      ensures rc == 0 <==> old(logs[i]).status == CLEAN
    {
      if logs[i].status != CLEAN {
        return -1;
      }
      logs[i] := logs[i].(status := WRITING);
      var len := if |msg| > MSG_SIZE then MSG_SIZE else |msg|;
      logs[i] := logs[i].(len := len, ctx := msg[..len] + logs[i].ctx[len..]);
      logs[i] := logs[i].(status := DIRTY);
      assert msg[..len] == Cut(msg);
      assert logs[..] == old(logs[..])[i := Filled(old(logs[i]), msg)];
      return 0;
    }

    method FlushElem(i: nat) returns (rc: int)
      requires i < logs.Length && RestingSlot(logs[i])
      modifies logs, `open
      ensures logs[..] == old(logs[..])[i := Cleaned(old(logs[i]))]
      ensures open == old(open) + (if old(logs[i]).status == DIRTY then Text(old(logs[i])) else [])
      ensures rc == 0 <==> old(logs[i]).status == DIRTY
    {
      if logs[i].status != DIRTY {
        assert logs[i] == Cleaned(logs[i]);
        return -1;
      }
      logs[i] := logs[i].(status := FLUSHING);
      open := open + logs[i].ctx[..logs[i].len];
      logs[i] := logs[i].(status := CLEAN);
      return 0;
    }

    /** Flush a stretch of the ring in order. */
    method Sweep(from: nat, to: nat)
      requires from <= to <= logs.Length && Valid()
      modifies logs, `open
      ensures forall i | 0 <= i < logs.Length ::
                logs[i] == if from <= i < to then Cleaned(old(logs[i])) else old(logs[i])
      ensures open == old(open) + Cat(Messages(old(logs[from..to])))
    {
      ghost var was := logs[..];
      ghost var before := open;
      assert was[from..from] == [];
      for ii := from to to
        invariant forall i | 0 <= i < logs.Length :: logs[i] == if from <= i < ii then Cleaned(was[i]) else was[i]
        invariant open == before + Cat(Messages(was[from..ii]))
      {
        ghost var text := if was[ii].status == DIRTY then Text(was[ii]) else [];
        var _ := FlushElem(ii);
        MessagesStep(was, from, ii);
        Assoc(before, Cat(Messages(was[from..ii])), text);
      }
      assert old(logs[from..to]) == was[from..to];
    }

    method Flush(start: nat) returns (done: bool)
      requires Valid() && start <= logs.Length
      modifies this, logs
      ensures done && State() == Flushed(old(State()), start)
      ensures curLogLevel == old(curLogLevel) && fs == old(fs)
    {
      SweepRound(start);
      Rotate();
      return true;
    }

    /** The two loops of `flush`: from `start` to the end, then from the beginning to `start`. */
    method SweepRound(start: nat)
      requires Valid() && start <= logs.Length
      modifies logs, `open
      ensures logs[..] == CleanedAll(old(logs[..]))
      ensures open == old(open) + Cat(Messages(Round(old(logs[..]), start)))
    {
      ghost var slots, before := logs[..], open;
      Sweep(start, logs.Length);
      assert logs[0..start] == slots[..start] && slots[start..logs.Length] == slots[start..];
      assert open == before + Cat(Messages(slots[start..]));
      Sweep(0, start);
      RoundText(slots, start);
      Assoc(before, Cat(Messages(slots[start..])), Cat(Messages(slots[..start])));
    }

    /** The end of `flush`: past the limit, go on to a new file and queue the old one. */
    method Rotate()
      modifies this
      ensures State() == Rotated(old(State()))
      ensures curLogLevel == old(curLogLevel) && fs == old(fs)
    {
      if maxLogFileSize != 0 && |open| > maxLogFileSize {
        curRevnum := curRevnum + 1;
        closed := closed + [open];
        open := [];
        numCompJobs := numCompJobs + 1;
        pendingComp := pendingComp + [curRevnum - 1];
      }
    }

    method Put(level: int, msg: Bytes)
      requires Valid()
      modifies this, logs
      ensures State() == if level > curLogLevel || !fs then old(State()) else AfterPut(old(State()), msg)
      ensures curLogLevel == old(curLogLevel) && fs == old(fs)
    {
      if level > curLogLevel || !fs {
        return;
      }
      var claimed := cursor;
      cursor := (claimed + 1) % logs.Length;
      if logs[claimed].status == DIRTY {
        var _ := Flush(claimed);
      }
      var _ := WriteElem(claimed, msg);
    }

    method FlushAll()
      requires Valid()
      modifies this, logs
      ensures State() == Flushed(old(State()), old(cursor))
      ensures curLogLevel == old(curLogLevel) && fs == old(fs)
    {
      var _ := Flush(cursor);
    }
  }

  // ---- What runs of calls keep ----

  /** Everything put so far: the files in revision order, then the ring from the cursor round. */
  function All(l: Logger): Bytes
    requires Resting(l)
  {
    Cat(l.closed) + l.open + Cat(Messages(Round(l.slots, l.cursor)))
  }

  /** Rotation numbers and queues what it closes in order. */
  ghost predicate Numbered(l: Logger) {
    && l.jobs == |l.queue| <= l.rev
    && forall i | 0 <= i < |l.queue| :: l.queue[i] == l.rev - |l.queue| + i
  }

  /** Files rotate just after passing the limit, by at most one ring of messages, and never if there is
      no limit; only the file the logger was started on, with `first` bytes in it, may be larger. */
  ghost predicate Sized(l: Logger, first: nat) {
    if l.maxSize == 0 then l.closed == []
    else
      && |l.open| <= SizeLimit(l.maxSize, first, |l.closed|)
      && (forall i | 0 <= i < |l.closed| ::
            l.maxSize < |l.closed[i]| <= SizeLimit(l.maxSize, first, i) + |l.slots| * MSG_SIZE)
  }

  lemma {:induction false} CleanedHasNoMessages(slots: seq<Slot>)
    requires forall i | 0 <= i < |slots| :: RestingSlot(slots[i]) && slots[i].status == CLEAN
    ensures Messages(slots) == []
  {
    if slots != [] {
      CleanedHasNoMessages(slots[..|slots| - 1]);
    }
  }

  lemma {:induction false} MessagesSize(slots: seq<Slot>)
    requires forall i | 0 <= i < |slots| :: RestingSlot(slots[i])
    ensures |Cat(Messages(slots))| <= |slots| * MSG_SIZE
  {
    if slots != [] {
      var n := |slots| - 1;
      MessagesSize(slots[..n]);
      assert slots[0..n + 1] == slots && slots[0..n] == slots[..n];
      MessagesStep(slots, 0, n);
    }
  }

  lemma FlushedKeeps(l: Logger, start: nat)
    requires Resting(l) && Numbered(l) && start < |l.slots|
    ensures var l' := Flushed(l, start);
            && Resting(l') && Numbered(l') && |l'.slots| == |l.slots| && l'.cursor == l.cursor
            && (forall i | 0 <= i < |l.slots| :: l'.slots[i] == Cleaned(l.slots[i]))
            && Cat(l'.closed) + l'.open == Cat(l.closed) + l.open + Cat(Messages(Round(l.slots, start)))
            && l'.rev - |l'.closed| == l.rev - |l.closed|
  {
    var text := Cat(Messages(Round(l.slots, start)));
    CatSnoc(l.closed, l.open + text);
    Assoc(Cat(l.closed), l.open, text);
    Assoc(Cat(l.closed), l.open + text, []);
  }

  lemma FlushedKeepsSized(l: Logger, start: nat, first: nat)
    requires Resting(l) && Sized(l, first) && start < |l.slots|
    ensures Sized(Flushed(l, start), first)
  {
    MessagesSize(Round(l.slots, start));
  }

  lemma PutKeepsSized(l: Logger, msg: Bytes, first: nat)
    requires Resting(l) && Sized(l, first)
    ensures Sized(AfterPut(l, msg), first)
  {
    if l.slots[l.cursor].status == DIRTY {
      FlushedKeepsSized(l, l.cursor, first);
    }
  }

  /** A flush from the cursor empties the ring into the files and changes nothing else put. */
  lemma FlushAllKeeps(l: Logger)
    requires Resting(l) && Numbered(l)
    ensures var l' := Flushed(l, l.cursor);
            && Resting(l') && Numbered(l') && All(l') == All(l)
            && Messages(Round(l'.slots, l'.cursor)) == []
            && l'.rev - |l'.closed| == l.rev - |l.closed|
  {
    FlushedKeeps(l, l.cursor);
    var l' := Flushed(l, l.cursor);
    CleanedHasNoMessages(Round(l'.slots, l'.cursor));
    Assoc(Cat(l'.closed), l'.open, []);
  }

  /** Writing into the clean slot at the cursor adds the message behind all others. */
  lemma FillMessages(slots: seq<Slot>, c: nat, msg: Bytes)
    requires c < |slots| && (forall i | 0 <= i < |slots| :: RestingSlot(slots[i])) && slots[c].status == CLEAN
    ensures var full := Filled(slots[c], msg);
            && RestingSlot(full)
            && Messages(Round(slots[c := full], (c + 1) % |slots|)) == Messages(Round(slots, c)) + [Cut(msg)]
  {
    var full := Filled(slots[c], msg);
    var rest := slots[c + 1..] + slots[..c];
    assert Text(full) == Cut(msg);
    RoundAfterFill(slots, c, full);
    MessagesAppend([slots[c]], rest);
    CleanedHasNoMessages([slots[c]]);
    assert (rest + [full])[..|rest|] == rest;
  }

  lemma FillKeeps(l: Logger, msg: Bytes)
    requires Resting(l) && Numbered(l) && l.slots[l.cursor].status == CLEAN
    ensures var l' := AfterPut(l, msg);
            Resting(l') && Numbered(l') && All(l') == All(l) + Cut(msg)
  {
    FillMessages(l.slots, l.cursor, msg);
    var ms := Messages(Round(l.slots, l.cursor));
    CatSnoc(ms, Cut(msg));
    Assoc(Cat(l.closed) + l.open, Cat(ms), Cut(msg));
  }

  /** A put appends its message to everything put, also when it has to flush the ring first. */
  lemma PutAppends(l: Logger, msg: Bytes)
    requires Resting(l) && Numbered(l)
    ensures var l' := AfterPut(l, msg);
            && Resting(l') && Numbered(l') && All(l') == All(l) + Cut(msg)
            && l'.rev - |l'.closed| == l.rev - |l.closed|
  {
    if l.slots[l.cursor].status == DIRTY {
      FlushAllKeeps(l);
      FlushedKeeps(l, l.cursor);
      var l' := Flushed(l, l.cursor);
      FillKeeps(l', msg);
      assert AfterPut(l', msg) == AfterPut(l, msg);
    } else {
      FillKeeps(l, msg);
    }
  }

  datatype Call = Put(msg: Bytes) | FlushAll

  function AfterCall(l: Logger, call: Call): Logger
    requires Resting(l)
  {
    if call.Put? then AfterPut(l, call.msg) else Flushed(l, l.cursor)
  }

  function TextOf(call: Call): Bytes {
    if call.Put? then Cut(call.msg) else []
  }

  lemma CallAppends(l: Logger, call: Call)
    requires Resting(l) && Numbered(l)
    ensures var l' := AfterCall(l, call);
            && Resting(l') && Numbered(l') && All(l') == All(l) + TextOf(call)
            && l'.rev - |l'.closed| == l.rev - |l.closed|
  {
    if call.Put? {
      PutAppends(l, call.msg);
    } else {
      FlushAllKeeps(l);
      assert All(l) + [] == All(l);
    }
  }

  function RunCalls(l: Logger, calls: seq<Call>): Logger
    requires Resting(l) && Numbered(l)
    decreases |calls|
  {
    if calls == [] then l else CallAppends(l, calls[0]); RunCalls(AfterCall(l, calls[0]), calls[1..])
  }

  function Texts(calls: seq<Call>): Bytes {
    if calls == [] then [] else TextOf(calls[0]) + Texts(calls[1..])
  }

  /** In every run of calls that do not overlap, the files in revision order followed by the ring
      from the cursor are all messages put, each cut to size, in the order they were put, and the
      files are numbered consecutively. */
  lemma {:induction false} RunIsFifo(l: Logger, calls: seq<Call>)
    requires Resting(l) && Numbered(l)
    ensures var l' := RunCalls(l, calls);
            && Resting(l') && Numbered(l') && All(l') == All(l) + Texts(calls)
            && l'.rev - |l'.closed| == l.rev - |l.closed|
    decreases |calls|
  {
    if calls == [] {
      assert All(l) + [] == All(l);
    } else {
      CallAppends(l, calls[0]);
      RunIsFifo(AfterCall(l, calls[0]), calls[1..]);
      Assoc(All(l), TextOf(calls[0]), Texts(calls[1..]));
    }
  }

  /** In every such run files keep to their size; the one started on may be oversized already. */
  lemma {:induction false} RunIsSized(l: Logger, calls: seq<Call>, first: nat)
    requires Resting(l) && Numbered(l) && Sized(l, first)
    ensures Sized(RunCalls(l, calls), first)
    decreases |calls|
  {
    if calls != [] {
      CallAppends(l, calls[0]);
      if calls[0].Put? {
        PutKeepsSized(l, calls[0].msg, first);
      } else {
        FlushedKeepsSized(l, l.cursor, first);
      }
      RunIsSized(AfterCall(l, calls[0]), calls[1..], first);
    }
  }

  // ---- When messages go to the files ----

  /** Going round from the cursor, the last `m` slots are dirty and those before them are not. */
  ghost predicate Tail(slots: seq<Slot>, m: nat) {
    m <= |slots| && forall i | 0 <= i < |slots| :: slots[i].status == DIRTY <==> |slots| - m <= i
  }

  /** The messages waiting in a ring of `n` slots after a call, if `held` waited before: a put that finds
      the ring full, and every flush, sends what waits to the files. */
  function WaitingAfter(n: nat, held: seq<Bytes>, call: Call): seq<Bytes> {
    match call
    case FlushAll => []
    case Put(msg) => (if |held| == n then [] else held) + [Cut(msg)]
  }

  function Waiting(n: nat, held: seq<Bytes>, calls: seq<Call>): seq<Bytes>
    decreases |calls|
  {
    if calls == [] then held else Waiting(n, WaitingAfter(n, held, calls[0]), calls[1..])
  }

  /** The messages `held` wait in the slots behind the cursor. */
  ghost predicate Holds(l: Logger, held: seq<Bytes>) {
    Resting(l) && Messages(Round(l.slots, l.cursor)) == held && Tail(Round(l.slots, l.cursor), |held|)
  }

  lemma TailSnoc(x: Slot, rest: seq<Slot>, full: Slot, m: nat)
    requires Tail([x] + rest, m) && x.status != DIRTY && full.status == DIRTY
    ensures Tail(rest + [full], m + 1)
  {
    assert ([x] + rest)[0] == x;
    forall i | 0 <= i < |rest| ensures (rest + [full])[i].status == DIRTY <==> |rest| - m <= i {
      assert ([x] + rest)[i + 1] == rest[i];
    }
  }

  lemma FillTail(slots: seq<Slot>, c: nat, full: Slot, m: nat)
    requires c < |slots| && Tail(Round(slots, c), m) && slots[c].status != DIRTY && full.status == DIRTY
    ensures Tail(Round(slots[c := full], (c + 1) % |slots|), m + 1)
  {
    RoundAfterFill(slots, c, full);
    TailSnoc(slots[c], slots[c + 1..] + slots[..c], full, m);
  }

  lemma FillRests(l: Logger, msg: Bytes)
    requires Resting(l) && l.slots[l.cursor].status == CLEAN
    ensures var (l', full) := (AfterPut(l, msg), Filled(l.slots[l.cursor], msg));
            && Resting(l') && full.status == DIRTY
            && l' == l.(slots := l.slots[l.cursor := full], cursor := (l.cursor + 1) % |l.slots|)
  {
    NextNumber(l.cursor, |l.slots|);
  }

  lemma FillPutsLast(l: Logger, msg: Bytes)
    requires Resting(l) && l.slots[l.cursor].status == CLEAN
    ensures var l' := AfterPut(l, msg);
            && Resting(l') && |l'.slots| == |l.slots|
            && Messages(Round(l'.slots, l'.cursor)) == Messages(Round(l.slots, l.cursor)) + [Cut(msg)]
  {
    FillRests(l, msg);
    FillMessages(l.slots, l.cursor, msg);
  }

  lemma FillKeepsTail(l: Logger, msg: Bytes, m: nat)
    requires Resting(l) && l.slots[l.cursor].status == CLEAN && Tail(Round(l.slots, l.cursor), m)
    ensures var l' := AfterPut(l, msg); l'.cursor < |l'.slots| && Tail(Round(l'.slots, l'.cursor), m + 1)
  {
    FillRests(l, msg);
    FillTail(l.slots, l.cursor, Filled(l.slots[l.cursor], msg), m);
  }

  lemma FillHolds(l: Logger, msg: Bytes, held: seq<Bytes>)
    requires Holds(l, held) && l.slots[l.cursor].status == CLEAN
    ensures Holds(AfterPut(l, msg), held + [Cut(msg)]) && |AfterPut(l, msg).slots| == |l.slots|
  {
    FillPutsLast(l, msg);
    FillKeepsTail(l, msg, |held|);
  }

  lemma CleanRound(slots: seq<Slot>, c: nat)
    requires c <= |slots| && forall i | 0 <= i < |slots| :: RestingSlot(slots[i])
    ensures forall i | 0 <= i < |slots| :: RestingSlot(Round(CleanedAll(slots), c)[i])
    ensures Messages(Round(CleanedAll(slots), c)) == [] && Tail(Round(CleanedAll(slots), c), 0)
  {
    var ring := Round(CleanedAll(slots), c);
    forall i | 0 <= i < |ring| ensures RestingSlot(ring[i]) && ring[i].status == CLEAN {
      assert ring[i] in CleanedAll(slots);
    }
    CleanedHasNoMessages(ring);
  }

  lemma FlushHolds(l: Logger)
    requires Resting(l)
    ensures Holds(Flushed(l, l.cursor), []) && |Flushed(l, l.cursor).slots| == |l.slots|
  {
    CleanRound(l.slots, l.cursor);
    FlushedRests(l);
  }

  lemma FlushedRests(l: Logger)
    requires Resting(l)
    ensures var l' := Flushed(l, l.cursor); Resting(l') && l'.slots == CleanedAll(l.slots) && l'.cursor == l.cursor
  {
  }

  /** The slot at the cursor is dirty exactly when the ring is full. */
  lemma CursorDirtyIff(l: Logger, held: seq<Bytes>)
    requires Holds(l, held)
    ensures l.slots[l.cursor].status == DIRTY <==> |held| == |l.slots|
  {
    assert Round(l.slots, l.cursor)[0] == l.slots[l.cursor];
  }

  lemma FlushedFirst(l: Logger, msg: Bytes)
    requires Resting(l) && l.slots[l.cursor].status == DIRTY
    ensures Resting(Flushed(l, l.cursor)) && AfterPut(l, msg) == AfterPut(Flushed(l, l.cursor), msg)
  {
  }

  /** A call leaves waiting what it should; a put that finds room writes nothing to the files. */
  lemma CallHolds(l: Logger, call: Call, held: seq<Bytes>)
    requires Holds(l, held)
    ensures Holds(AfterCall(l, call), WaitingAfter(|l.slots|, held, call)) && |AfterCall(l, call).slots| == |l.slots|
    ensures call.Put? && |held| < |l.slots| ==> AfterCall(l, call).(slots := l.slots, cursor := l.cursor) == l
  {
    CursorDirtyIff(l, held);
    FlushHolds(l);
    if call.Put? {
      if |held| == |l.slots| {
        FlushedFirst(l, call.msg);
        FillHolds(Flushed(l, l.cursor), call.msg, []);
      } else {
        FillHolds(l, call.msg, held);
      }
    }
  }

  /** In every run of calls from a ring in which the last messages wait behind the cursor, as in a fresh
      one, just those messages wait that came since the last flush or the last put that found the ring
      full. With `RunIsFifo`, this says which messages are in the files. */
  lemma {:induction false} RunHolds(l: Logger, calls: seq<Call>, held: seq<Bytes>)
    requires Holds(l, held) && Numbered(l)
    ensures Holds(RunCalls(l, calls), Waiting(|l.slots|, held, calls))
    decreases |calls|
  {
    if calls != [] {
      CallHolds(l, calls[0], held);
      CallAppends(l, calls[0]);
      RunHolds(AfterCall(l, calls[0]), calls[1..], WaitingAfter(|l.slots|, held, calls[0]));
    }
  }

  lemma {:induction false} CatAppend(xs: seq<Bytes>, ys: seq<Bytes>)
    ensures Cat(xs + ys) == Cat(xs) + Cat(ys)
  {
    if ys == [] {
      assert xs + ys == xs;
    } else {
      CatAppend(xs, ys[..|ys| - 1]);
      assert (xs + ys)[..|xs + ys| - 1] == xs + ys[..|ys| - 1];
    }
  }

  lemma {:induction false} MessagesAppend(xs: seq<Slot>, ys: seq<Slot>)
    requires forall i | 0 <= i < |xs| :: RestingSlot(xs[i])
    requires forall i | 0 <= i < |ys| :: RestingSlot(ys[i])
    ensures Messages(xs + ys) == Messages(xs) + Messages(ys)
  {
    if ys == [] {
      assert xs + ys == xs;
    } else {
      MessagesAppend(xs, ys[..|ys| - 1]);
      assert (xs + ys)[..|xs + ys| - 1] == xs + ys[..|ys| - 1];
    }
  }

  lemma MessagesStep(slots: seq<Slot>, from: nat, i: nat)
    requires from <= i < |slots| && forall j | 0 <= j < |slots| :: RestingSlot(slots[j])
    ensures Cat(Messages(slots[from..i + 1]))
            == Cat(Messages(slots[from..i])) + (if slots[i].status == DIRTY then Text(slots[i]) else [])
  {
    var next := slots[from..i + 1];
    assert next[..|next| - 1] == slots[from..i];
    if slots[i].status == DIRTY {
      CatSnoc(Messages(slots[from..i]), Text(slots[i]));
    } else {
      assert Messages(next) == Messages(slots[from..i]);
    }
  }

  lemma RoundText(slots: seq<Slot>, start: nat)
    requires start <= |slots| && forall j | 0 <= j < |slots| :: RestingSlot(slots[j])
    ensures Cat(Messages(Round(slots, start)))
            == Cat(Messages(slots[start..])) + Cat(Messages(slots[..start]))
  {
    MessagesAppend(slots[start..], slots[..start]);
    CatAppend(Messages(slots[start..]), Messages(slots[..start]));
  }
}
