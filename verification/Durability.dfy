/** What the emulated disk promises over whole runs of appends, overwrites and ticks. */
module Durability {
  import opened Wire
  import opened LogStore
  import opened RaftLog

  /** The part of the store the emulation works on, with the last log index and the clock. */
  datatype Disk = Disk(pending: map<nat, nat>, durable: nat, last: nat, clock: nat, delay: nat)

  datatype Event =
    | Append(now: nat)
    | WriteAt(now: nat, i: nat)
    | Tick(now: nat)

  /** The clock never goes back, and an overwrite leaves what is durable in place. */
  predicate Enabled(d: Disk, ev: Event) {
    && d.clock <= ev.now
    && (ev.WriteAt? ==> d.durable <= ev.i <= d.last + 1)
  }

  function Step(d: Disk, ev: Event): Disk {
    match ev
    case Append(now) =>
      d.(pending := d.pending[now + d.delay := d.last + 1], last := d.last + 1, clock := now)
    case WriteAt(now, i) =>
      d.(pending := PendingWriteAt(d.pending, now + d.delay, i), last := i, clock := now)
    case Tick(now) =>
      d.(pending := PendingAfter(d.pending, now), durable := DurableAfter(d.pending, d.durable, now), clock := now)
  }

  predicate AllEnabled(d: Disk, evs: seq<Event>)
    decreases |evs|
  {
    evs != [] ==> Enabled(d, evs[0]) && AllEnabled(Step(d, evs[0]), evs[1..])
  }

  function Run(d: Disk, evs: seq<Event>): Disk
    decreases |evs|
  {
    if evs == [] then d else Run(Step(d, evs[0]), evs[1..])
  }

  ghost predicate Inv(d: Disk) {
    && d.durable <= d.last
    && (forall t <- d.pending :: t <= d.clock + d.delay && d.durable <= d.pending[t] <= d.last)
    && (forall t, u | t in d.pending && u in d.pending && t <= u :: d.pending[t] <= d.pending[u])
    && (d.durable == d.last || exists t :: t in d.pending && d.pending[t] == d.last)
  }

  lemma AppendKeepsInv(d: Disk, now: nat)
    requires Inv(d) && d.clock <= now
    ensures Inv(Step(d, Append(now)))
  {
    var d' := Step(d, Append(now));
    assert d'.pending[now + d.delay] == d'.last;
  }

  lemma WriteAtKeepsInv(d: Disk, now: nat, i: nat)
    requires Inv(d) && Enabled(d, WriteAt(now, i))
    ensures Inv(Step(d, WriteAt(now, i)))
  {
    var d' := Step(d, WriteAt(now, i));
    assert d'.pending[now + d.delay] == d'.last;
  }

  lemma TickKeepsInv(d: Disk, now: nat)
    requires Inv(d) && d.clock <= now
    ensures Inv(Step(d, Tick(now))) && d.durable <= Step(d, Tick(now)).durable
  {
    var d' := Step(d, Tick(now));
    if d'.durable != d'.last {
      var t :| t in d.pending && d.pending[t] == d.last;
      assert t in d'.pending;
    }
  }

  lemma StepKeepsInv(d: Disk, ev: Event)
    requires Inv(d) && Enabled(d, ev)
    ensures Inv(Step(d, ev)) && d.durable <= Step(d, ev).durable
  {
    match ev
    case Append(now) => AppendKeepsInv(d, now);
    case WriteAt(now, i) => WriteAtKeepsInv(d, now, i);
    case Tick(now) => TickKeepsInv(d, now);
  }

  /** In every run the pending deadlines carry non-decreasing indices, the durable index never goes
      back and never passes the last index, and a tick after every deadline makes the two equal. */
  lemma {:induction false} RunIsDurable(d: Disk, evs: seq<Event>, now: nat)
    requires Inv(d) && AllEnabled(d, evs)
    ensures var d' := Run(d, evs);
            && Inv(d')
            && d.durable <= d'.durable <= d'.last
            && (d'.clock + d'.delay <= now ==> Step(d', Tick(now)).durable == d'.last)
    decreases |evs|
  {
    if evs == [] {
      if d.clock + d.delay <= now && d.durable != d.last {
        var t :| t in d.pending && d.pending[t] == d.last;
        assert LastDue(d.pending, now).Some?;
      }
    } else {
      StepKeepsInv(d, evs[0]);
      RunIsDurable(Step(d, evs[0]), evs[1..], now);
    }
  }

  /** That restriction on overwrites is exact: one below the durable index breaks the invariant. */
  lemma OverwriteIff(d: Disk, now: nat, i: nat)
    requires Inv(d) && d.clock <= now && i <= d.last + 1
    ensures Inv(Step(d, WriteAt(now, i))) <==> d.durable <= i
  {
    if d.durable <= i {
      StepKeepsInv(d, WriteAt(now, i));
    }
  }

  // ---- The durable index at any time ----

  /** An entry stored, appended or overwritten: at which index, and when it is due on the disk. */
  datatype Write = Write(due: nat, i: nat)

  /** What an event writes when the last index is `last`. */
  function WrittenBy(delay: nat, last: nat, ev: Event): seq<Write> {
    match ev
    case Append(now) => [Write(now + delay, last + 1)]
    case WriteAt(now, i) => [Write(now + delay, i)]
    case Tick(_) => []
  }

  /** The writes of a run with some delay that starts with the last index `last`. */
  function Writes(delay: nat, last: nat, evs: seq<Event>): seq<Write>
    decreases |evs|
  {
    if evs == [] then []
    else
      var ws := WrittenBy(delay, last, evs[0]);
      ws + Writes(delay, if evs[0].Tick? then last else ws[0].i, evs[1..])
  }

  /** A write stands if every later one is at its index or above, and is due later. */
  ghost predicate Stands(ws: seq<Write>, w: Write) {
    exists j: nat :: j < |ws| && ws[j] == w && NoneUndoes(ws, j)
  }

  predicate NoneUndoes(ws: seq<Write>, j: nat)
    requires j < |ws|
  {
    forall m | j < m < |ws| :: ws[j].i <= ws[m].i && ws[j].due < ws[m].due
  }

  /** A write at `k` or above stands and is due by `now`. */
  ghost predicate DurableBy(ws: seq<Write>, k: nat, now: nat) {
    exists w :: Stands(ws, w) && w.due <= now && k <= w.i
  }

  /** The pending deadline of a write that stands. */
  predicate IsPending(d: Disk, w: Write) {
    w.due in d.pending && d.pending[w.due] == w.i
  }

  /** The deadline of a write has come and the durable index is not below it. */
  predicate IsDurable(d: Disk, w: Write) {
    w.due <= d.clock && w.i <= d.durable
  }

  /** The durable index is `base` or that of a write that stands and whose deadline has come. */
  ghost predicate DurableStands(d: Disk, ws: seq<Write>, base: nat) {
    && base <= d.durable
    && (d.durable == base || exists w :: Stands(ws, w) && w.due <= d.clock && w.i == d.durable)
  }

  /** The pending deadlines and the durable index come from the writes that stand. */
  ghost predicate Tracks(d: Disk, ws: seq<Write>, base: nat) {
    && (forall w | Stands(ws, w) :: w.i <= d.last && w.due <= d.clock + d.delay && (IsPending(d, w) || IsDurable(d, w)))
    && (forall t <- d.pending :: Stands(ws, Write(t, d.pending[t])))
    && DurableStands(d, ws, base)
  }

  lemma StandsSnoc(ws: seq<Write>, w: Write, v: Write)
    ensures Stands(ws + [w], v) <==> v == w || (Stands(ws, v) && v.i <= w.i && v.due < w.due)
  {
    var ws' := ws + [w];
    assert ws'[|ws|] == w && NoneUndoes(ws', |ws|);
    if v != w && Stands(ws', v) {
      var j: nat :| j < |ws'| && ws'[j] == v && NoneUndoes(ws', j);
      forall m | j < m < |ws| ensures ws[j].i <= ws[m].i && ws[j].due < ws[m].due {
        assert ws'[m] == ws[m];
      }
      assert ws[j] == v && NoneUndoes(ws, j);
    }
    if Stands(ws, v) && v.i <= w.i && v.due < w.due {
      var j: nat :| j < |ws| && ws[j] == v && NoneUndoes(ws, j);
      assert ws'[j] == v && NoneUndoes(ws', j);
    }
  }

  /** After a write only it and the deadlines before it, with indices no higher, are pending. */
  lemma WrittenPending(d: Disk, ev: Event, t: nat)
    requires Inv(d) && Enabled(d, ev) && !ev.Tick?
    ensures var (d', w) := (Step(d, ev), WrittenBy(d.delay, d.last, ev)[0]);
            && (t in d'.pending <==> t == w.due || (t in d.pending && d.pending[t] <= w.i))
            && (t in d'.pending ==> d'.pending[t] == if t == w.due then w.i else d.pending[t])
  {
  }

  lemma PendingTracked(d: Disk, ws: seq<Write>, base: nat, ev: Event, t: nat)
    requires Inv(d) && Tracks(d, ws, base) && Enabled(d, ev) && !ev.Tick? && t in Step(d, ev).pending
    ensures Stands(ws + WrittenBy(d.delay, d.last, ev), Write(t, Step(d, ev).pending[t]))
  {
    var w := WrittenBy(d.delay, d.last, ev)[0];
    WrittenPending(d, ev, t);
    StandsSnoc(ws, w, Write(t, Step(d, ev).pending[t]));
  }

  lemma StandingTracked(d: Disk, ws: seq<Write>, base: nat, ev: Event, v: Write)
    requires Inv(d) && Tracks(d, ws, base) && Enabled(d, ev) && !ev.Tick? && Stands(ws + WrittenBy(d.delay, d.last, ev), v)
    ensures var d' := Step(d, ev);
            v.i <= d'.last && v.due <= d'.clock + d'.delay && (IsPending(d', v) || IsDurable(d', v))
  {
    StandsSnoc(ws, WrittenBy(d.delay, d.last, ev)[0], v);
    WrittenPending(d, ev, v.due);
  }

  lemma DurableTracked(d: Disk, ws: seq<Write>, base: nat, ev: Event)
    requires DurableStands(d, ws, base) && Enabled(d, ev) && 0 < d.delay && !ev.Tick?
    requires d.durable <= d.last
    ensures DurableStands(Step(d, ev), ws + WrittenBy(d.delay, d.last, ev), base)
  {
    if d.durable != base {
      var v :| Stands(ws, v) && v.due <= d.clock && v.i == d.durable;
      StandsSnoc(ws, WrittenBy(d.delay, d.last, ev)[0], v);
    }
  }

  /** A write, be it an append or an overwrite, is tracked. */
  lemma WriteTracked(d: Disk, ws: seq<Write>, base: nat, ev: Event)
    requires Inv(d) && Tracks(d, ws, base) && Enabled(d, ev) && 0 < d.delay && !ev.Tick?
    ensures Tracks(Step(d, ev), ws + WrittenBy(d.delay, d.last, ev), base)
  {
    var (d', ws') := (Step(d, ev), ws + WrittenBy(d.delay, d.last, ev));
    forall t <- d'.pending ensures Stands(ws', Write(t, d'.pending[t])) {
      PendingTracked(d, ws, base, ev, t);
    }
    forall v | Stands(ws', v)
      ensures v.i <= d'.last && v.due <= d'.clock + d'.delay && (IsPending(d', v) || IsDurable(d', v))
    {
      StandingTracked(d, ws, base, ev, v);
    }
    DurableTracked(d, ws, base, ev);
  }

  lemma TickTracked(d: Disk, ws: seq<Write>, base: nat, now: nat)
    requires Inv(d) && Tracks(d, ws, base) && d.clock <= now
    ensures Tracks(Step(d, Tick(now)), ws, base)
  {
    var d' := Step(d, Tick(now));
    StepKeepsInv(d, Tick(now));
    var due := LastDue(d.pending, now);
    if due.Some? {
      assert Stands(ws, Write(due.value, d.pending[due.value]));
    }
    forall w | Stands(ws, w) ensures IsPending(d', w) || IsDurable(d', w) {
      assert IsPending(d, w) || IsDurable(d, w);
    }
  }

  lemma StepTracked(d: Disk, ws: seq<Write>, base: nat, ev: Event)
    requires Inv(d) && Tracks(d, ws, base) && Enabled(d, ev) && 0 < d.delay
    ensures Inv(Step(d, ev)) && Step(d, ev).delay == d.delay
    ensures Tracks(Step(d, ev), ws + WrittenBy(d.delay, d.last, ev), base)
  {
    StepKeepsInv(d, ev);
    if ev.Tick? {
      TickTracked(d, ws, base, ev.now);
      assert ws + [] == ws;
    } else {
      WriteTracked(d, ws, base, ev);
    }
  }

  lemma LastWritten(d: Disk, ev: Event)
    ensures Step(d, ev).last == if ev.Tick? then d.last else WrittenBy(d.delay, d.last, ev)[0].i
  {
  }

  lemma WritesSplit(ws: seq<Write>, d: Disk, evs: seq<Event>)
    requires evs != []
    ensures ws + Writes(d.delay, d.last, evs)
            == ws + WrittenBy(d.delay, d.last, evs[0]) + Writes(d.delay, Step(d, evs[0]).last, evs[1..])
  {
    var (w, rest) := (WrittenBy(d.delay, d.last, evs[0]), Writes(d.delay, Step(d, evs[0]).last, evs[1..]));
    LastWritten(d, evs[0]);
    assert Writes(d.delay, d.last, evs) == w + rest;
    Assoc(ws, w, rest);
  }

  lemma {:induction false} RunTracked(d: Disk, ws: seq<Write>, base: nat, evs: seq<Event>)
    requires Inv(d) && Tracks(d, ws, base) && 0 < d.delay && AllEnabled(d, evs)
    ensures Inv(Run(d, evs)) && Tracks(Run(d, evs), ws + Writes(d.delay, d.last, evs), base)
    decreases |evs|
  {
    if evs == [] {
      assert ws + [] == ws;
    } else {
      StepTracked(d, ws, base, evs[0]);
      RunTracked(Step(d, evs[0]), ws + WrittenBy(d.delay, d.last, evs[0]), base, evs[1..]);
      WritesSplit(ws, d, evs);
    }
  }

  lemma NothingTracked(d: Disk)
    requires d.pending == map[]
    ensures Tracks(d, [], d.durable)
  {
  }

  lemma RunTrackedFromStart(d: Disk, evs: seq<Event>)
    requires Inv(d) && d.pending == map[] && 0 < d.delay && AllEnabled(d, evs)
    ensures Inv(Run(d, evs)) && Tracks(Run(d, evs), Writes(d.delay, d.last, evs), d.durable)
  {
    NothingTracked(d);
    RunTracked(d, [], d.durable, evs);
    assert [] + Writes(d.delay, d.last, evs) == Writes(d.delay, d.last, evs);
  }

  lemma TickDurableIff(d: Disk, ws: seq<Write>, base: nat, now: nat, k: nat)
    requires Inv(d) && Tracks(d, ws, base) && d.clock <= now
    ensures k <= Step(d, Tick(now)).durable <==> k <= base || DurableBy(ws, k, now)
  {
    TickTracked(d, ws, base, now);
    TickedDurable(Step(d, Tick(now)), ws, base, k);
  }

  lemma TickedDurable(d: Disk, ws: seq<Write>, base: nat, k: nat)
    requires Tracks(d, ws, base) && forall t <- d.pending :: d.clock < t
    ensures k <= d.durable <==> k <= base || DurableBy(ws, k, d.clock)
  {
  }

  /** At any time an entry is reported durable exactly when it was at the start, or some write at it
      or above that stands is due. */
  lemma DurableAtIff(d: Disk, evs: seq<Event>, now: nat, k: nat)
    requires Inv(d) && d.pending == map[] && 0 < d.delay && AllEnabled(d, evs) && Run(d, evs).clock <= now
    ensures k <= Step(Run(d, evs), Tick(now)).durable
            <==> k <= d.durable || DurableBy(Writes(d.delay, d.last, evs), k, now)
  {
    RunTrackedFromStart(d, evs);
    TickDurableIff(Run(d, evs), Writes(d.delay, d.last, evs), d.durable, now, k);
  }

  /** So an overwrite can hold back entries below it that it does not touch: three entries appended in
      one microsecond have one deadline, that of the third, and overwriting the second drops it. */
  lemma DeadlineLostExample()
    ensures var d := Disk(map[], 0, 0, 0, 10);
            var evs := [Append(0), Append(0), Append(0), WriteAt(5, 2)];
            && AllEnabled(d, evs)
            && Step(Run(d, evs), Tick(14)).durable == 0
            && Step(Run(d, evs), Tick(15)).durable == 2
  {
    var d := Disk(map[], 0, 0, 0, 10);
    var d3 := Disk(map[10 := 3], 0, 3, 0, 10);
    var d4 := Disk(map[15 := 2], 0, 2, 5, 10);
    var rest := [Append(0), WriteAt(5, 2)];
    assert Step(Step(Step(d, Append(0)), Append(0)), Append(0)) == d3;
    assert Step(d3, WriteAt(5, 2)) == d4;
  }

  /** Before the overwrite is due itself, an entry below it is durable exactly when it was already or
      some deadline has come that is for it or an entry above it, but none above the overwrite. */
  lemma KeptByOverwriteIff(d: Disk, now: nat, i: nat, later: nat, k: nat)
    requires Inv(d) && Enabled(d, WriteAt(now, i)) && now <= later < now + d.delay && k < i
    ensures k <= Step(Step(d, WriteAt(now, i)), Tick(later)).durable
            <==> k <= d.durable || exists t :: t in d.pending && t <= later && k <= d.pending[t] <= i
  {
    var d' := Step(d, WriteAt(now, i));
    WriteAtKeepsInv(d, now, i);
    if t :| t in d.pending && t <= later && k <= d.pending[t] <= i {
      assert t in d'.pending;
    }
    var due := LastDue(d'.pending, later);
    if due.Some? {
      assert due.value in d.pending && d.pending[due.value] == d'.pending[due.value] <= i;
    }
  }

  /** A rewritten entry is reported durable before its own deadline exactly when the entry it
      replaced was the last one durable already, or was pending with a deadline that has come. */
  lemma DurableEarlyIff(d: Disk, now: nat, i: nat, later: nat)
    requires Inv(d) && Enabled(d, WriteAt(now, i)) && now <= later < now + d.delay
    ensures Step(Step(d, WriteAt(now, i)), Tick(later)).durable == i
            <==> i == d.durable || exists t :: t in d.pending && t <= later && d.pending[t] == i
  {
    var d' := Step(d, WriteAt(now, i));
    StepKeepsInv(d, WriteAt(now, i));
    StepKeepsInv(d', Tick(later));
    if t :| t in d.pending && t <= later && d.pending[t] == i {
      assert t in d'.pending;
    }
    var due := LastDue(d'.pending, later);
    if due.Some? {
      assert due.value in d.pending && d.pending[due.value] == d'.pending[due.value];
    }
  }

  /** So the delay is not a lower bound: appended at 0, rewritten at 9 with a delay of 10, the entry
      is reported durable at 10, nine units before the rewrite is due. */
  lemma DurableEarlyExample()
    ensures var d := Disk(map[], 0, 0, 0, 10);
            Run(d, [Append(0), WriteAt(9, 1), Tick(10)]).durable == 1
  {
    var d := Disk(map[], 0, 0, 0, 10);
    var d1 := Step(d, Append(0));
    var d2 := Step(d1, WriteAt(9, 1));
    assert d2.pending[10] == 1;
    var evs := [Append(0), WriteAt(9, 1), Tick(10)];
    assert evs[1..] == [WriteAt(9, 1), Tick(10)] && evs[1..][1..] == [Tick(10)];
    assert Run(d, evs) == Run(d1, evs[1..]) == Run(d2, evs[1..][1..]) == Step(d2, Tick(10));
  }

  // ---- The store itself ----

  ghost function DiskOf(store: InMemLogStore, clock: nat): Disk
    requires store.Valid()
    reads store
  {
    Disk(store.beingWritten, store.lastDurable, store.Abs().Next() - 1, clock, store.diskDelay * 1000)
  }

  predicate InRange(ev: Event, start: nat) {
    ev.WriteAt? ==> start <= ev.i
  }

  /** An event, as a call on a store with a delay set. */
  method Happen(store: InMemLogStore, ev: Event, e: LogEntry, ghost clock: nat)
    requires store.Valid() && store.diskDelay != 0
    requires Enabled(DiskOf(store, clock), ev) && InRange(ev, store.startIdx)
    modifies store
    ensures store.Valid() && store.startIdx == old(store.startIdx) && store.diskDelay == old(store.diskDelay)
    ensures DiskOf(store, ev.now) == Step(old(DiskOf(store, clock)), ev)
  {
    match ev
    case Append(now) => var _ := store.Append(e, now);
    case WriteAt(now, i) => store.WriteAt(i, e, now);
    case Tick(now) => var _ := store.DiskTick(now);
  }

  /** A store whose delay is set before anything is written goes through any such run as the emulation
      does: at any time the durable index it reports is the highest of a write that stands and is due, and
      once every deadline has passed that of its last entry. */
  method Emulate(ms: nat, evs: seq<Event>, e: LogEntry, now: nat) returns (store: InMemLogStore, i: nat)
    requires ms != 0 && AllEnabled(Disk(map[], 0, 0, 0, ms * 1000), evs)
    requires forall k | 0 <= k < |evs| :: InRange(evs[k], 1)
    requires Run(Disk(map[], 0, 0, 0, ms * 1000), evs).clock <= now
    ensures store.Valid()
    ensures var d := Run(Disk(map[], 0, 0, 0, ms * 1000), evs);
            && store.Abs().Next() - 1 == d.last
            && (d.clock + d.delay <= now ==> i == d.last)
            && var ws := Writes(ms * 1000, 0, evs); (i == 0 || DurableBy(ws, i, now)) && !DurableBy(ws, i + 1, now)
  {
    ghost var start := Disk(map[], 0, 0, 0, ms * 1000);
    store := new InMemLogStore([]);
    store.SetDiskDelay(ms);
    ghost var clock := 0;
    for k := 0 to |evs|
      invariant store.Valid() && fresh(store) && store.diskDelay == ms && store.startIdx == 1
      invariant AllEnabled(DiskOf(store, clock), evs[k..])
      invariant Run(DiskOf(store, clock), evs[k..]) == Run(start, evs)
    {
      assert evs[k..][1..] == evs[k + 1..];
      Happen(store, evs[k], e, clock);
      clock := evs[k].now;
    }
    RunIsDurable(start, evs, now);
    var _ := store.DiskTick(now);
    i := store.LastDurableIndex();
    DurableAtIff(start, evs, now, i);
    DurableAtIff(start, evs, now, i + 1);
  }
}
