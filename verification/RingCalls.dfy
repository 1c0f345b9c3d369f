/** Calls on the ring that nothing disturbs come to what the logger's own code does. */
module RingCalls {
  import opened Wire
  import opened RingThreads
  import opened RingLogger

  // ---- Undisturbed runs ----

  predicate Leads(r: Ring, run: seq<Action>, r': Ring)
    requires Shaped(r)
  {
    Shaped(r') && AllEnabled(r, run) && Run(r, run) == r'
  }

  /** What the loads that only hint would say now: a put flushes its slot when it is dirty and writes
      when it is not, and a flush with no put starts from the cursor. */
  predicate Hinted(r: Ring, a: Action)
    requires Shaped(r) && Enabled(r, a)
  {
    && (a.BeginWrite? ==> r.slots[r.threads[a.t].slot].status != DIRTY)
    && (a.StartFlush? ==>
          if r.threads[a.t].Claimed? then r.slots[a.start].status == DIRTY else a.start == r.cursor)
  }

  predicate OthersIdle(r: Ring, t: nat) {
    forall u | 0 <= u < |r.threads| && u != t :: r.threads[u].Idle?
  }

  /** Every action of the run finds all other threads idle, and its hints true: no call overlaps another. */
  predicate Undisturbed(r: Ring, run: seq<Action>)
    requires Shaped(r) && AllEnabled(r, run)
    decreases |run|
  {
    run != [] ==>
      && OthersIdle(r, run[0].t) && Hinted(r, run[0])
      && (StepKeepsShaped(r, run[0]); Undisturbed(Step(r, run[0]), run[1..]))
  }

  predicate Starts(r: Ring, a: Action)
    requires Shaped(r) && Enabled(r, a)
  {
    a.Claim? || (a.StartFlush? && r.threads[a.t].Idle?)
  }

  function CallOf(a: Action): Call {
    if a.Claim? then Put(a.msg) else FlushAll
  }

  /** The calls begun in a run, in order. */
  function CallsIn(r: Ring, run: seq<Action>): seq<Call>
    requires Shaped(r) && AllEnabled(r, run)
    decreases |run|
  {
    if run == [] then []
    else
      StepKeepsShaped(r, run[0]);
      (if Starts(r, run[0]) then [CallOf(run[0])] else []) + CallsIn(Step(r, run[0]), run[1..])
  }

  /** And the threads that begin them. */
  function CallersIn(r: Ring, run: seq<Action>): seq<nat>
    requires Shaped(r) && AllEnabled(r, run)
    decreases |run|
  {
    if run == [] then []
    else
      StepKeepsShaped(r, run[0]);
      (if Starts(r, run[0]) then [run[0].t] else []) + CallersIn(Step(r, run[0]), run[1..])
  }

  // ---- What a thread does on its own ----

  /** Actions of thread `t` in the middle of a call, hints true. */
  predicate Solo(r: Ring, run: seq<Action>, t: nat)
    requires Shaped(r) && AllEnabled(r, run)
    decreases |run|
  {
    run != [] ==>
      && run[0].t == t && !r.threads[t].Idle? && Hinted(r, run[0])
      && (StepKeepsShaped(r, run[0]); Solo(Step(r, run[0]), run[1..], t))
  }

  ghost predicate Alone(r: Ring, t: nat, r': Ring)
    requires Shaped(r)
  {
    exists run :: Leads(r, run, r') && Solo(r, run, t)
  }

  lemma LeadsRest(r: Ring, run: seq<Action>, r': Ring)
    requires Shaped(r) && run != [] && Leads(r, run, r')
    ensures Enabled(r, run[0]) && Shaped(Step(r, run[0])) && Leads(Step(r, run[0]), run[1..], r')
  {
    StepKeepsShaped(r, run[0]);
  }

  lemma LeadsFirst(r: Ring, a: Action, rest: seq<Action>, r': Ring)
    requires Shaped(r) && Enabled(r, a) && Shaped(Step(r, a)) && Leads(Step(r, a), rest, r')
    ensures Leads(r, [a] + rest, r')
  {
    assert ([a] + rest)[1..] == rest;
  }

  lemma AloneSelf(r: Ring, t: nat)
    requires Shaped(r)
    ensures Alone(r, t, r)
  {
    assert Leads(r, [], r) && Solo(r, [], t);
  }

  lemma AloneFirst(r: Ring, a: Action, r': Ring)
    requires Shaped(r) && Enabled(r, a) && Hinted(r, a) && !r.threads[a.t].Idle?
    requires Shaped(Step(r, a)) && Alone(Step(r, a), a.t, r')
    ensures Alone(r, a.t, r')
  {
    var rest :| Leads(Step(r, a), rest, r') && Solo(Step(r, a), rest, a.t);
    LeadsFirst(r, a, rest, r');
    assert ([a] + rest)[1..] == rest;
    assert Solo(r, [a] + rest, a.t);
  }

  lemma AloneStep(r: Ring, a: Action)
    requires Shaped(r) && Enabled(r, a) && Hinted(r, a) && !r.threads[a.t].Idle?
    ensures Shaped(Step(r, a)) && Alone(r, a.t, Step(r, a))
  {
    StepKeepsShaped(r, a);
    AloneSelf(Step(r, a), a.t);
    AloneFirst(r, a, Step(r, a));
  }

  lemma {:induction false} AloneFrom(r: Ring, run: seq<Action>, t: nat, r1: Ring, r2: Ring)
    requires Shaped(r) && Leads(r, run, r1) && Solo(r, run, t) && Alone(r1, t, r2)
    ensures Alone(r, t, r2)
    decreases |run|
  {
    if run != [] {
      LeadsRest(r, run, r1);
      AloneFrom(Step(r, run[0]), run[1..], t, r1, r2);
      AloneFirst(r, run[0], r2);
    }
  }

  lemma AloneTrans(r: Ring, t: nat, r1: Ring, r2: Ring)
    requires Shaped(r) && Alone(r, t, r1) && Shaped(r1) && Alone(r1, t, r2)
    ensures Shaped(r2) && Alone(r, t, r2)
  {
    var run :| Leads(r, run, r1) && Solo(r, run, t);
    AloneFrom(r, run, t, r1, r2);
  }

  // ---- A claimed slot is filled ----

  lemma ClaimStep(r: Ring, t: nat, msg: Bytes)
    requires Shaped(r) && t < |r.threads| && r.threads[t].Idle?
    ensures Enabled(r, Claim(t, msg))
    ensures Step(r, Claim(t, msg))
            == r.(cursor := (r.cursor + 1) % |r.slots|, threads := r.threads[t := Claimed(r.cursor, msg)],
                  puts := r.puts + multiset{Cut(msg)})
  {
  }

  lemma BeginStep(r: Ring, t: nat)
    requires Shaped(r) && t < |r.threads| && r.threads[t].Claimed?
    requires r.slots[r.threads[t].slot].status == CLEAN
    ensures Enabled(r, BeginWrite(t))
    ensures var (c, msg) := (r.threads[t].slot, r.threads[t].msg);
            Step(r, BeginWrite(t))
            == r.(slots := r.slots[c := r.slots[c].(status := WRITING)], threads := r.threads[t := Won(c, msg)])
  {
  }

  lemma SetLenStep(r: Ring, t: nat)
    requires Shaped(r) && t < |r.threads| && r.threads[t].Won?
    ensures Enabled(r, SetLen(t))
    ensures var (c, msg) := (r.threads[t].slot, r.threads[t].msg);
            Step(r, SetLen(t))
            == r.(slots := r.slots[c := r.slots[c].(len := |Cut(msg)|)], threads := r.threads[t := Copying(c, msg, 0)])
  {
  }

  lemma CopyStep(r: Ring, t: nat)
    requires Shaped(r) && t < |r.threads| && r.threads[t].Copying? && r.threads[t].done < |Cut(r.threads[t].msg)|
    ensures Enabled(r, CopyByte(t))
    ensures var (c, msg, d) := (r.threads[t].slot, r.threads[t].msg, r.threads[t].done);
            Step(r, CopyByte(t))
            == r.(slots := r.slots[c := r.slots[c].(ctx := r.slots[c].ctx[d := msg[d]])],
                  threads := r.threads[t := Copying(c, msg, d + 1)])
  {
  }

  lemma PublishStep(r: Ring, t: nat)
    requires Shaped(r) && t < |r.threads| && r.threads[t].Copying? && r.threads[t].done == |Cut(r.threads[t].msg)|
    ensures Enabled(r, Publish(t))
    ensures var (c, msg) := (r.threads[t].slot, r.threads[t].msg);
            Step(r, Publish(t))
            == r.(slots := r.slots[c := r.slots[c].(status := DIRTY)], threads := r.threads[t := Idle],
                  accepted := r.accepted + multiset{Cut(msg)})
  {
  }

  /** A slot with the front of a message copied in up to `d`. */
  function CopiedTo(slot: Slot, msg: Bytes, d: nat): Slot
    requires d <= |msg| && d <= |slot.ctx|
  {
    slot.(ctx := msg[..d] + slot.ctx[d..])
  }

  lemma CopiedOne(slot: Slot, msg: Bytes, d: nat)
    requires d < |msg| && d < |slot.ctx|
    ensures CopiedTo(slot, msg, d).(ctx := CopiedTo(slot, msg, d).ctx[d := msg[d]]) == CopiedTo(slot, msg, d + 1)
  {
    assert (msg[..d] + slot.ctx[d..])[d := msg[d]] == msg[..d + 1] + slot.ctx[d + 1..];
  }

  /** The ring with slot `c` and thread `t` replaced. */
  function With(r: Ring, c: nat, slot: Slot, t: nat, pc: PC): Ring
    requires c < |r.slots| && t < |r.threads|
  {
    r.(slots := r.slots[c := slot], threads := r.threads[t := pc])
  }

  lemma SetAgain<T>(xs: seq<T>, i: nat, x: T, y: T)
    requires i < |xs|
    ensures xs[i := x][i := y] == xs[i := y] && xs[i := x][i] == x
  {
  }

  lemma WithTwice(r: Ring, c: nat, t: nat, slot: Slot, pc: PC, slot': Slot, pc': PC)
    requires c < |r.slots| && t < |r.threads|
    ensures With(With(r, c, slot, t, pc), c, slot', t, pc') == With(r, c, slot', t, pc')
    ensures With(r, c, slot, t, pc).slots[c] == slot && With(r, c, slot, t, pc).threads[t] == pc
  {
  }

  /** The ring when thread `t` has copied `d` bytes of its message into slot `c`, which was `slot`. */
  function CopiedRing(r: Ring, t: nat, c: nat, slot: Slot, msg: Bytes, d: nat): Ring
    requires t < |r.threads| && c < |r.slots| && |slot.ctx| == MSG_SIZE && d <= |Cut(msg)|
  {
    With(r, c, CopiedTo(slot, msg, d), t, Copying(c, msg, d))
  }

  lemma CopyNext(r: Ring, t: nat, c: nat, slot: Slot, msg: Bytes, d: nat)
    requires t < |r.threads| && c < |r.slots| && |slot.ctx| == MSG_SIZE && d < |Cut(msg)|
    requires Shaped(CopiedRing(r, t, c, slot, msg, d))
    ensures Shaped(CopiedRing(r, t, c, slot, msg, d + 1))
    ensures Alone(CopiedRing(r, t, c, slot, msg, d), t, CopiedRing(r, t, c, slot, msg, d + 1))
  {
    CopyStepIs(r, t, c, slot, msg, d);
    AloneStep(CopiedRing(r, t, c, slot, msg, d), CopyByte(t));
  }

  lemma CopyStepIs(r: Ring, t: nat, c: nat, slot: Slot, msg: Bytes, d: nat)
    requires t < |r.threads| && c < |r.slots| && |slot.ctx| == MSG_SIZE && d < |Cut(msg)|
    requires Shaped(With(r, c, CopiedTo(slot, msg, d), t, Copying(c, msg, d)))
    ensures var r1 := With(r, c, CopiedTo(slot, msg, d), t, Copying(c, msg, d));
            && Enabled(r1, CopyByte(t))
            && Step(r1, CopyByte(t)) == With(r, c, CopiedTo(slot, msg, d + 1), t, Copying(c, msg, d + 1))
  {
    var r1 := With(r, c, CopiedTo(slot, msg, d), t, Copying(c, msg, d));
    CopyStep(r1, t);
    CopiedOne(slot, msg, d);
    SetAgain(r.slots, c, CopiedTo(slot, msg, d), CopiedTo(slot, msg, d + 1));
    SetAgain(r.threads, t, Copying(c, msg, d), Copying(c, msg, d + 1));
  }

  /** The copy of a message into a slot, from the byte it has come to. */
  lemma {:induction false} CopyAlone(r: Ring, t: nat, c: nat, slot: Slot, msg: Bytes, d: nat)
    requires t < |r.threads| && c < |r.slots| && |slot.ctx| == MSG_SIZE && d <= |Cut(msg)|
    requires Shaped(CopiedRing(r, t, c, slot, msg, d))
    ensures Shaped(CopiedRing(r, t, c, slot, msg, |Cut(msg)|))
    ensures Alone(CopiedRing(r, t, c, slot, msg, d), t, CopiedRing(r, t, c, slot, msg, |Cut(msg)|))
    decreases |Cut(msg)| - d
  {
    if d == |Cut(msg)| {
      AloneSelf(CopiedRing(r, t, c, slot, msg, d), t);
    } else {
      CopyNext(r, t, c, slot, msg, d);
      CopyAlone(r, t, c, slot, msg, d + 1);
      AloneTrans(CopiedRing(r, t, c, slot, msg, d), t, CopiedRing(r, t, c, slot, msg, d + 1),
                 CopiedRing(r, t, c, slot, msg, |Cut(msg)|));
    }
  }

  /** A clean slot about to be copied into. */
  function Opened(slot: Slot, msg: Bytes): Slot {
    Slot(WRITING, |Cut(msg)|, slot.ctx)
  }

  lemma OpenedFilled(slot: Slot, msg: Bytes)
    requires RestingSlot(slot)
    ensures CopiedTo(Opened(slot, msg), msg, 0) == Opened(slot, msg)
    ensures CopiedTo(Opened(slot, msg), msg, |Cut(msg)|).(status := DIRTY) == Filled(slot, msg)
  {
    assert msg[..|Cut(msg)|] == Cut(msg);
  }

  lemma OpenAlone(r: Ring, t: nat, c: nat, msg: Bytes)
    requires Shaped(r) && t < |r.threads| && r.threads[t] == Claimed(c, msg) && r.slots[c].status == CLEAN
    ensures var r2 := With(r, c, Opened(r.slots[c], msg), t, Copying(c, msg, 0));
            Shaped(r2) && Alone(r, t, r2)
  {
    var slot := r.slots[c].(status := WRITING);
    var r1 := With(r, c, slot, t, Won(c, msg));
    BeginStep(r, t);
    AloneStep(r, BeginWrite(t));
    WithTwice(r, c, t, slot, Won(c, msg), Opened(r.slots[c], msg), Copying(c, msg, 0));
    SetLenStep(r1, t);
    AloneStep(r1, SetLen(t));
    AloneTrans(r, t, r1, With(r, c, Opened(r.slots[c], msg), t, Copying(c, msg, 0)));
  }

  /** The ring after an undisturbed write of a claimed slot that is clean. */
  function WrittenRing(r: Ring, t: nat, c: nat, msg: Bytes): Ring
    requires t < |r.threads| && c < |r.slots| && RestingSlot(r.slots[c])
  {
    With(r, c, Filled(r.slots[c], msg), t, Idle).(accepted := r.accepted + multiset{Cut(msg)})
  }

  lemma WriteAlone(r: Ring, t: nat, c: nat, msg: Bytes)
    requires Shaped(r) && t < |r.threads| && r.threads[t] == Claimed(c, msg) && r.slots[c].status == CLEAN
    ensures Shaped(WrittenRing(r, t, c, msg)) && Alone(r, t, WrittenRing(r, t, c, msg))
  {
    var (open, n) := (Opened(r.slots[c], msg), |Cut(msg)|);
    OpenedFilled(r.slots[c], msg);
    OpenAlone(r, t, c, msg);
    CopyAlone(r, t, c, open, msg, 0);
    AloneTrans(r, t, With(r, c, open, t, Copying(c, msg, 0)), With(r, c, CopiedTo(open, msg, n), t, Copying(c, msg, n)));
    var r3 := With(r, c, CopiedTo(open, msg, n), t, Copying(c, msg, n));
    WithTwice(r, c, t, CopiedTo(open, msg, n), Copying(c, msg, n), Filled(r.slots[c], msg), Idle);
    PublishStep(r3, t);
    AloneStep(r3, Publish(t));
    AloneTrans(r, t, r3, WrittenRing(r, t, c, msg));
  }

  // ---- A flush ----

  lemma StartStep(r: Ring, t: nat, start: nat)
    requires Shaped(r) && t < |r.threads| && r.lock == None && start < |r.slots|
    requires r.threads[t].Idle? || (r.threads[t].Claimed? && r.threads[t].slot == start)
    ensures Enabled(r, StartFlush(t, start))
    ensures Step(r, StartFlush(t, start))
            == r.(lock := Some(t), threads := r.threads[t := Flushing(start, 0, None, PutOf(r.threads[t]))])
  {
  }

  /** The put a thread is in the middle of when it starts a flush. */
  function PutOf(pc: PC): Option<(nat, Bytes)> {
    if pc.Claimed? then Some((pc.slot, pc.msg)) else None
  }

  lemma VisitStep(r: Ring, t: nat)
    requires Shaped(r) && t < |r.threads| && r.threads[t].Flushing? && r.threads[t].out == None
    requires r.threads[t].visited < |r.slots|
    ensures Enabled(r, Visit(t))
    ensures var pc := r.threads[t];
            var i := At(r, pc);
            Step(r, Visit(t))
            == if r.slots[i].status == DIRTY then
                 With(r, i, r.slots[i].(status := FLUSHING), t, Flushing(pc.start, pc.visited, Some(0), pc.put))
               else
                 With(r, i, r.slots[i], t, Flushing(pc.start, pc.visited + 1, None, pc.put))
  {
  }

  lemma OutputStep(r: Ring, t: nat)
    requires Shaped(r) && t < |r.threads| && r.threads[t].Flushing? && r.threads[t].out.Some?
    requires r.threads[t].out.value < r.slots[At(r, r.threads[t])].len
    ensures Enabled(r, OutputByte(t))
    ensures var pc := r.threads[t];
            Step(r, OutputByte(t))
            == r.(threads := r.threads[t := Flushing(pc.start, pc.visited, Some(pc.out.value + 1), pc.put)],
                  open := r.open + [r.slots[At(r, pc)].ctx[pc.out.value]])
  {
  }

  lemma ReleaseStep(r: Ring, t: nat)
    requires Shaped(r) && t < |r.threads| && r.threads[t].Flushing? && r.threads[t].out.Some?
    requires r.threads[t].out.value == r.slots[At(r, r.threads[t])].len
    ensures Enabled(r, Release(t))
    ensures var pc := r.threads[t];
            var i := At(r, pc);
            Step(r, Release(t))
            == With(r, i, r.slots[i].(status := CLEAN), t, Flushing(pc.start, pc.visited + 1, None, pc.put))
                 .(flushed := r.flushed + [r.slots[i].ctx[..r.slots[i].len]])
  {
  }

  lemma FinishStep(r: Ring, t: nat)
    requires Shaped(r) && t < |r.threads| && r.threads[t].Flushing? && r.threads[t].visited == |r.slots|
    requires r.threads[t].out == None
    ensures Enabled(r, FinishFlush(t))
    ensures var put := r.threads[t].put;
            var r' := r.(lock := None, threads := r.threads[t := if put.Some? then Claimed(put.value.0, put.value.1) else Idle]);
            Step(r, FinishFlush(t))
            == if r.maxSize != 0 && |r.open| > r.maxSize then r'.(closed := r.closed + [r.open], open := []) else r'
  {
  }

  /** A flusher that has written `k` bytes of the slot it owns. */
  function OutTo(r: Ring, t: nat, pc: PC, k: nat, text: Bytes): Ring
    requires t < |r.threads| && pc.Flushing? && k <= |text|
  {
    r.(threads := r.threads[t := Flushing(pc.start, pc.visited, Some(k), pc.put)], open := r.open + text[..k])
  }

  lemma OutputNext(r: Ring, t: nat, pc: PC, k: nat, i: nat)
    requires t < |r.threads| && pc.Flushing? && pc.visited < |r.slots| && ShapedPC(pc, |r.slots|)
    requires i == At(r, pc) && r.slots[i].len <= |r.slots[i].ctx| && k < r.slots[i].len
    requires var text := r.slots[i].ctx[..r.slots[i].len]; Shaped(OutTo(r, t, pc, k, text))
    ensures var text := r.slots[i].ctx[..r.slots[i].len];
            Shaped(OutTo(r, t, pc, k + 1, text)) && Alone(OutTo(r, t, pc, k, text), t, OutTo(r, t, pc, k + 1, text))
  {
    OutputStepIs(r, t, pc, k, i);
    AloneStep(OutTo(r, t, pc, k, r.slots[i].ctx[..r.slots[i].len]), OutputByte(t));
  }

  lemma OutputStepIs(r: Ring, t: nat, pc: PC, k: nat, i: nat)
    requires t < |r.threads| && pc.Flushing? && pc.visited < |r.slots| && ShapedPC(pc, |r.slots|)
    requires i == At(r, pc) && r.slots[i].len <= |r.slots[i].ctx| && k < r.slots[i].len
    requires var text := r.slots[i].ctx[..r.slots[i].len]; Shaped(OutTo(r, t, pc, k, text))
    ensures var text := r.slots[i].ctx[..r.slots[i].len];
            && Enabled(OutTo(r, t, pc, k, text), OutputByte(t))
            && Step(OutTo(r, t, pc, k, text), OutputByte(t)) == OutTo(r, t, pc, k + 1, text)
  {
    var text := r.slots[i].ctx[..r.slots[i].len];
    var r1 := OutTo(r, t, pc, k, text);
    OutputStep(r1, t);
    TakeSnoc(text, k);
    Assoc(r.open, text[..k], [text[k]]);
    SetAgain(r.threads, t, r1.threads[t], Flushing(pc.start, pc.visited, Some(k + 1), pc.put));
  }

  lemma {:induction false} OutputAlone(r: Ring, t: nat, pc: PC, k: nat, i: nat)
    requires t < |r.threads| && pc.Flushing? && pc.visited < |r.slots| && ShapedPC(pc, |r.slots|)
    requires i == At(r, pc) && r.slots[i].len <= |r.slots[i].ctx| && k <= r.slots[i].len
    requires var text := r.slots[i].ctx[..r.slots[i].len]; Shaped(OutTo(r, t, pc, k, text))
    ensures var text := r.slots[i].ctx[..r.slots[i].len];
            Shaped(OutTo(r, t, pc, |text|, text)) && Alone(OutTo(r, t, pc, k, text), t, OutTo(r, t, pc, |text|, text))
    decreases r.slots[i].len - k
  {
    var text := r.slots[i].ctx[..r.slots[i].len];
    if k == r.slots[i].len {
      AloneSelf(OutTo(r, t, pc, k, text), t);
    } else {
      OutputNext(r, t, pc, k, i);
      OutputAlone(r, t, pc, k + 1, i);
      AloneTrans(OutTo(r, t, pc, k, text), t, OutTo(r, t, pc, k + 1, text), OutTo(r, t, pc, |text|, text));
    }
  }

  /** What a slot adds to the messages written out when the flusher comes to it. */
  function TextsOf(slot: Slot): seq<Bytes>
    requires RestingSlot(slot)
  {
    if slot.status == DIRTY then [Text(slot)] else []
  }

  /** The ring when a flusher has passed the slot it was at. */
  function Passed(r: Ring, t: nat, pc: PC, i: nat): Ring
    requires t < |r.threads| && pc.Flushing? && i < |r.slots| && RestingSlot(r.slots[i])
  {
    With(r, i, Cleaned(r.slots[i]), t, Flushing(pc.start, pc.visited + 1, None, pc.put))
      .(open := r.open + Cat(TextsOf(r.slots[i])), flushed := r.flushed + TextsOf(r.slots[i]))
  }

  lemma PassAlone(r: Ring, t: nat, pc: PC, i: nat)
    requires Shaped(r) && t < |r.threads| && pc == r.threads[t] && pc.Flushing? && pc.out == None
    requires pc.visited < |r.slots| && i == At(r, pc) && RestingSlot(r.slots[i])
    ensures Shaped(Passed(r, t, pc, i)) && Alone(r, t, Passed(r, t, pc, i))
  {
    VisitStep(r, t);
    AloneStep(r, Visit(t));
    if r.slots[i].status == DIRTY {
      WriteOutAlone(r, t, pc, i);
    } else {
      assert Cleaned(r.slots[i]) == r.slots[i];
      Assoc(r.open, [], []);
      assert r.open + [] == r.open && r.flushed + [] == r.flushed;
    }
  }

  lemma WriteOutAlone(r: Ring, t: nat, pc: PC, i: nat)
    requires Shaped(r) && t < |r.threads| && pc == r.threads[t] && pc.Flushing? && pc.out == None
    requires pc.visited < |r.slots| && i == At(r, pc) && RestingSlot(r.slots[i]) && r.slots[i].status == DIRTY
    ensures Shaped(Passed(r, t, pc, i)) && Alone(r, t, Passed(r, t, pc, i))
  {
    var slot := r.slots[i].(status := FLUSHING);
    var text := Text(r.slots[i]);
    var r1 := With(r, i, slot, t, Flushing(pc.start, pc.visited, Some(0), pc.put));
    VisitStep(r, t);
    AloneStep(r, Visit(t));
    OutToStart(r1, t, pc, text);
    OutputAlone(r1, t, pc, 0, i);
    var r2 := OutTo(r1, t, pc, |text|, text);
    AloneTrans(r, t, r1, r2);
    ReleaseAlone(r, t, pc, i);
    AloneTrans(r, t, r2, Passed(r, t, pc, i));
  }

  lemma OutToStart(r: Ring, t: nat, pc: PC, text: Bytes)
    requires t < |r.threads| && pc.Flushing? && r.threads[t] == Flushing(pc.start, pc.visited, Some(0), pc.put)
    ensures OutTo(r, t, pc, 0, text) == r
  {
    assert r.open + text[..0] == r.open;
    assert r.threads[t := r.threads[t]] == r.threads;
  }

  lemma ReleaseAlone(r: Ring, t: nat, pc: PC, i: nat)
    requires Shaped(r) && t < |r.threads| && pc == r.threads[t] && pc.Flushing? && pc.out == None
    requires pc.visited < |r.slots| && i == At(r, pc) && RestingSlot(r.slots[i]) && r.slots[i].status == DIRTY
    requires var r1 := With(r, i, r.slots[i].(status := FLUSHING), t, Flushing(pc.start, pc.visited, Some(0), pc.put));
             var text := Text(r.slots[i]);
             Shaped(OutTo(r1, t, pc, |text|, text))
    ensures var r1 := With(r, i, r.slots[i].(status := FLUSHING), t, Flushing(pc.start, pc.visited, Some(0), pc.put));
            var text := Text(r.slots[i]);
            Shaped(Passed(r, t, pc, i)) && Alone(OutTo(r1, t, pc, |text|, text), t, Passed(r, t, pc, i))
  {
    var text := Text(r.slots[i]);
    var slot := r.slots[i].(status := FLUSHING);
    var r1 := With(r, i, slot, t, Flushing(pc.start, pc.visited, Some(0), pc.put));
    var r2 := OutTo(r1, t, pc, |text|, text);
    var pc2 := Flushing(pc.start, pc.visited, Some(|text|), pc.put);
    OutToEnd(r1, t, pc, text);
    WrittenOut(r, t, i, slot, r1.threads[t], pc2, text);
    ReleasePassed(r, t, pc, i, r2);
    AloneStep(r2, Release(t));
  }

  lemma OutToEnd(r: Ring, t: nat, pc: PC, text: Bytes)
    requires t < |r.threads| && pc.Flushing?
    ensures OutTo(r, t, pc, |text|, text)
            == r.(threads := r.threads[t := Flushing(pc.start, pc.visited, Some(|text|), pc.put)], open := r.open + text)
  {
    assert text[..|text|] == text;
  }

  lemma WrittenOut(r: Ring, t: nat, i: nat, slot: Slot, pc: PC, pc2: PC, text: Bytes)
    requires t < |r.threads| && i < |r.slots|
    ensures With(r, i, slot, t, pc).(threads := With(r, i, slot, t, pc).threads[t := pc2], open := r.open + text)
            == With(r, i, slot, t, pc2).(open := r.open + text)
  {
    assert r.threads[t := pc][t := pc2] == r.threads[t := pc2];
  }

  lemma ReleasePassed(r: Ring, t: nat, pc: PC, i: nat, r2: Ring)
    requires t < |r.threads| && pc.Flushing? && pc.visited < |r.slots| && ShapedPC(pc, |r.slots|)
    requires i == At(r, pc) && RestingSlot(r.slots[i]) && r.slots[i].status == DIRTY
    requires var (slot, text) := (r.slots[i].(status := FLUSHING), Text(r.slots[i]));
             r2 == With(r, i, slot, t, Flushing(pc.start, pc.visited, Some(|text|), pc.put)).(open := r.open + text)
    requires Shaped(r2)
    ensures Enabled(r2, Release(t)) && Step(r2, Release(t)) == Passed(r, t, pc, i)
  {
    ReleaseStep(r2, t);
    SetAgain(r.slots, i, r.slots[i].(status := FLUSHING), Cleaned(r.slots[i]));
    SetAgain(r.threads, t, r2.threads[t], Flushing(pc.start, pc.visited + 1, None, pc.put));
    CatSnoc([], Text(r.slots[i]));
    assert [] + [Text(r.slots[i])] == [Text(r.slots[i])];
  }

  /** The slots once a sweep from `s` has passed `v` of them. */
  function CleanedTo(slots: seq<Slot>, s: nat, v: nat): seq<Slot>
    requires s < |slots|
  {
    seq(|slots|, i requires 0 <= i < |slots| =>
      if (if i >= s then i - s else i + |slots| - s) < v then Cleaned(slots[i]) else slots[i])
  }

  /** The ring once a sweep has passed `v` slots. */
  function SweptTo(r: Ring, t: nat, s: nat, put: Option<(nat, Bytes)>, v: nat): Ring
    requires t < |r.threads| && s < |r.slots| && v <= |r.slots|
    requires forall i | 0 <= i < |r.slots| :: RestingSlot(r.slots[i])
  {
    var front := Messages(Round(r.slots, s)[..v]);
    r.(slots := CleanedTo(r.slots, s, v), lock := Some(t), threads := r.threads[t := Flushing(s, v, None, put)],
       open := r.open + Cat(front), flushed := r.flushed + front)
  }

  lemma CleanedNext(slots: seq<Slot>, s: nat, v: nat)
    requires s < |slots| && v < |slots|
    ensures var i := Around(s, v, |slots|);
            && CleanedTo(slots, s, v)[i] == slots[i]
            && CleanedTo(slots, s, v)[i := Cleaned(slots[i])] == CleanedTo(slots, s, v + 1)
  {
  }

  lemma MessagesNext(slots: seq<Slot>, v: nat)
    requires v < |slots| && forall i | 0 <= i < |slots| :: RestingSlot(slots[i])
    ensures Messages(slots[..v + 1]) == Messages(slots[..v]) + TextsOf(slots[v])
    ensures Cat(Messages(slots[..v + 1])) == Cat(Messages(slots[..v])) + Cat(TextsOf(slots[v]))
  {
    assert slots[..v + 1][..v] == slots[..v];
    CatAppend(Messages(slots[..v]), TextsOf(slots[v]));
  }

  lemma SweepNext(r: Ring, t: nat, s: nat, put: Option<(nat, Bytes)>, v: nat)
    requires t < |r.threads| && s < |r.slots| && v < |r.slots|
    requires forall i | 0 <= i < |r.slots| :: RestingSlot(r.slots[i])
    requires Shaped(SweptTo(r, t, s, put, v))
    ensures Shaped(SweptTo(r, t, s, put, v + 1))
    ensures Alone(SweptTo(r, t, s, put, v), t, SweptTo(r, t, s, put, v + 1))
  {
    CleanedNext(r.slots, s, v);
    var r1 := SweptTo(r, t, s, put, v);
    PassAlone(r1, t, r1.threads[t], Around(s, v, |r.slots|));
    PassedNext(r, t, s, put, v);
  }

  lemma PassedNext(r: Ring, t: nat, s: nat, put: Option<(nat, Bytes)>, v: nat)
    requires t < |r.threads| && s < |r.slots| && v < |r.slots|
    requires forall i | 0 <= i < |r.slots| :: RestingSlot(r.slots[i])
    ensures var (r1, i) := (SweptTo(r, t, s, put, v), Around(s, v, |r.slots|));
            && RestingSlot(r1.slots[i])
            && Passed(r1, t, r1.threads[t], i) == SweptTo(r, t, s, put, v + 1)
  {
    var i := Around(s, v, |r.slots|);
    var round := Round(r.slots, s);
    CleanedNext(r.slots, s, v);
    MessagesNext(round, v);
    Assoc(r.open, Cat(Messages(round[..v])), Cat(TextsOf(r.slots[i])));
    Assoc(r.flushed, Messages(round[..v]), TextsOf(r.slots[i]));
    SetAgain(r.threads, t, Flushing(s, v, None, put), Flushing(s, v + 1, None, put));
  }

  lemma {:induction false} SweepAlone(r: Ring, t: nat, s: nat, put: Option<(nat, Bytes)>, v: nat)
    requires t < |r.threads| && s < |r.slots| && v <= |r.slots|
    requires forall i | 0 <= i < |r.slots| :: RestingSlot(r.slots[i])
    requires Shaped(SweptTo(r, t, s, put, v))
    ensures Shaped(SweptTo(r, t, s, put, |r.slots|))
    ensures Alone(SweptTo(r, t, s, put, v), t, SweptTo(r, t, s, put, |r.slots|))
    decreases |r.slots| - v
  {
    if v == |r.slots| {
      AloneSelf(SweptTo(r, t, s, put, v), t);
    } else {
      SweepNext(r, t, s, put, v);
      SweepAlone(r, t, s, put, v + 1);
      AloneTrans(SweptTo(r, t, s, put, v), t, SweptTo(r, t, s, put, v + 1), SweptTo(r, t, s, put, |r.slots|));
    }
  }

  /** The ring after an undisturbed flush. */
  function FlushedRing(r: Ring, start: nat): Ring
    requires start < |r.slots| && forall i | 0 <= i < |r.slots| :: RestingSlot(r.slots[i])
  {
    var texts := Messages(Round(r.slots, start));
    var r1 := r.(slots := CleanedAll(r.slots), open := r.open + Cat(texts), flushed := r.flushed + texts);
    if r.maxSize != 0 && |r1.open| > r.maxSize then r1.(closed := r.closed + [r1.open], open := []) else r1
  }

  predicate CanFlush(r: Ring, t: nat, start: nat) {
    && t < |r.threads| && start < |r.slots| && r.lock == None
    && (r.threads[t].Idle? || (r.threads[t].Claimed? && r.threads[t].slot == start))
    && forall i | 0 <= i < |r.slots| :: RestingSlot(r.slots[i])
  }

  lemma SweepStart(r: Ring, t: nat, start: nat)
    requires Shaped(r) && CanFlush(r, t, start)
    ensures Enabled(r, StartFlush(t, start))
    ensures Step(r, StartFlush(t, start)) == SweptTo(r, t, start, PutOf(r.threads[t]), 0)
  {
    StartStep(r, t, start);
    assert CleanedTo(r.slots, start, 0) == r.slots;
    assert Round(r.slots, start)[..0] == [];
    assert r.open + [] == r.open && r.flushed + [] == r.flushed;
  }

  lemma SweepEnd(r: Ring, t: nat, start: nat)
    requires Shaped(r) && CanFlush(r, t, start) && Shaped(SweptTo(r, t, start, PutOf(r.threads[t]), |r.slots|))
    ensures var r1 := SweptTo(r, t, start, PutOf(r.threads[t]), |r.slots|);
            Enabled(r1, FinishFlush(t)) && Step(r1, FinishFlush(t)) == FlushedRing(r, start)
  {
    var r1 := SweptTo(r, t, start, PutOf(r.threads[t]), |r.slots|);
    assert CleanedTo(r.slots, start, |r.slots|) == CleanedAll(r.slots);
    assert Round(r.slots, start)[..|r.slots|] == Round(r.slots, start);
    FinishStep(r1, t);
    SetAgain(r.threads, t, r1.threads[t], r.threads[t]);
    assert r.threads[t := r.threads[t]] == r.threads;
  }

  /** The rest of a flush that has been started. */
  lemma FlushAlone(r: Ring, t: nat, start: nat)
    requires Shaped(r) && CanFlush(r, t, start) && Shaped(SweptTo(r, t, start, PutOf(r.threads[t]), 0))
    ensures Shaped(FlushedRing(r, start)) && Alone(SweptTo(r, t, start, PutOf(r.threads[t]), 0), t, FlushedRing(r, start))
  {
    var put := PutOf(r.threads[t]);
    SweepAlone(r, t, start, put, 0);
    SweepEnd(r, t, start);
    AloneStep(SweptTo(r, t, start, put, |r.slots|), FinishFlush(t));
    AloneTrans(SweptTo(r, t, start, put, 0), t, SweptTo(r, t, start, put, |r.slots|), FlushedRing(r, start));
  }

  // ---- A put ----

  function ClaimedRing(r: Ring, t: nat, msg: Bytes): Ring
    requires r.slots != [] && t < |r.threads|
  {
    r.(cursor := (r.cursor + 1) % |r.slots|, threads := r.threads[t := Claimed(r.cursor, msg)],
       puts := r.puts + multiset{Cut(msg)})
  }

  /** The ring after an undisturbed put. */
  function PutRing(r: Ring, t: nat, msg: Bytes): Ring
    requires r.cursor < |r.slots| && t < |r.threads| && forall i | 0 <= i < |r.slots| :: RestingSlot(r.slots[i])
  {
    var c := r.cursor;
    var r1 := ClaimedRing(r, t, msg);
    WrittenRing(if r.slots[c].status == DIRTY then FlushedRing(r1, c) else r1, t, c, msg)
  }

  /** The flush of a put that finds its slot dirty. */
  lemma OwnFlushAlone(r: Ring, t: nat, c: nat)
    requires Shaped(r) && CanFlush(r, t, c) && r.threads[t].Claimed? && r.slots[c].status == DIRTY
    ensures Shaped(FlushedRing(r, c)) && Alone(r, t, FlushedRing(r, c))
  {
    SweepStart(r, t, c);
    AloneStep(r, StartFlush(t, c));
    FlushAlone(r, t, c);
    AloneTrans(r, t, SweptTo(r, t, c, PutOf(r.threads[t]), 0), FlushedRing(r, c));
  }

  /** The rest of a put that has claimed its slot. */
  lemma PutAlone(r: Ring, t: nat, msg: Bytes)
    requires Shaped(r) && t < |r.threads| && r.threads[t].Idle? && r.lock == None
    requires forall i | 0 <= i < |r.slots| :: RestingSlot(r.slots[i])
    ensures Enabled(r, Claim(t, msg)) && Step(r, Claim(t, msg)) == ClaimedRing(r, t, msg)
    ensures Shaped(ClaimedRing(r, t, msg)) && Shaped(PutRing(r, t, msg))
    ensures Alone(ClaimedRing(r, t, msg), t, PutRing(r, t, msg))
  {
    var (c, r1) := (r.cursor, ClaimedRing(r, t, msg));
    ClaimStep(r, t, msg);
    StepKeepsShaped(r, Claim(t, msg));
    if r.slots[c].status == DIRTY {
      OwnFlushAlone(r1, t, c);
      WriteAlone(FlushedRing(r1, c), t, c, msg);
      AloneTrans(r1, t, FlushedRing(r1, c), PutRing(r, t, msg));
    } else {
      WriteAlone(r1, t, c, msg);
    }
  }

  // ---- Undisturbed calls are the logger's calls ----

  /** The ring holds what the logger does. */
  predicate Matches(r: Ring, l: Logger) {
    && r.slots == l.slots && r.cursor == l.cursor && r.closed == l.closed && r.open == l.open
    && r.maxSize == l.maxSize
  }

  predicate Quiet(r: Ring) {
    r.lock == None && forall t | 0 <= t < |r.threads| :: r.threads[t].Idle?
  }

  lemma PutMatches(r: Ring, l: Logger, t: nat, msg: Bytes)
    requires Quiet(r) && Matches(r, l) && Resting(l) && t < |r.threads|
    ensures var r' := PutRing(r, t, msg);
            && Matches(r', AfterPut(l, msg)) && r'.threads == r.threads && r'.lock == None
            && r'.accepted == r.accepted + multiset{Cut(msg)} && r'.dropped == r.dropped
  {
    SetAgain(r.threads, t, Claimed(r.cursor, msg), Idle);
    assert r.threads[t := Idle] == r.threads;
  }

  /** Whatever an idle thread begins with nothing under way, the ring it has come to on its own when
      the call is done is the one the logger's code leaves. */
  lemma CallAlone(r: Ring, l: Logger, a: Action) returns (r': Ring)
    requires Shaped(r) && Quiet(r) && Matches(r, l) && Resting(l) && Enabled(r, a) && Hinted(r, a)
    ensures Shaped(Step(r, a)) && Starts(r, a)
    ensures Shaped(r') && Alone(Step(r, a), a.t, r')
    ensures r'.threads == r.threads && r'.lock == None && r'.dropped == r.dropped
    ensures Matches(r', AfterCall(l, CallOf(a)))
  {
    StepKeepsShaped(r, a);
    if a.Claim? {
      PutAlone(r, a.t, a.msg);
      PutMatches(r, l, a.t, a.msg);
      r' := PutRing(r, a.t, a.msg);
    } else {
      SweepStart(r, a.t, r.cursor);
      FlushAlone(r, a.t, r.cursor);
      r' := FlushedRing(r, r.cursor);
    }
  }

  /** In the middle of a call a thread has one action it can do. */
  lemma OneNext(r: Ring, a: Action, b: Action)
    requires Shaped(r) && Enabled(r, a) && Enabled(r, b) && Hinted(r, a) && Hinted(r, b)
    requires a.t == b.t && !r.threads[a.t].Idle?
    ensures a == b
  {
  }

  /** So an undisturbed run in the middle of a call of `t` goes on with what the thread does on its
      own, to the end of the call. */
  lemma {:induction false} Follow(r: Ring, own: seq<Action>, t: nat, r1: Ring, run: seq<Action>) returns (rest: seq<Action>)
    requires Shaped(r) && t < |r.threads| && OthersIdle(r, t)
    requires Leads(r, own, r1) && Solo(r, own, t) && |r1.threads| == |r.threads| && r1.threads[t].Idle?
    requires AllEnabled(r, run) && Undisturbed(r, run) && Quiet(Run(r, run))
    ensures |rest| <= |run| && AllEnabled(r1, rest) && Undisturbed(r1, rest)
    ensures Run(r1, rest) == Run(r, run) && CallsIn(r1, rest) == CallsIn(r, run)
    decreases |own|
  {
    if own == [] {
      return run;
    }
    GoesOn(r, own[0], run);
    LeadsRest(r, own, r1);
    rest := Follow(Step(r, own[0]), own[1..], t, r1, run[1..]);
  }

  lemma StepOthersIdle(r: Ring, a: Action)
    requires Shaped(r) && Enabled(r, a) && OthersIdle(r, a.t)
    ensures OthersIdle(Step(r, a), a.t)
  {
  }

  /** In the middle of a call of `t` an undisturbed run has an action left, and it is the one the
      thread can do. */
  lemma GoesOn(r: Ring, a: Action, run: seq<Action>)
    requires Shaped(r) && Enabled(r, a) && Hinted(r, a) && OthersIdle(r, a.t) && !r.threads[a.t].Idle?
    requires AllEnabled(r, run) && Undisturbed(r, run) && Quiet(Run(r, run))
    ensures run != [] && run[0] == a && Shaped(Step(r, a)) && OthersIdle(Step(r, a), a.t)
    ensures AllEnabled(Step(r, a), run[1..]) && Undisturbed(Step(r, a), run[1..])
    ensures Run(Step(r, a), run[1..]) == Run(r, run)
    ensures CallsIn(r, run) == CallsIn(Step(r, a), run[1..])
  {
    StepKeepsShaped(r, a);
    assert run != [] && run[0].t == a.t;
    OneNext(r, a, run[0]);
    assert [] + CallsIn(Step(r, a), run[1..]) == CallsIn(Step(r, a), run[1..]);
  }

  /** Every undisturbed run, from nothing under way to nothing under way, takes the ring where the
      logger's own calls do, and loses no message. */
  lemma {:induction false} UndisturbedIsCalls(r: Ring, l: Logger, run: seq<Action>)
    requires Shaped(r) && Quiet(r) && Matches(r, l) && Resting(l) && Numbered(l)
    requires AllEnabled(r, run) && Undisturbed(r, run) && Quiet(Run(r, run))
    ensures Matches(Run(r, run), RunCalls(l, CallsIn(r, run))) && Run(r, run).dropped == r.dropped
    decreases |run|
  {
    if run != [] {
      var r1, rest := FirstCallDone(r, l, run);
      CallAppends(l, CallOf(run[0]));
      UndisturbedIsCalls(r1, AfterCall(l, CallOf(run[0])), rest);
      assert CallsIn(r, run)[1..] == CallsIn(r1, rest);
    }
  }

  /** The first call of an undisturbed run, to its end. */
  lemma FirstCallDone(r: Ring, l: Logger, run: seq<Action>) returns (r1: Ring, rest: seq<Action>)
    requires Shaped(r) && Quiet(r) && Matches(r, l) && Resting(l) && run != []
    requires AllEnabled(r, run) && Undisturbed(r, run) && Quiet(Run(r, run))
    ensures Shaped(r1) && Quiet(r1) && Matches(r1, AfterCall(l, CallOf(run[0]))) && r1.dropped == r.dropped
    ensures |rest| < |run| && AllEnabled(r1, rest) && Undisturbed(r1, rest) && Run(r1, rest) == Run(r, run)
    ensures CallsIn(r, run) == [CallOf(run[0])] + CallsIn(r1, rest)
  {
    var a := run[0];
    r1 := CallAlone(r, l, a);
    var own :| Leads(Step(r, a), own, r1) && Solo(Step(r, a), own, a.t);
    StepOthersIdle(r, a);
    FirstCall(r, run);
    rest := Follow(Step(r, a), own, a.t, r1, run[1..]);
  }

  lemma FirstCall(r: Ring, run: seq<Action>)
    requires Shaped(r) && AllEnabled(r, run) && run != [] && Starts(r, run[0])
    ensures Shaped(Step(r, run[0])) && AllEnabled(Step(r, run[0]), run[1..])
    ensures CallsIn(r, run) == [CallOf(run[0])] + CallsIn(Step(r, run[0]), run[1..])
    ensures CallsIn(r, run)[0] == CallOf(run[0]) && CallsIn(r, run)[1..] == CallsIn(Step(r, run[0]), run[1..])
  {
    StepKeepsShaped(r, run[0]);
  }

  /** An undisturbed run from `r` to `r'` in which these calls are begun by these threads. */
  ghost predicate Makes(r: Ring, run: seq<Action>, r': Ring, calls: seq<Call>, callers: seq<nat>)
    requires Shaped(r)
  {
    Leads(r, run, r') && Undisturbed(r, run) && CallsIn(r, run) == calls && CallersIn(r, run) == callers
  }

  lemma MakesNone(r: Ring)
    requires Shaped(r)
    ensures Makes(r, [], r, [], [])
  {
  }

  lemma MakesFirst(r: Ring, a: Action, rest: seq<Action>, r': Ring, calls: seq<Call>, callers: seq<nat>)
    requires Shaped(r) && Enabled(r, a) && OthersIdle(r, a.t) && Hinted(r, a) && Shaped(Step(r, a))
    requires Makes(Step(r, a), rest, r', calls, callers)
    ensures if Starts(r, a) then Makes(r, [a] + rest, r', [CallOf(a)] + calls, [a.t] + callers)
            else Makes(r, [a] + rest, r', calls, callers)
  {
    LeadsFirst(r, a, rest, r');
    assert ([a] + rest)[1..] == rest;
    assert [] + calls == calls && [] + callers == callers;
  }

  /** What a thread does on its own is undisturbed, and begins no call. */
  lemma {:induction false} OnItsOwn(r: Ring, own: seq<Action>, t: nat, r1: Ring, later: seq<Action>, r2: Ring,
                                    calls: seq<Call>, callers: seq<nat>) returns (run: seq<Action>)
    requires Shaped(r) && OthersIdle(r, t) && Leads(r, own, r1) && Solo(r, own, t)
    requires Makes(r1, later, r2, calls, callers)
    ensures Makes(r, run, r2, calls, callers)
    decreases |own|
  {
    if own == [] {
      return later;
    }
    LeadsRest(r, own, r1);
    StepOthersIdle(r, own[0]);
    var rest := OnItsOwn(Step(r, own[0]), own[1..], t, r1, later, r2, calls, callers);
    MakesFirst(r, own[0], rest, r2, calls, callers);
    run := [own[0]] + rest;
  }

  /** How thread `t` begins a call. */
  function FirstOf(r: Ring, call: Call, t: nat): Action {
    if call.Put? then Claim(t, call.msg) else StartFlush(t, r.cursor)
  }

  lemma CallMakes(r: Ring, l: Logger, call: Call, t: nat) returns (r1: Ring, own: seq<Action>)
    requires Shaped(r) && Quiet(r) && Matches(r, l) && Resting(l) && t < |r.threads|
    ensures Enabled(r, FirstOf(r, call, t)) && Hinted(r, FirstOf(r, call, t)) && Starts(r, FirstOf(r, call, t))
    ensures var r0 := Step(r, FirstOf(r, call, t));
            Shaped(r0) && OthersIdle(r0, t) && Leads(r0, own, r1) && Solo(r0, own, t)
    ensures Shaped(r1) && Quiet(r1) && |r1.threads| == |r.threads| && Matches(r1, AfterCall(l, call))
  {
    var a := FirstOf(r, call, t);
    r1 := CallAlone(r, l, a);
    StepOthersIdle(r, a);
    own :| Leads(Step(r, a), own, r1) && Solo(Step(r, a), own, t);
  }

  /** Any calls by any threads can be made so. */
  lemma {:induction false} CallsCanBeMade(r: Ring, l: Logger, calls: seq<Call>, callers: seq<nat>)
      returns (run: seq<Action>, r': Ring)
    requires Shaped(r) && Quiet(r) && Matches(r, l) && Resting(l) && Numbered(l)
    requires |callers| == |calls| && forall i | 0 <= i < |callers| :: callers[i] < |r.threads|
    ensures Makes(r, run, r', calls, callers) && Quiet(r')
    decreases |calls|
  {
    if calls == [] {
      MakesNone(r);
      return [], r;
    }
    var r1, own := CallMakes(r, l, calls[0], callers[0]);
    CallAppends(l, calls[0]);
    var later: seq<Action>;
    later, r' := CallsCanBeMade(r1, AfterCall(l, calls[0]), calls[1..], callers[1..]);
    run := CallBefore(r, calls[0], callers[0], own, r1, later, r', calls[1..], callers[1..]);
    HeadTail(calls);
    HeadTail(callers);
  }

  lemma CallBefore(r: Ring, call: Call, t: nat, own: seq<Action>, r1: Ring, later: seq<Action>, r': Ring,
                   calls: seq<Call>, callers: seq<nat>) returns (run: seq<Action>)
    requires Shaped(r) && Quiet(r) && t < |r.threads| && Enabled(r, FirstOf(r, call, t)) && Hinted(r, FirstOf(r, call, t))
    requires var r0 := Step(r, FirstOf(r, call, t));
             Shaped(r0) && OthersIdle(r0, t) && Leads(r0, own, r1) && Solo(r0, own, t)
    requires Shaped(r1) && Makes(r1, later, r', calls, callers)
    ensures Makes(r, run, r', [call] + calls, [t] + callers)
  {
    var a := FirstOf(r, call, t);
    var rest := OnItsOwn(Step(r, a), own, t, r1, later, r', calls, callers);
    MakesFirst(r, a, rest, r', calls, callers);
    run := [a] + rest;
  }

  /** In every run of a logger just started in which calls do not overlap, the files and then the ring
      from the cursor are all messages put, in order, whichever threads put them. */
  lemma UndisturbedIsFifo(slots: nat, threads: nat, before: Bytes, maxSize: nat, run: seq<Action>)
    requires 0 < slots
    requires var r := Started(slots, threads, before, maxSize);
             AllEnabled(r, run) && Undisturbed(r, run) && Quiet(Run(r, run))
    ensures var r := Started(slots, threads, before, maxSize);
            var r' := Run(r, run);
            && r'.dropped == multiset{}
            && r'.cursor < |r'.slots| && (forall i | 0 <= i < |r'.slots| :: RestingSlot(r'.slots[i]))
            && Cat(r'.closed) + r'.open + Cat(Messages(Round(r'.slots, r'.cursor)))
               == before + Texts(CallsIn(r, run))
  {
    var r := Started(slots, threads, before, maxSize);
    var l := Logger(r.slots, 0, [], before, maxSize, 0, [], 0);
    StartedHolds(slots, threads, before, maxSize);
    FifoFromQuiet(r, l, run);
  }

  lemma StartedHolds(slots: nat, threads: nat, before: Bytes, maxSize: nat)
    requires 0 < slots
    ensures var r := Started(slots, threads, before, maxSize);
            var l := Logger(r.slots, 0, [], before, maxSize, 0, [], 0);
            Quiet(r) && Matches(r, l) && Resting(l) && Numbered(l) && All(l) == before && r.dropped == multiset{}
  {
    CleanedHasNoMessages(Round(Started(slots, threads, before, maxSize).slots, 0));
    assert [] + before + [] == before;
  }

  lemma FifoFromQuiet(r: Ring, l: Logger, run: seq<Action>)
    requires Shaped(r) && Quiet(r) && Matches(r, l) && Resting(l) && Numbered(l)
    requires AllEnabled(r, run) && Undisturbed(r, run) && Quiet(Run(r, run))
    ensures var r' := Run(r, run);
            && r'.dropped == r.dropped
            && r'.cursor < |r'.slots| && (forall i | 0 <= i < |r'.slots| :: RestingSlot(r'.slots[i]))
            && Cat(r'.closed) + r'.open + Cat(Messages(Round(r'.slots, r'.cursor)))
               == All(l) + Texts(CallsIn(r, run))
  {
    UndisturbedIsCalls(r, l, run);
    RunIsFifo(l, CallsIn(r, run));
  }
}
