/** The ring of log slots under any number of threads. The atomic actions are the compare-and-swaps
    and stores on the cursor, the slot status and the flush lock, one byte of a copy into a slot, and
    one byte of output; the relaxed loads are hints, so nothing depends on what they return. */
module RingThreads {
  import opened Wire

  const MSG_SIZE := 4096

  datatype Status = CLEAN | WRITING | DIRTY | FLUSHING

  datatype Slot = Slot(status: Status, len: nat, ctx: Bytes)

  /** Where a thread is. A flusher is between slots, or owns the slot it is at and has written
      `out` of its bytes; `put` is the claimed slot and message of the put the flush was started from. */
  datatype PC =
    | Idle
    | Claimed(slot: nat, msg: Bytes)
    | Won(slot: nat, msg: Bytes)
    | Copying(slot: nat, msg: Bytes, done: nat)
    | Flushing(start: nat, visited: nat, out: Option<nat>, put: Option<(nat, Bytes)>)

  /** `closed` are the rotated files and `open` the current one. The last four fields only record
      what happened: messages put, published, given up, and written out. */
  datatype Ring = Ring(
    slots: seq<Slot>, cursor: nat, lock: Option<nat>, threads: seq<PC>,
    closed: seq<Bytes>, open: Bytes, maxSize: nat,
    puts: multiset<Bytes>, accepted: multiset<Bytes>, dropped: multiset<Bytes>, flushed: seq<Bytes>)

  datatype Action =
    | Claim(t: nat, msg: Bytes)
    | StartFlush(t: nat, start: nat)
    | BeginWrite(t: nat)
    | SetLen(t: nat)
    | CopyByte(t: nat)
    | Publish(t: nat)
    | Visit(t: nat)
    | OutputByte(t: nat)
    | Release(t: nat)
    | FinishFlush(t: nat)

  function Cut(msg: Bytes): (cut: Bytes)
    ensures cut <= msg && |cut| == if |msg| <= MSG_SIZE then |msg| else MSG_SIZE
  {
    if |msg| > MSG_SIZE then msg[..MSG_SIZE] else msg
  }

  /** Slots, cursor and contents have the shapes the vectors and arrays give them. */
  predicate Shaped(r: Ring) {
    && r.slots != [] && r.cursor < |r.slots|
    && (forall i | 0 <= i < |r.slots| :: |r.slots[i].ctx| == MSG_SIZE && r.slots[i].len <= MSG_SIZE)
    && (forall t | 0 <= t < |r.threads| :: ShapedPC(r.threads[t], |r.slots|))
    && (r.lock.Some? ==> r.lock.value < |r.threads|)
  }

  predicate ShapedPC(pc: PC, n: nat) {
    match pc
    case Idle => true
    case Claimed(slot, _) => slot < n
    case Won(slot, _) => slot < n
    case Copying(slot, msg, done) => slot < n && done <= |Cut(msg)|
    case Flushing(start, visited, out, put) =>
      && start < n && visited <= n && (out.Some? ==> visited < n && out.value <= MSG_SIZE)
      && (put.Some? ==> put.value.0 < n)
  }

  /** The slot `k` places round from `start` in a ring of `n`. */
  function Around(start: nat, k: nat, n: nat): (i: nat)
    requires start < n && k <= n
    ensures i < n
  {
    if start + k < n then start + k else start + k - n
  }

  /** The slot a flusher is at. */
  function At(r: Ring, pc: PC): (i: nat)
    requires pc.Flushing? && ShapedPC(pc, |r.slots|)
    ensures i < |r.slots|
  {
    Around(pc.start, pc.visited, |r.slots|)
  }

  predicate Enabled(r: Ring, a: Action)
    requires Shaped(r)
  {
    && a.t < |r.threads|
    && var pc := r.threads[a.t];
       match a
       case Claim(_, _) => pc.Idle?
       case StartFlush(_, start) =>
         r.lock == None && start < |r.slots| && (pc.Idle? || (pc.Claimed? && start == pc.slot))
       case BeginWrite(_) => pc.Claimed?
       case SetLen(_) => pc.Won?
       case CopyByte(_) => pc.Copying? && pc.done < |Cut(pc.msg)|
       case Publish(_) => pc.Copying? && pc.done == |Cut(pc.msg)|
       case Visit(_) => pc.Flushing? && pc.out == None && pc.visited < |r.slots|
       case OutputByte(_) => pc.Flushing? && pc.out.Some? && pc.out.value < r.slots[At(r, pc)].len
       case Release(_) => pc.Flushing? && pc.out.Some? && pc.out.value == r.slots[At(r, pc)].len
       case FinishFlush(_) => pc.Flushing? && pc.visited == |r.slots|
  }

  /** The actions that leave the slots alone. */
  predicate OnlyThread(a: Action) {
    a.Claim? || a.StartFlush? || a.OutputByte? || a.FinishFlush?
  }

  /** The slot an action is on. */
  function Touched(r: Ring, a: Action): (i: nat)
    requires Shaped(r) && Enabled(r, a) && !OnlyThread(a)
    ensures i < |r.slots|
  {
    if a.Visit? || a.Release? then At(r, r.threads[a.t]) else r.threads[a.t].slot
  }

  /** A compare-and-swap from CLEAN that fails: the put gives its message up. */
  predicate GivesUp(r: Ring, a: Action)
    requires Shaped(r) && Enabled(r, a)
  {
    a.BeginWrite? && r.slots[Touched(r, a)].status != CLEAN
  }

  /** A flush that finds the open file past the limit when it is done. */
  predicate Rotates(r: Ring, a: Action) {
    a.FinishFlush? && r.maxSize != 0 && |r.open| > r.maxSize
  }

  /** Where an action takes its thread. */
  function NextPC(r: Ring, a: Action): PC
    requires Shaped(r) && Enabled(r, a)
  {
    var pc := r.threads[a.t];
    match a
    case Claim(_, msg) => Claimed(r.cursor, msg)
    case StartFlush(_, start) => Flushing(start, 0, None, if pc.Claimed? then Some((pc.slot, pc.msg)) else None)
    case BeginWrite(_) => if GivesUp(r, a) then Idle else Won(pc.slot, pc.msg)
    case SetLen(_) => Copying(pc.slot, pc.msg, 0)
    case CopyByte(_) => Copying(pc.slot, pc.msg, pc.done + 1)
    case Publish(_) => Idle
    case Visit(_) =>
      if r.slots[At(r, pc)].status == DIRTY then Flushing(pc.start, pc.visited, Some(0), pc.put)
      else Flushing(pc.start, pc.visited + 1, None, pc.put)
    case OutputByte(_) => Flushing(pc.start, pc.visited, Some(pc.out.value + 1), pc.put)
    case Release(_) => Flushing(pc.start, pc.visited + 1, None, pc.put)
    case FinishFlush(_) => if pc.put.Some? then Claimed(pc.put.value.0, pc.put.value.1) else Idle
  }

  /** What an action makes of the slot it is on. */
  function NextSlot(r: Ring, a: Action): Slot
    requires Shaped(r) && Enabled(r, a) && !OnlyThread(a)
  {
    var (pc, slot) := (r.threads[a.t], r.slots[Touched(r, a)]);
    match a
    case BeginWrite(_) => if GivesUp(r, a) then slot else slot.(status := WRITING)
    case SetLen(_) => slot.(len := |Cut(pc.msg)|)
    case CopyByte(_) => slot.(ctx := slot.ctx[pc.done := pc.msg[pc.done]])
    case Publish(_) => slot.(status := DIRTY)
    case Visit(_) => if slot.status == DIRTY then slot.(status := FLUSHING) else slot
    case Release(_) => slot.(status := CLEAN)
  }

  function Step(r: Ring, a: Action): Ring
    requires Shaped(r) && Enabled(r, a)
  {
    var pc := r.threads[a.t];
    Ring(
      if OnlyThread(a) then r.slots else r.slots[Touched(r, a) := NextSlot(r, a)],
      if a.Claim? then (r.cursor + 1) % |r.slots| else r.cursor,
      if a.StartFlush? then Some(a.t) else if a.FinishFlush? then None else r.lock,
      r.threads[a.t := NextPC(r, a)],
      if Rotates(r, a) then r.closed + [r.open] else r.closed,
      if Rotates(r, a) then []
      else if a.OutputByte? then r.open + [r.slots[At(r, pc)].ctx[pc.out.value]]
      else r.open,
      r.maxSize,
      if a.Claim? then r.puts + multiset{Cut(a.msg)} else r.puts,
      if a.Publish? then r.accepted + multiset{Cut(pc.msg)} else r.accepted,
      if GivesUp(r, a) then r.dropped + multiset{Cut(pc.msg)} else r.dropped,
      if a.Release? then r.flushed + [r.slots[At(r, pc)].ctx[..r.slots[At(r, pc)].len]] else r.flushed)
  }

  // ---- Once round the ring ----

  /** The ring read once round from `start`. */
  function Round<T>(xs: seq<T>, start: nat): (r: seq<T>)
    requires start <= |xs|
    ensures |r| == |xs|
    ensures start < |xs| ==> forall k | 0 <= k < |xs| :: r[k] == xs[Around(start, k, |xs|)]
  {
    xs[start..] + xs[..start]
  }

  /** Going round from one place further on, the slot there comes last. */
  lemma RoundAfterFill<T>(xs: seq<T>, c: nat, x: T)
    requires c < |xs|
    ensures var rest := xs[c + 1..] + xs[..c];
            && Round(xs, c) == [xs[c]] + rest
            && Round(xs[c := x], (c + 1) % |xs|) == rest + [x]
  {
    RoundSplit(xs, c);
    NextNumber(c, |xs|);
    var xs' := xs[c := x];
    if c + 1 == |xs| {
      assert xs[c + 1..] + xs[..c] == xs[..c];
      assert Round(xs', 0) == xs' == xs[..c] + [x];
    } else {
      assert xs'[c + 1..] == xs[c + 1..] && xs'[..c + 1] == xs[..c] + [x];
      Assoc(xs[c + 1..], xs[..c], [x]);
    }
  }

  lemma RoundSplit<T>(xs: seq<T>, c: nat)
    requires c < |xs|
    ensures Round(xs, c) == [xs[c]] + (xs[c + 1..] + xs[..c])
  {
    assert xs[c..] == [xs[c]] + xs[c + 1..];
    Assoc([xs[c]], xs[c + 1..], xs[..c]);
  }

  lemma NextNumber(c: nat, n: nat)
    requires c < n
    ensures (c + 1) % n == if c + 1 == n then 0 else c + 1
  {
  }

  // ---- Sums over slots and threads ----

  /** How often `m` is found over all of `xs`. */
  function Total<T>(xs: seq<T>, count: (T, Bytes) -> nat, m: Bytes): nat {
    if xs == [] then 0 else Total(xs[..|xs| - 1], count, m) + count(xs[|xs| - 1], m)
  }

  lemma {:induction false} TotalUpdate<T>(xs: seq<T>, count: (T, Bytes) -> nat, m: Bytes, i: nat, x: T)
    requires i < |xs|
    ensures Total(xs[i := x], count, m) == Total(xs, count, m) - count(xs[i], m) + count(x, m)
  {
    var n := |xs| - 1;
    if i < n {
      TotalUpdate(xs[..n], count, m, i, x);
      assert xs[i := x][..n] == xs[..n][i := x];
    } else {
      assert xs[i := x][..n] == xs[..n];
    }
  }

  /** Whether a slot holds `m`: between being published and being written out. */
  function HeldBy(slot: Slot, m: Bytes): nat {
    if (slot.status == DIRTY || slot.status == FLUSHING) && slot.len <= |slot.ctx| && slot.ctx[..slot.len] == m
    then 1 else 0
  }

  /** Whether a thread has taken `m` on and not yet published it or given it up. */
  function CarriedBy(pc: PC, m: Bytes): nat {
    var msg := match pc
      case Idle => None
      case Claimed(_, msg) => Some(msg)
      case Won(_, msg) => Some(msg)
      case Copying(_, msg, _) => Some(msg)
      case Flushing(_, _, _, put) => if put.Some? then Some(put.value.1) else None;
    if msg.Some? && Cut(msg.value) == m then 1 else 0
  }

  function Cat(xs: seq<Bytes>): Bytes {
    if xs == [] then [] else Cat(xs[..|xs| - 1]) + xs[|xs| - 1]
  }

  // ---- Invariants ----

  predicate Writes(pc: PC) {
    pc.Won? || pc.Copying?
  }

  /** The flusher in the middle of a slot, if there is one. */
  function Outputting(r: Ring): Option<PC>
    requires Shaped(r)
  {
    if r.lock.Some? && r.threads[r.lock.value].Flushing? && r.threads[r.lock.value].out.Some?
    then Some(r.threads[r.lock.value]) else None
  }

  /** A slot has at most one writer, the flush lock has at most one holder and only the holder
      flushes, and the status of a slot in use says which of the two has it. */
  ghost predicate Owned(r: Ring)
    requires Shaped(r)
  {
    && (forall t | 0 <= t < |r.threads| && Writes(r.threads[t]) :: r.slots[r.threads[t].slot].status == WRITING)
    && (forall t, u | 0 <= t < u < |r.threads| && Writes(r.threads[t]) && Writes(r.threads[u]) ::
          r.threads[t].slot != r.threads[u].slot)
    && (forall t | 0 <= t < |r.threads| :: r.threads[t].Flushing? <==> r.lock == Some(t))
    && (forall i | 0 <= i < |r.slots| ::
          r.slots[i].status == FLUSHING <==> Outputting(r).Some? && At(r, Outputting(r).value) == i)
  }

  /** A copy in progress has put the front of its message at the front of its slot. */
  ghost predicate Copied(r: Ring)
    requires Shaped(r)
  {
    forall t | 0 <= t < |r.threads| && r.threads[t].Copying? ::
      var pc := r.threads[t];
      r.slots[pc.slot].len == |Cut(pc.msg)| && r.slots[pc.slot].ctx[..pc.done] == pc.msg[..pc.done]
  }

  /** The part of a message already in the file while its slot is still being flushed. */
  function Partial(r: Ring): Bytes
    requires Shaped(r)
  {
    match Outputting(r)
    case None => []
    case Some(pc) => r.slots[At(r, pc)].ctx[..pc.out.value]
  }

  /** The files are whole accepted messages one after another, but for the one being written. */
  ghost predicate Untorn(r: Ring, before: Bytes)
    requires Shaped(r)
  {
    && Cat(r.closed) + r.open == before + Cat(r.flushed) + Partial(r)
    && (Outputting(r).Some? ==> Outputting(r).value.out.value <= r.slots[At(r, Outputting(r).value)].len)
  }

  /** Every message put is accepted, given up or still under way, and every accepted message is
      either in the files or in one slot: none is duplicated and none disappears. */
  ghost predicate Conserved(r: Ring) {
    && (forall m :: r.accepted[m] == multiset(r.flushed)[m] + Total(r.slots, HeldBy, m))
    && (forall m :: r.puts[m] == r.accepted[m] + r.dropped[m] + Total(r.threads, CarriedBy, m))
  }

  /** What a sweep may have added to the open file so far. */
  function Added(r: Ring): nat
    requires Shaped(r)
  {
    if r.lock.Some? && r.threads[r.lock.value].Flushing? then
      var pc := r.threads[r.lock.value];
      pc.visited * MSG_SIZE + (if pc.out.Some? then pc.out.value else 0)
    else 0
  }

  /** How large file number `i` of this run may be before a flush: the limit, but the first was
      started on with `first` bytes in it. */
  function SizeLimit(maxSize: nat, first: nat, i: nat): nat {
    if i == 0 && first > maxSize then first else maxSize
  }

  /** Files rotate just after passing the limit, by at most one ring of messages, and never if there is
      no limit. */
  ghost predicate Bounded(r: Ring, first: nat)
    requires Shaped(r)
  {
    if r.maxSize == 0 then r.closed == []
    else
      && |r.open| <= SizeLimit(r.maxSize, first, |r.closed|) + Added(r)
      && (forall i | 0 <= i < |r.closed| ::
            r.maxSize < |r.closed[i]| <= SizeLimit(r.maxSize, first, i) + |r.slots| * MSG_SIZE)
  }

  ghost predicate Inv(r: Ring, before: Bytes) {
    Shaped(r) && Owned(r) && Copied(r) && Untorn(r, before) && Conserved(r) && Bounded(r, |before|)
  }

  // ---- Every step keeps every invariant ----

  lemma StepShape(r: Ring, a: Action)
    requires Shaped(r) && Enabled(r, a)
    ensures ShapedPC(NextPC(r, a), |r.slots|)
    ensures !OnlyThread(a) ==> |NextSlot(r, a).ctx| == MSG_SIZE && NextSlot(r, a).len <= MSG_SIZE
  {
  }

  lemma StepKeepsShaped(r: Ring, a: Action)
    requires Shaped(r) && Enabled(r, a)
    ensures Shaped(Step(r, a))
  {
    StepShape(r, a);
    NextNumber(r.cursor, |r.slots|);
    var r' := Step(r, a);
    forall t | 0 <= t < |r'.threads| ensures ShapedPC(r'.threads[t], |r'.slots|) {
      assert t != a.t ==> r'.threads[t] == r.threads[t];
    }
  }

  /** The actions of a put outside its flush. */
  predicate ByWriter(a: Action) {
    a.Claim? || a.BeginWrite? || a.SetLen? || a.CopyByte? || a.Publish?
  }

  lemma WinnerKeepsOwned(r: Ring, a: Action)
    requires Shaped(r) && Owned(r) && Enabled(r, a) && a.BeginWrite?
    ensures Shaped(Step(r, a)) && Owned(Step(r, a))
  {
    StepKeepsShaped(r, a);
    WriterLeavesFlusher(r, a);
  }

  lemma CopierKeepsOwned(r: Ring, a: Action)
    requires Shaped(r) && Owned(r) && Enabled(r, a) && (a.SetLen? || a.CopyByte? || a.Publish?)
    ensures Shaped(Step(r, a)) && Owned(Step(r, a))
  {
    StepKeepsShaped(r, a);
    WriterLeavesFlusher(r, a);
  }

  lemma ClaimKeepsOwned(r: Ring, a: Action)
    requires Shaped(r) && Owned(r) && Enabled(r, a) && a.Claim?
    ensures Shaped(Step(r, a)) && Owned(Step(r, a))
  {
    StepKeepsShaped(r, a);
    WriterLeavesFlusher(r, a);
  }

  /** A put leaves the flusher and the slot it owns alone. */
  lemma WriterLeavesFlusher(r: Ring, a: Action)
    requires Shaped(r) && Owned(r) && Enabled(r, a) && ByWriter(a)
    ensures Shaped(Step(r, a)) && Outputting(Step(r, a)) == Outputting(r)
    ensures Outputting(r).Some? ==>
              var i := At(r, Outputting(r).value); Step(r, a).slots[i] == r.slots[i]
  {
    StepKeepsShaped(r, a);
  }

  lemma LockKeepsOwned(r: Ring, a: Action)
    requires Shaped(r) && Owned(r) && Enabled(r, a) && (a.StartFlush? || a.FinishFlush?)
    ensures Shaped(Step(r, a)) && Owned(Step(r, a))
  {
    StepKeepsShaped(r, a);
    assert Outputting(r) == None && Outputting(Step(r, a)) == None;
  }

  lemma VisitKeepsOwned(r: Ring, a: Action)
    requires Shaped(r) && Owned(r) && Enabled(r, a) && a.Visit?
    ensures Shaped(Step(r, a)) && Owned(Step(r, a))
  {
    StepKeepsShaped(r, a);
    assert r.lock == Some(a.t) && Outputting(r) == None;
  }

  lemma OutputKeepsOwned(r: Ring, a: Action)
    requires Shaped(r) && Owned(r) && Enabled(r, a) && (a.OutputByte? || a.Release?)
    ensures Shaped(Step(r, a)) && Owned(Step(r, a))
  {
    StepKeepsShaped(r, a);
    assert r.lock == Some(a.t) && Outputting(r) == Some(r.threads[a.t]);
  }

  lemma StepKeepsOwned(r: Ring, a: Action)
    requires Shaped(r) && Owned(r) && Enabled(r, a)
    ensures Shaped(Step(r, a)) && Owned(Step(r, a))
  {
    if a.Claim? {
      ClaimKeepsOwned(r, a);
    } else if a.BeginWrite? {
      WinnerKeepsOwned(r, a);
    } else if ByWriter(a) {
      CopierKeepsOwned(r, a);
    } else if a.StartFlush? || a.FinishFlush? {
      LockKeepsOwned(r, a);
    } else if a.Visit? {
      VisitKeepsOwned(r, a);
    } else {
      OutputKeepsOwned(r, a);
    }
  }

  lemma WriterKeepsCopied(r: Ring, a: Action)
    requires Shaped(r) && Owned(r) && Copied(r) && Enabled(r, a) && ByWriter(a)
    ensures Shaped(Step(r, a)) && Copied(Step(r, a))
  {
    StepKeepsShaped(r, a);
  }

  lemma FlusherKeepsCopied(r: Ring, a: Action)
    requires Shaped(r) && Owned(r) && Copied(r) && Enabled(r, a) && !ByWriter(a)
    ensures Shaped(Step(r, a)) && Copied(Step(r, a))
  {
    StepKeepsShaped(r, a);
    var r' := Step(r, a);
    assert !r'.threads[a.t].Copying?;
    assert forall i | 0 <= i < |r.slots| :: r'.slots[i].len == r.slots[i].len && r'.slots[i].ctx == r.slots[i].ctx;
  }

  lemma CatSnoc(xs: seq<Bytes>, x: Bytes)
    ensures Cat(xs + [x]) == Cat(xs) + x
  {
    assert (xs + [x])[..|xs|] == xs;
  }

  lemma OutputKeepsUntorn(r: Ring, before: Bytes, a: Action)
    requires Shaped(r) && Owned(r) && Untorn(r, before) && Enabled(r, a) && a.OutputByte?
    ensures Shaped(Step(r, a)) && Untorn(Step(r, a), before)
  {
    StepKeepsShaped(r, a);
    var pc := r.threads[a.t];
    var ctx, n := r.slots[At(r, pc)].ctx, pc.out.value;
    assert ctx[..n + 1] == ctx[..n] + [ctx[n]];
    assert Partial(Step(r, a)) == ctx[..n + 1];
    Assoc(Cat(r.closed), r.open, [ctx[n]]);
    Assoc(before + Cat(r.flushed), ctx[..n], [ctx[n]]);
  }

  lemma ReleaseKeepsUntorn(r: Ring, before: Bytes, a: Action)
    requires Shaped(r) && Owned(r) && Untorn(r, before) && Enabled(r, a) && a.Release?
    ensures Shaped(Step(r, a)) && Untorn(Step(r, a), before)
  {
    StepKeepsShaped(r, a);
    var r' := Step(r, a);
    assert Outputting(r) == Some(r.threads[a.t]) && Outputting(r') == None;
    assert r'.flushed == r.flushed + [Partial(r)];
    CatSnoc(r.flushed, Partial(r));
    Assoc(before, Cat(r.flushed), Partial(r));
  }

  lemma FinishKeepsUntorn(r: Ring, before: Bytes, a: Action)
    requires Shaped(r) && Owned(r) && Untorn(r, before) && Enabled(r, a) && a.FinishFlush?
    ensures Shaped(Step(r, a)) && Untorn(Step(r, a), before)
  {
    StepKeepsShaped(r, a);
    CatSnoc(r.closed, r.open);
    assert Partial(Step(r, a)) == Partial(r) == [];
    Assoc(Cat(r.closed), r.open, []);
  }

  lemma WriterKeepsUntorn(r: Ring, before: Bytes, a: Action)
    requires Shaped(r) && Owned(r) && Untorn(r, before) && Enabled(r, a) && ByWriter(a)
    ensures Shaped(Step(r, a)) && Untorn(Step(r, a), before)
  {
    WriterLeavesFlusher(r, a);
    StepHistory(r, a);
    assert Partial(Step(r, a)) == Partial(r);
  }

  lemma StepKeepsUntorn(r: Ring, before: Bytes, a: Action)
    requires Shaped(r) && Owned(r) && Untorn(r, before) && Enabled(r, a)
    ensures Shaped(Step(r, a)) && Untorn(Step(r, a), before)
  {
    StepKeepsShaped(r, a);
    if ByWriter(a) {
      WriterKeepsUntorn(r, before, a);
    } else if a.OutputByte? {
      OutputKeepsUntorn(r, before, a);
    } else if a.Release? {
      ReleaseKeepsUntorn(r, before, a);
    } else if a.FinishFlush? {
      FinishKeepsUntorn(r, before, a);
    } else {
      assert Partial(Step(r, a)) == Partial(r) == [];
    }
  }

  /** What an action adds to the records of what happened. */
  lemma StepHistory(r: Ring, a: Action)
    requires Shaped(r) && Enabled(r, a)
    ensures var (r', pc) := (Step(r, a), r.threads[a.t]);
            && r'.puts == (if a.Claim? then r.puts + multiset{Cut(a.msg)} else r.puts)
            && r'.accepted == (if a.Publish? then r.accepted + multiset{Cut(pc.msg)} else r.accepted)
            && r'.dropped == (if a.BeginWrite? && r.slots[pc.slot].status != CLEAN
                              then r.dropped + multiset{Cut(pc.msg)} else r.dropped)
            && (a.Release? ==> var slot := r.slots[At(r, pc)]; r'.flushed == r.flushed + [slot.ctx[..slot.len]])
            && (!a.Release? ==> r'.flushed == r.flushed)
            && (ByWriter(a) ==> r'.closed == r.closed && r'.open == r.open)
  {
  }

  /** Publishing is what makes a slot hold its message, releasing what makes it stop. */
  lemma HeldStep(r: Ring, a: Action, m: Bytes)
    requires Shaped(r) && Owned(r) && Copied(r) && Enabled(r, a) && !OnlyThread(a)
    ensures var (i, pc) := (Touched(r, a), r.threads[a.t]);
            HeldBy(Step(r, a).slots[i], m)
            == if a.Publish? then (if Cut(pc.msg) == m then 1 else 0)
               else if a.Release? then 0 else HeldBy(r.slots[i], m)
    ensures a.Publish? ==> HeldBy(r.slots[Touched(r, a)], m) == 0
    ensures a.Release? ==>
              var slot := r.slots[Touched(r, a)]; HeldBy(slot, m) == if slot.ctx[..slot.len] == m then 1 else 0
  {
    if a.Publish? {
      var slot := r.slots[Touched(r, a)];
      assert slot.ctx[..slot.len] == Cut(r.threads[a.t].msg);
    }
  }

  lemma CarriedStep(r: Ring, a: Action, m: Bytes)
    requires Shaped(r) && Enabled(r, a)
    ensures var pc := r.threads[a.t];
            CarriedBy(Step(r, a).threads[a.t], m)
            == if a.Claim? then (if Cut(a.msg) == m then 1 else 0)
               else if a.Publish? || (a.BeginWrite? && r.slots[pc.slot].status != CLEAN) then 0
               else CarriedBy(pc, m)
    ensures a.Claim? ==> CarriedBy(r.threads[a.t], m) == 0
  {
  }

  lemma StepKeepsAccepted(r: Ring, a: Action, m: Bytes)
    requires Shaped(r) && Owned(r) && Copied(r) && Enabled(r, a)
    requires r.accepted[m] == multiset(r.flushed)[m] + Total(r.slots, HeldBy, m)
    ensures var r' := Step(r, a); r'.accepted[m] == multiset(r'.flushed)[m] + Total(r'.slots, HeldBy, m)
  {
    StepHistory(r, a);
    if !OnlyThread(a) {
      HeldStep(r, a, m);
      TotalUpdate(r.slots, HeldBy, m, Touched(r, a), Step(r, a).slots[Touched(r, a)]);
    }
  }

  lemma StepKeepsPuts(r: Ring, a: Action, m: Bytes)
    requires Shaped(r) && Enabled(r, a)
    requires r.puts[m] == r.accepted[m] + r.dropped[m] + Total(r.threads, CarriedBy, m)
    ensures var r' := Step(r, a); r'.puts[m] == r'.accepted[m] + r'.dropped[m] + Total(r'.threads, CarriedBy, m)
  {
    StepHistory(r, a);
    CarriedStep(r, a, m);
    TotalUpdate(r.threads, CarriedBy, m, a.t, Step(r, a).threads[a.t]);
  }

  lemma StepKeepsBounded(r: Ring, a: Action, first: nat)
    requires Shaped(r) && Owned(r) && Bounded(r, first) && Enabled(r, a)
    ensures Shaped(Step(r, a)) && Bounded(Step(r, a), first)
  {
    StepKeepsShaped(r, a);
    if a.FinishFlush? {
      FinishKeepsBounded(r, a, first);
    } else if ByWriter(a) {
      WriterLeavesFlusher(r, a);
      assert Added(Step(r, a)) == Added(r);
    } else {
      SweepKeepsBounded(r, a, first);
    }
  }

  lemma FinishKeepsBounded(r: Ring, a: Action, first: nat)
    requires Shaped(r) && Owned(r) && Bounded(r, first) && Enabled(r, a) && a.FinishFlush?
    ensures Shaped(Step(r, a)) && Bounded(Step(r, a), first)
  {
    StepKeepsShaped(r, a);
    assert Added(r) == |r.slots| * MSG_SIZE && Added(Step(r, a)) == 0;
  }

  lemma SweepKeepsBounded(r: Ring, a: Action, first: nat)
    requires Shaped(r) && Owned(r) && Bounded(r, first) && Enabled(r, a)
    requires a.StartFlush? || a.Visit? || a.OutputByte? || a.Release?
    ensures Shaped(Step(r, a)) && Bounded(Step(r, a), first)
  {
    StepKeepsShaped(r, a);
    assert Step(r, a).closed == r.closed;
  }

  lemma StepKeepsInv(r: Ring, before: Bytes, a: Action)
    requires Inv(r, before) && Enabled(r, a)
    ensures Inv(Step(r, a), before)
  {
    StepKeepsOwned(r, a);
    if ByWriter(a) {
      WriterKeepsCopied(r, a);
    } else {
      FlusherKeepsCopied(r, a);
    }
    StepKeepsUntorn(r, before, a);
    StepKeepsBounded(r, a, |before|);
    forall m ensures
      var r' := Step(r, a);
      && r'.accepted[m] == multiset(r'.flushed)[m] + Total(r'.slots, HeldBy, m)
      && r'.puts[m] == r'.accepted[m] + r'.dropped[m] + Total(r'.threads, CarriedBy, m)
    {
      StepKeepsAccepted(r, a, m);
      StepKeepsPuts(r, a, m);
    }
  }

  // ---- Runs ----

  predicate AllEnabled(r: Ring, run: seq<Action>)
    requires Shaped(r)
    decreases |run|
  {
    run != [] ==>
      Enabled(r, run[0]) && (StepKeepsShaped(r, run[0]); AllEnabled(Step(r, run[0]), run[1..]))
  }

  function Run(r: Ring, run: seq<Action>): Ring
    requires Shaped(r) && AllEnabled(r, run)
    decreases |run|
  {
    if run == [] then r else StepKeepsShaped(r, run[0]); Run(Step(r, run[0]), run[1..])
  }

  /** A logger just started on a file that holds `before`. */
  function Started(slots: nat, threads: nat, before: Bytes, maxSize: nat): (r: Ring)
    requires 0 < slots
    ensures Shaped(r)
  {
    Ring(seq(slots, _ => Slot(CLEAN, 0, seq(MSG_SIZE, _ => 0))), 0, None, seq(threads, _ => Idle),
         [], before, maxSize, multiset{}, multiset{}, multiset{}, [])
  }

  lemma {:induction false} TotalZero<T>(xs: seq<T>, count: (T, Bytes) -> nat, m: Bytes)
    requires forall i | 0 <= i < |xs| :: count(xs[i], m) == 0
    ensures Total(xs, count, m) == 0
  {
    if xs != [] {
      TotalZero(xs[..|xs| - 1], count, m);
    }
  }

  lemma StartedInv(slots: nat, threads: nat, before: Bytes, maxSize: nat)
    requires 0 < slots
    ensures Inv(Started(slots, threads, before, maxSize), before)
  {
    var r := Started(slots, threads, before, maxSize);
    forall m ensures Total(r.slots, HeldBy, m) == 0 && Total(r.threads, CarriedBy, m) == 0 {
      TotalZero(r.slots, HeldBy, m);
      TotalZero(r.threads, CarriedBy, m);
    }
  }

  lemma {:induction false} RunKeepsInv(r: Ring, before: Bytes, run: seq<Action>)
    requires Inv(r, before) && AllEnabled(r, run)
    ensures Inv(Run(r, run), before)
    decreases |run|
  {
    if run != [] {
      StepKeepsInv(r, before, run[0]);
      RunKeepsInv(Step(r, run[0]), before, run[1..]);
    }
  }

  /** In every interleaving of any number of threads: slots have one owner, no message is torn,
      mixed, duplicated or lost once accepted, and files keep to their size. */
  lemma EveryRunIsSafe(slots: nat, threads: nat, before: Bytes, maxSize: nat, run: seq<Action>)
    requires 0 < slots
    requires AllEnabled(Started(slots, threads, before, maxSize), run)
    ensures Inv(Run(Started(slots, threads, before, maxSize), run), before)
  {
    StartedInv(slots, threads, before, maxSize);
    RunKeepsInv(Started(slots, threads, before, maxSize), before, run);
  }

  /** With no flush under way the files are exactly the messages written out, and the open file
      keeps to the limit; with every slot clean those are exactly the messages accepted. */
  lemma AtRest(r: Ring, before: Bytes)
    requires Inv(r, before) && r.lock == None
    ensures Cat(r.closed) + r.open == before + Cat(r.flushed)
    ensures r.maxSize != 0 && (r.closed != [] || |before| <= r.maxSize) ==> |r.open| <= r.maxSize
    ensures (forall i | 0 <= i < |r.slots| :: r.slots[i].status == CLEAN) ==> r.accepted == multiset(r.flushed)
  {
    if forall i | 0 <= i < |r.slots| :: r.slots[i].status == CLEAN {
      forall m ensures r.accepted[m] == multiset(r.flushed)[m] {
        TotalZero(r.slots, HeldBy, m);
      }
    }
  }

  // ---- When nothing is lost ----

  /** Every put of a run that came to its compare-and-swap found its slot clean. */
  predicate MetClean(r: Ring, run: seq<Action>)
    requires Shaped(r) && AllEnabled(r, run)
    decreases |run|
  {
    run != [] ==>
      && (run[0].BeginWrite? ==> r.slots[r.threads[run[0].t].slot].status == CLEAN)
      && (StepKeepsShaped(r, run[0]); MetClean(Step(r, run[0]), run[1..]))
  }

  lemma {:induction false} DroppedGrows(r: Ring, run: seq<Action>)
    requires Shaped(r) && AllEnabled(r, run)
    ensures |r.dropped| <= |Run(r, run).dropped|
    ensures Run(r, run).dropped == r.dropped <==> MetClean(r, run)
    decreases |run|
  {
    if run != [] {
      StepKeepsShaped(r, run[0]);
      StepHistory(r, run[0]);
      DroppedGrows(Step(r, run[0]), run[1..]);
    }
  }

  /** A run that ends with no put under way has accepted every message put if and only if every
      compare-and-swap met a clean slot; if moreover the ring is clean and no flush is under way,
      that is when the files got exactly the messages put, each once. */
  lemma NothingLostIff(slots: nat, threads: nat, before: Bytes, maxSize: nat, run: seq<Action>)
    requires 0 < slots
    requires var r := Started(slots, threads, before, maxSize);
             && AllEnabled(r, run)
             && forall t | 0 <= t < |Run(r, run).threads| :: Run(r, run).threads[t].Idle?
    ensures var r := Started(slots, threads, before, maxSize);
            var r' := Run(r, run);
            && (r'.accepted == r'.puts <==> MetClean(r, run))
            && ((forall i | 0 <= i < |r'.slots| :: r'.slots[i].status == CLEAN) ==>
                  (multiset(r'.flushed) == r'.puts <==> MetClean(r, run)))
  {
    var r := Started(slots, threads, before, maxSize);
    EveryRunIsSafe(slots, threads, before, maxSize, run);
    DroppedGrows(r, run);
    AccountedFor(Run(r, run), before);
  }

  lemma AccountedFor(r: Ring, before: Bytes)
    requires Inv(r, before) && forall t | 0 <= t < |r.threads| :: r.threads[t].Idle?
    ensures r.accepted == r.puts <==> r.dropped == multiset{}
    ensures (forall i | 0 <= i < |r.slots| :: r.slots[i].status == CLEAN) ==> multiset(r.flushed) == r.accepted
  {
    assert r.lock == None;
    AtRest(r, before);
    assert r.puts == r.accepted + r.dropped by {
      AllPutsEnded(r);
    }
    assert r.accepted == r.puts ==> |r.dropped| == 0;
  }

  lemma AllPutsEnded(r: Ring)
    requires Conserved(r) && forall t | 0 <= t < |r.threads| :: r.threads[t].Idle?
    ensures r.puts == r.accepted + r.dropped
  {
    forall m ensures r.puts[m] == r.accepted[m] + r.dropped[m] {
      TotalZero(r.threads, CarriedBy, m);
    }
  }
}
