/** When the files keep order although flushes overlap puts, of which there is one at a time. */
module RingOrder {
  import opened Wire
  import opened RingThreads

  /** A put is under way in a thread, perhaps in the middle of its own flush. */
  predicate Carries(pc: PC) {
    pc.Claimed? || pc.Won? || pc.Copying? || (pc.Flushing? && pc.put.Some?)
  }

  /** The slot claimed and the message. */
  function Carried(pc: PC): (nat, Bytes)
    requires Carries(pc)
  {
    if pc.Flushing? then pc.put.value else (pc.slot, pc.msg)
  }

  ghost predicate UnderWay(r: Ring) {
    SomeCarries(r.threads)
  }

  ghost predicate SomeCarries(threads: seq<PC>) {
    exists t :: 0 <= t < |threads| && Carries(threads[t])
  }

  /** The slot before `c`. */
  function Preceding(c: nat, n: nat): (i: nat)
    requires c < n
    ensures i < n
  {
    if c == 0 then n - 1 else c - 1
  }

  lemma PrecedingNext(c: nat, n: nat)
    requires c < n
    ensures Preceding((c + 1) % n, n) == c && (Preceding(c, n) + 1) % n == c
  {
    NextNumber(c, n);
    NextNumber(Preceding(c, n), n);
  }

  /** The slot a put under way has claimed, otherwise the next to be claimed. */
  ghost function Oldest(r: Ring): (i: nat)
    requires Shaped(r)
    ensures i < |r.slots|
  {
    if UnderWay(r) then Preceding(r.cursor, |r.slots|) else r.cursor
  }

  // ---- What waits in the ring ----

  /** A published message no flusher has come to. */
  function DirtyText(slot: Slot): seq<Bytes> {
    if slot.status == DIRTY && slot.len <= |slot.ctx| then [slot.ctx[..slot.len]] else []
  }

  function DirtyTexts(slots: seq<Slot>): seq<Bytes> {
    if slots == [] then [] else DirtyText(slots[0]) + DirtyTexts(slots[1..])
  }

  lemma {:induction false} DirtyTextsSame(a: seq<Slot>, b: seq<Slot>)
    requires |a| == |b| && forall i | 0 <= i < |a| :: DirtyText(a[i]) == DirtyText(b[i])
    ensures DirtyTexts(a) == DirtyTexts(b)
  {
    if a != [] {
      DirtyTextsSame(a[1..], b[1..]);
    }
  }

  lemma {:induction false} DirtyTextsNone(a: seq<Slot>)
    requires forall i | 0 <= i < |a| :: DirtyText(a[i]) == []
    ensures DirtyTexts(a) == []
  {
    if a != [] {
      DirtyTextsNone(a[1..]);
    }
  }

  lemma {:induction false} DirtyTextsAppend(a: seq<Slot>, b: seq<Slot>)
    ensures DirtyTexts(a + b) == DirtyTexts(a) + DirtyTexts(b)
  {
    if a == [] {
      assert a + b == b;
    } else {
      assert (a + b)[1..] == a[1..] + b;
      DirtyTextsAppend(a[1..], b);
      Assoc(DirtyText(a[0]), DirtyTexts(a[1..]), DirtyTexts(b));
    }
  }

  lemma DirtyTextsOne(x: Slot, rest: seq<Slot>)
    ensures DirtyTexts([x] + rest) == DirtyText(x) + DirtyTexts(rest)
  {
    assert ([x] + rest)[1..] == rest;
  }

  lemma DirtyTextsSplit(slots: seq<Slot>, p: nat, x: Slot)
    requires p < |slots|
    ensures DirtyTexts(slots[p := x]) == DirtyTexts(slots[..p]) + (DirtyText(x) + DirtyTexts(slots[p + 1..]))
  {
    assert slots[p := x] == slots[..p] + ([x] + slots[p + 1..]);
    DirtyTextsAppend(slots[..p], [x] + slots[p + 1..]);
    DirtyTextsOne(x, slots[p + 1..]);
  }

  /** Going round from one place further on takes what the first slot held from the front and puts
      what it holds then at the end. */
  lemma DirtyTextsMove(slots: seq<Slot>, c: nat, x: Slot)
    requires c < |slots|
    ensures DirtyText(slots[c]) + DirtyTexts(Round(slots[c := x], (c + 1) % |slots|))
            == DirtyTexts(Round(slots, c)) + DirtyText(x)
  {
    var rest := slots[c + 1..] + slots[..c];
    RoundAfterFill(slots, c, x);
    DirtyTextsOne(slots[c], rest);
    DirtyTextsOne(x, []);
    DirtyTextsAppend(rest, [x]);
    assert [x] + [] == [x];
    Assoc(DirtyText(slots[c]), DirtyTexts(rest), DirtyText(x));
  }

  /** What waits does not change when slot `i` changes but is as dirty as it was. */
  lemma DirtyElsewhere(slots: seq<Slot>, i: nat, x: Slot, s: nat)
    requires i < |slots| && s < |slots| && DirtyText(x) == DirtyText(slots[i])
    ensures DirtyTexts(Round(slots[i := x], s)) == DirtyTexts(Round(slots, s))
  {
    DirtyTextsSame(Round(slots[i := x], s), Round(slots, s));
  }

  /** How many slots on from `b` slot `c` comes. */
  function Places(b: nat, c: nat, n: nat): (k: nat)
    requires b < n && c < n
    ensures k < n && Around(b, k, n) == c
  {
    if c >= b then c - b else c + n - b
  }

  /** The slot `v` places round is the one at `v` of the round. */
  lemma RoundUpdate<T>(xs: seq<T>, s: nat, v: nat, x: T)
    requires s < |xs| && v < |xs|
    ensures Round(xs[Around(s, v, |xs|) := x], s) == Round(xs, s)[v := x]
  {
  }

  /** The messages that wait in the slots from `b` up to slot `c`. */
  function Between(slots: seq<Slot>, b: nat, c: nat): seq<Bytes>
    requires b < |slots| && c < |slots|
  {
    DirtyTexts(Round(slots, b)[..Places(b, c, |slots|)])
  }

  /** Taking the message of slot `c` out of what waits, which has others before it and after it. */
  lemma TakeOut(slots: seq<Slot>, b: nat, c: nat, x: Slot) returns (after: seq<Bytes>)
    requires b < |slots| && c < |slots| && DirtyText(x) == []
    ensures DirtyTexts(Round(slots, b)) == Between(slots, b, c) + (DirtyText(slots[c]) + after)
    ensures DirtyTexts(Round(slots[c := x], b)) == Between(slots, b, c) + after
  {
    var (round, p) := (Round(slots, b), Places(b, c, |slots|));
    after := DirtyTexts(round[p + 1..]);
    RoundUpdate(slots, b, p, x);
    DirtyTextsSplit(round, p, round[p]);
    DirtyTextsSplit(round, p, x);
    assert round[p := round[p]] == round && [] + after == after;
  }

  predicate Distinct(xs: seq<Bytes>) {
    forall i, j | 0 <= i < j < |xs| :: xs[i] != xs[j]
  }

  // ---- The invariant ----

  /** At most one put is under way, and it claimed the slot before the cursor. */
  ghost predicate OneAtATime(r: Ring)
    requires Shaped(r)
  {
    OneCarries(r.threads, Preceding(r.cursor, |r.slots|))
  }

  ghost predicate OneCarries(threads: seq<PC>, slot: nat) {
    && (forall t | 0 <= t < |threads| && Carries(threads[t]) :: Carried(threads[t]).0 == slot)
    && (forall t, u | 0 <= t < u < |threads| :: !(Carries(threads[t]) && Carries(threads[u])))
  }

  /** The message being written out, if any. */
  function InFlight(r: Ring): seq<Bytes>
    requires Shaped(r)
  {
    match Outputting(r)
    case None => []
    case Some(pc) => var slot := r.slots[At(r, pc)]; [slot.ctx[..slot.len]]
  }

  /** The messages flushers have taken, in the order they go to the files. */
  function Taken(r: Ring): seq<Bytes>
    requires Shaped(r)
  {
    r.flushed + InFlight(r)
  }

  /** The published messages no flusher has taken, in the order of the ring from the oldest slot. */
  ghost function Pending(r: Ring): seq<Bytes>
    requires Shaped(r)
  {
    DirtyTexts(Round(r.slots, Oldest(r)))
  }

  ghost predicate InOrder(r: Ring, published: seq<Bytes>) {
    Shaped(r) && Taken(r) + Pending(r) == published
  }

  /** What an action publishes. */
  function Publishes(r: Ring, a: Action): seq<Bytes>
    requires Shaped(r) && Enabled(r, a)
  {
    if a.Publish? then [Cut(r.threads[a.t].msg)] else []
  }

  /** One put at a time. */
  ghost predicate InTurn(r: Ring, a: Action) {
    a.Claim? ==> !UnderWay(r)
  }

  /** A put waits until its slot is not dirty. */
  predicate Waits(r: Ring, a: Action)
    requires Shaped(r) && Enabled(r, a)
  {
    a.BeginWrite? ==> r.slots[r.threads[a.t].slot].status != DIRTY
  }

  /** A flusher takes the message of the slot it is at. */
  predicate Takes(r: Ring, a: Action)
    requires Shaped(r) && Enabled(r, a)
  {
    a.Visit? && r.slots[At(r, r.threads[a.t])].status == DIRTY
  }

  /** When it does, no message waits in the slots from the oldest up to there. */
  ghost predicate TakesOldest(r: Ring, a: Action)
    requires Shaped(r) && Enabled(r, a)
  {
    Takes(r, a) ==> Between(r.slots, Oldest(r), At(r, r.threads[a.t])) == []
  }

  // ---- Steps ----

  /** A put is under way from its claim until it is published or given up. */
  lemma CarriesStep(r: Ring, a: Action)
    requires Shaped(r) && Enabled(r, a)
    ensures Carries(NextPC(r, a))
            <==> a.Claim? || (Carries(r.threads[a.t]) && !a.Publish? && !GivesUp(r, a))
    ensures Carries(NextPC(r, a)) ==> Carried(NextPC(r, a)) == if a.Claim? then (r.cursor, a.msg) else Carried(r.threads[a.t])
  {
  }

  /** One thread moves on: it starts carrying when no thread did, goes on carrying the same, or stops. */
  lemma OneCarriesStep(threads: seq<PC>, slot: nat, i: nat, pc: PC, slot': nat)
    requires OneCarries(threads, slot) && i < |threads|
    requires Carries(pc) ==> Carried(pc).0 == slot'
    requires Carries(pc) && !Carries(threads[i]) ==> !SomeCarries(threads)
    requires slot == slot' || !SomeCarries(threads)
    ensures OneCarries(threads[i := pc], slot')
    ensures SomeCarries(threads[i := pc]) <==> Carries(pc) || (SomeCarries(threads) && !Carries(threads[i]))
  {
    var threads' := threads[i := pc];
    if Carries(pc) {
      assert Carries(threads'[i]);
    } else if SomeCarries(threads) && !Carries(threads[i]) {
      var t :| 0 <= t < |threads| && Carries(threads[t]);
      assert Carries(threads'[t]);
    }
  }

  lemma StepKeepsOneAtATime(r: Ring, a: Action)
    requires Shaped(r) && OneAtATime(r) && Enabled(r, a) && InTurn(r, a)
    ensures Shaped(Step(r, a)) && OneAtATime(Step(r, a))
    ensures UnderWay(Step(r, a)) <==> a.Claim? || (UnderWay(r) && !a.Publish? && !GivesUp(r, a))
  {
    StepKeepsShaped(r, a);
    CarriesStep(r, a);
    PrecedingNext(r.cursor, |r.slots|);
    var slot := Preceding(r.cursor, |r.slots|);
    var slot' := if a.Claim? then r.cursor else slot;
    assert Carries(r.threads[a.t]) ==> UnderWay(r);
    OneCarriesStep(r.threads, slot, a.t, NextPC(r, a), slot');
  }

  /** The oldest slot moves only when a put ends. */
  lemma OldestStep(r: Ring, a: Action)
    requires Shaped(r) && OneAtATime(r) && Enabled(r, a) && InTurn(r, a) && Shaped(Step(r, a))
    ensures Oldest(Step(r, a)) == if a.Publish? || GivesUp(r, a) then r.cursor else Oldest(r)
    ensures ByWriter(a) && !a.Claim? ==> Oldest(r) == Touched(r, a) && (Touched(r, a) + 1) % |r.slots| == r.cursor
  {
    StepKeepsOneAtATime(r, a);
    PrecedingNext(r.cursor, |r.slots|);
    if ByWriter(a) && !a.Claim? {
      assert Carries(r.threads[a.t]);
    }
  }

  /** What an action makes of the slot it is on, as far as messages wait there. */
  lemma DirtyStep(r: Ring, a: Action)
    requires Shaped(r) && Owned(r) && Copied(r) && Enabled(r, a) && !OnlyThread(a)
    ensures DirtyText(NextSlot(r, a))
            == if a.Publish? then Publishes(r, a)
               else if Takes(r, a) then [] else DirtyText(r.slots[Touched(r, a)])
    ensures a.Publish? ==> DirtyText(r.slots[Touched(r, a)]) == []
  {
    if a.Publish? {
      var pc := r.threads[a.t];
      assert pc.msg[..pc.done] == Cut(pc.msg);
    }
  }

  /** Only taking a message adds to those taken. */
  lemma TakenStep(r: Ring, a: Action)
    requires Shaped(r) && Owned(r) && Enabled(r, a) && Shaped(Step(r, a))
    ensures Taken(Step(r, a)) == Taken(r) + (if Takes(r, a) then DirtyText(r.slots[At(r, r.threads[a.t])]) else [])
  {
    if ByWriter(a) {
      WriterLeavesFlusher(r, a);
    } else if a.Release? {
      assert r.lock == Some(a.t) && Outputting(r) == Some(r.threads[a.t]) && Outputting(Step(r, a)) == None;
    } else {
      assert a.Visit? || a.OutputByte? || a.FinishFlush? ==> r.lock == Some(a.t);
    }
  }

  /** Publishing adds a message behind those that wait, and only taking one changes them otherwise. */
  lemma PendingStep(r: Ring, a: Action)
    requires Shaped(r) && Owned(r) && Copied(r) && OneAtATime(r)
    requires Enabled(r, a) && InTurn(r, a) && Waits(r, a) && !Takes(r, a)
    ensures Shaped(Step(r, a)) && Pending(Step(r, a)) == Pending(r) + Publishes(r, a)
  {
    StepKeepsShaped(r, a);
    if a.Publish? || GivesUp(r, a) {
      PendingMove(r, a);
    } else {
      PendingSame(r, a);
    }
  }

  lemma PendingMove(r: Ring, a: Action)
    requires Shaped(r) && Owned(r) && Copied(r) && OneAtATime(r)
    requires Enabled(r, a) && Waits(r, a) && (a.Publish? || GivesUp(r, a))
    ensures Shaped(Step(r, a)) && Pending(Step(r, a)) == Pending(r) + Publishes(r, a)
  {
    StepKeepsShaped(r, a);
    OldestStep(r, a);
    DirtyStep(r, a);
    var (c, x) := (Touched(r, a), NextSlot(r, a));
    assert DirtyText(r.slots[c]) == [] && DirtyText(x) == Publishes(r, a);
    DirtyTextsMove(r.slots, c, x);
    assert [] + Pending(Step(r, a)) == Pending(Step(r, a));
  }

  lemma PendingSame(r: Ring, a: Action)
    requires Shaped(r) && Owned(r) && Copied(r) && OneAtATime(r)
    requires Enabled(r, a) && InTurn(r, a) && !Takes(r, a) && !a.Publish? && !GivesUp(r, a)
    ensures Shaped(Step(r, a)) && Pending(Step(r, a)) == Pending(r) + Publishes(r, a)
  {
    StepKeepsShaped(r, a);
    OldestStep(r, a);
    if !OnlyThread(a) {
      DirtyStep(r, a);
      DirtyElsewhere(r.slots, Touched(r, a), NextSlot(r, a), Oldest(r));
    }
  }

  /** Taking a message takes it out of those that wait, from behind those in slots before it. */
  lemma PendingTake(r: Ring, a: Action) returns (after: seq<Bytes>)
    requires Shaped(r) && Owned(r) && Copied(r) && OneAtATime(r) && Enabled(r, a) && Takes(r, a)
    ensures var i := At(r, r.threads[a.t]);
            && Shaped(Step(r, a)) && |DirtyText(r.slots[i])| == 1
            && Pending(r) == Between(r.slots, Oldest(r), i) + (DirtyText(r.slots[i]) + after)
            && Pending(Step(r, a)) == Between(r.slots, Oldest(r), i) + after
  {
    StepKeepsShaped(r, a);
    OldestStep(r, a);
    DirtyStep(r, a);
    after := TakeOut(r.slots, Oldest(r), At(r, r.threads[a.t]), NextSlot(r, a));
  }

  /** Taken and waiting messages stay in the order they were published if the oldest is taken. */
  lemma StepKeepsOrder(r: Ring, a: Action, published: seq<Bytes>)
    requires Shaped(r) && Owned(r) && Copied(r) && OneAtATime(r) && InOrder(r, published)
    requires Enabled(r, a) && InTurn(r, a) && Waits(r, a) && TakesOldest(r, a)
    ensures InOrder(Step(r, a), published + Publishes(r, a))
  {
    StepKeepsShaped(r, a);
    TakenStep(r, a);
    if Takes(r, a) {
      var after := PendingTake(r, a);
      var text := DirtyText(r.slots[At(r, r.threads[a.t])]);
      assert Pending(r) == text + after && Pending(Step(r, a)) == after;
      Assoc(Taken(r), text, after);
      assert published + [] == published;
    } else {
      PendingStep(r, a);
      Assoc(Taken(r), Pending(r), Publishes(r, a));
      assert Taken(r) + [] == Taken(r);
    }
  }

  /** If another is taken, those taken are no longer the first of the published, when messages differ. */
  lemma StepBreaksOrder(r: Ring, a: Action, published: seq<Bytes>)
    requires Shaped(r) && Owned(r) && Copied(r) && OneAtATime(r) && InOrder(r, published) && Distinct(published)
    requires Enabled(r, a) && !TakesOldest(r, a)
    ensures Shaped(Step(r, a)) && |Taken(r)| < |Taken(Step(r, a))| && |Taken(r)| < |published|
    ensures Taken(Step(r, a))[|Taken(r)|] != published[|Taken(r)|]
  {
    var after := PendingTake(r, a);
    TakenStep(r, a);
    var i := At(r, r.threads[a.t]);
    var (front, text) := (Between(r.slots, Oldest(r), i), DirtyText(r.slots[i]));
    assert published == Taken(r) + (front + (text + after));
    assert published[|Taken(r)|] == front[0] && published[|Taken(r)| + |front|] == text[0];
  }

  // ---- Runs ----

  /** Every put of the run waits its turn. */
  ghost predicate OneByOne(r: Ring, run: seq<Action>)
    requires Shaped(r) && AllEnabled(r, run)
    decreases |run|
  {
    run != [] ==> InTurn(r, run[0]) && (StepKeepsShaped(r, run[0]); OneByOne(Step(r, run[0]), run[1..]))
  }

  /** And until its slot is not dirty. */
  predicate AllWait(r: Ring, run: seq<Action>)
    requires Shaped(r) && AllEnabled(r, run)
    decreases |run|
  {
    run != [] ==> Waits(r, run[0]) && (StepKeepsShaped(r, run[0]); AllWait(Step(r, run[0]), run[1..]))
  }

  ghost predicate AllTakeOldest(r: Ring, run: seq<Action>)
    requires Shaped(r) && AllEnabled(r, run)
    decreases |run|
  {
    run != [] ==> TakesOldest(r, run[0]) && (StepKeepsShaped(r, run[0]); AllTakeOldest(Step(r, run[0]), run[1..]))
  }

  /** The messages a run publishes, in the order it does. */
  function PublishedIn(r: Ring, run: seq<Action>): seq<Bytes>
    requires Shaped(r) && AllEnabled(r, run)
    decreases |run|
  {
    if run == [] then []
    else StepKeepsShaped(r, run[0]); Publishes(r, run[0]) + PublishedIn(Step(r, run[0]), run[1..])
  }

  lemma {:induction false} TakenGrows(r: Ring, before: Bytes, run: seq<Action>)
    requires Inv(r, before) && AllEnabled(r, run)
    ensures Shaped(Run(r, run)) && Taken(r) <= Taken(Run(r, run))
    decreases |run|
  {
    if run != [] {
      StepKeepsInv(r, before, run[0]);
      TakenStep(r, run[0]);
      TakenGrows(Step(r, run[0]), before, run[1..]);
    }
  }

  lemma {:induction false} RunKeepsOrder(r: Ring, before: Bytes, run: seq<Action>, published: seq<Bytes>)
    requires Inv(r, before) && OneAtATime(r) && InOrder(r, published)
    requires AllEnabled(r, run) && OneByOne(r, run) && AllWait(r, run) && AllTakeOldest(r, run)
    ensures InOrder(Run(r, run), published + PublishedIn(r, run))
    decreases |run|
  {
    if run == [] {
      assert published + [] == published;
    } else {
      var r1 := Step(r, run[0]);
      StepKeepsInv(r, before, run[0]);
      StepKeepsOneAtATime(r, run[0]);
      StepKeepsOrder(r, run[0], published);
      RunKeepsOrder(r1, before, run[1..], published + Publishes(r, run[0]));
      Assoc(published, Publishes(r, run[0]), PublishedIn(r1, run[1..]));
    }
  }

  lemma {:induction false} RunBreaksOrder(r: Ring, before: Bytes, run: seq<Action>, published: seq<Bytes>)
    requires Inv(r, before) && OneAtATime(r) && InOrder(r, published)
    requires AllEnabled(r, run) && OneByOne(r, run) && AllWait(r, run) && !AllTakeOldest(r, run)
    requires Distinct(published + PublishedIn(r, run))
    ensures Shaped(Run(r, run)) && !(Taken(Run(r, run)) <= published + PublishedIn(r, run))
    decreases |run|
  {
    if TakesOldest(r, run[0]) {
      StepKeepsInv(r, before, run[0]);
      StepKeepsOneAtATime(r, run[0]);
      StepKeepsOrder(r, run[0], published);
      Assoc(published, Publishes(r, run[0]), PublishedIn(Step(r, run[0]), run[1..]));
      RunBreaksOrder(Step(r, run[0]), before, run[1..], published + Publishes(r, run[0]));
    } else {
      DistinctFront(published, PublishedIn(r, run));
      BreaksForGood(r, before, run, published, PublishedIn(r, run));
    }
  }

  lemma BreaksForGood(r: Ring, before: Bytes, run: seq<Action>, published: seq<Bytes>, more: seq<Bytes>)
    requires Inv(r, before) && OneAtATime(r) && InOrder(r, published) && Distinct(published)
    requires run != [] && AllEnabled(r, run) && !TakesOldest(r, run[0])
    ensures Shaped(Run(r, run)) && !(Taken(Run(r, run)) <= published + more)
  {
    var r1 := Step(r, run[0]);
    StepKeepsInv(r, before, run[0]);
    StepBreaksOrder(r, run[0], published);
    TakenGrows(r1, before, run[1..]);
    StaysBroken(Taken(r1), Taken(Run(r1, run[1..])), published, more, |Taken(r)|);
  }

  lemma StaysBroken(xs: seq<Bytes>, xs': seq<Bytes>, ys: seq<Bytes>, more: seq<Bytes>, k: nat)
    requires xs <= xs' && k < |xs| && k < |ys| && xs[k] != ys[k]
    ensures !(xs' <= ys + more)
  {
    assert xs'[k] == xs[k] && (ys + more)[k] == ys[k];
  }

  lemma DistinctFront(xs: seq<Bytes>, ys: seq<Bytes>)
    requires Distinct(xs + ys)
    ensures Distinct(xs)
  {
    assert (xs + ys)[..|xs|] == xs;
  }

  // ---- From a logger just started ----

  lemma StartedInOrder(slots: nat, threads: nat, before: Bytes, maxSize: nat)
    requires 0 < slots
    ensures var r := Started(slots, threads, before, maxSize);
            Inv(r, before) && OneAtATime(r) && InOrder(r, []) && InHand(r) == [] && Written(r)
  {
    StartedInv(slots, threads, before, maxSize);
    QuietInOrder(Started(slots, threads, before, maxSize));
  }

  lemma QuietInOrder(r: Ring)
    requires Shaped(r) && r.lock == None && r.flushed == []
    requires forall i | 0 <= i < |r.slots| :: r.slots[i].status == CLEAN
    requires forall t | 0 <= t < |r.threads| :: r.threads[t].Idle?
    ensures OneAtATime(r) && InOrder(r, []) && InHand(r) == [] && Written(r)
  {
    IdleCarriesNone(r);
    QuietRing(r);
  }

  lemma IdleCarriesNone(r: Ring)
    requires Shaped(r) && forall t | 0 <= t < |r.threads| :: r.threads[t].Idle?
    ensures OneAtATime(r) && InHand(r) == []
  {
  }

  lemma QuietRing(r: Ring)
    requires Shaped(r) && r.lock == None && r.flushed == []
    requires forall i | 0 <= i < |r.slots| :: r.slots[i].status == CLEAN
    ensures InOrder(r, []) && Written(r)
  {
    DirtyTextsNone(Round(r.slots, Oldest(r)));
  }

  /** With one put at a time and messages that differ, what goes to the files is the first of what was
      published, in order, if and only if no flusher took a message past an older one. */
  lemma OrderIsKeptIff(slots: nat, threads: nat, before: Bytes, maxSize: nat, run: seq<Action>)
    requires 0 < slots
    requires var r := Started(slots, threads, before, maxSize);
             AllEnabled(r, run) && OneByOne(r, run) && AllWait(r, run) && Distinct(PublishedIn(r, run))
    ensures var r := Started(slots, threads, before, maxSize);
            Shaped(Run(r, run)) && (Taken(Run(r, run)) <= PublishedIn(r, run) <==> AllTakeOldest(r, run))
  {
    var r := Started(slots, threads, before, maxSize);
    StartedInOrder(slots, threads, before, maxSize);
    assert [] + PublishedIn(r, run) == PublishedIn(r, run);
    if AllTakeOldest(r, run) {
      RunKeepsOrder(r, before, run, []);
      PrefixOfSum(Taken(Run(r, run)), Pending(Run(r, run)));
    } else {
      RunBreaksOrder(r, before, run, []);
    }
  }

  lemma PrefixOfSum(xs: seq<Bytes>, ys: seq<Bytes>)
    ensures xs <= xs + ys
  {
  }

  /** So it is for the files themselves between flushes: they are whole messages one after another,
      and these are the first of those published exactly then. */
  lemma FilesInOrderIff(slots: nat, threads: nat, before: Bytes, maxSize: nat, run: seq<Action>)
    requires 0 < slots
    requires var r := Started(slots, threads, before, maxSize);
             && AllEnabled(r, run) && OneByOne(r, run) && AllWait(r, run) && Distinct(PublishedIn(r, run))
             && Run(r, run).lock == None
    ensures var r := Started(slots, threads, before, maxSize);
            var r' := Run(r, run);
            && Cat(r'.closed) + r'.open == before + Cat(r'.flushed)
            && (r'.flushed <= PublishedIn(r, run) <==> AllTakeOldest(r, run))
  {
    var r := Started(slots, threads, before, maxSize);
    OrderIsKeptIff(slots, threads, before, maxSize, run);
    StartedInv(slots, threads, before, maxSize);
    RunKeepsInv(r, before, run);
    AtRest(Run(r, run), before);
    assert Taken(Run(r, run)) == Run(r, run).flushed;
  }

  /** When no flusher does so, messages different or not, those taken and then those that wait are all
      published in order, and if no put gave up all put in order, but for one under way. */
  lemma OrderlyRunIsFifo(slots: nat, threads: nat, before: Bytes, maxSize: nat, run: seq<Action>)
    requires 0 < slots
    requires var r := Started(slots, threads, before, maxSize);
             AllEnabled(r, run) && OneByOne(r, run) && AllWait(r, run) && AllTakeOldest(r, run)
    ensures var r := Started(slots, threads, before, maxSize);
            var r' := Run(r, run);
            && Shaped(r')
            && Taken(r') + Pending(r') == PublishedIn(r, run)
            && (MetClean(r, run) ==> PutsIn(run) == Taken(r') + Pending(r') + InHand(r'))
  {
    var r := Started(slots, threads, before, maxSize);
    StartedInOrder(slots, threads, before, maxSize);
    FifoFrom(r, before, run);
  }

  lemma FifoFrom(r: Ring, before: Bytes, run: seq<Action>)
    requires Inv(r, before) && OneAtATime(r) && InOrder(r, []) && InHand(r) == []
    requires AllEnabled(r, run) && OneByOne(r, run) && AllWait(r, run) && AllTakeOldest(r, run)
    ensures var r' := Run(r, run);
            && Shaped(r')
            && Taken(r') + Pending(r') == PublishedIn(r, run)
            && (MetClean(r, run) ==> PutsIn(run) == Taken(r') + Pending(r') + InHand(r'))
  {
    RunKeepsOrder(r, before, run, []);
    assert [] + PublishedIn(r, run) == PublishedIn(r, run);
    if MetClean(r, run) {
      PutsAreTheOrder(r, run);
      assert [] + PutsIn(run) == PutsIn(run);
    }
  }

  // ---- Messages put and messages published ----

  /** The messages put in a run, in order. */
  function PutsIn(run: seq<Action>): seq<Bytes> {
    if run == [] then [] else (if run[0].Claim? then [Cut(run[0].msg)] else []) + PutsIn(run[1..])
  }

  /** The message of the put under way, if any. */
  ghost function InHand(r: Ring): seq<Bytes> {
    if UnderWay(r) then
      var t :| 0 <= t < |r.threads| && Carries(r.threads[t]);
      [Cut(Carried(r.threads[t]).1)]
    else []
  }

  lemma InHandIs(r: Ring, t: nat)
    requires Shaped(r) && OneAtATime(r) && t < |r.threads| && Carries(r.threads[t])
    ensures InHand(r) == [Cut(Carried(r.threads[t]).1)]
  {
  }

  /** A put takes its message in hand, and publishing or giving up lets go of it. */
  lemma InHandStep(r: Ring, a: Action)
    requires Shaped(r) && OneAtATime(r) && Enabled(r, a) && InTurn(r, a) && !GivesUp(r, a)
    ensures InHand(r) + (if a.Claim? then [Cut(a.msg)] else []) == Publishes(r, a) + InHand(Step(r, a))
  {
    StepKeepsOneAtATime(r, a);
    CarriesStep(r, a);
    var r' := Step(r, a);
    if a.Claim? {
      InHandIs(r', a.t);
    } else if a.Publish? {
      InHandIs(r, a.t);
    } else if UnderWay(r) {
      var t :| 0 <= t < |r.threads| && Carries(r.threads[t]);
      InHandIs(r, t);
      InHandIs(r', t);
    }
  }

  /** One put at a time: when none gives up, messages are published in the order they were put. */
  lemma {:induction false} PutsAreTheOrder(r: Ring, run: seq<Action>)
    requires Shaped(r) && OneAtATime(r) && AllEnabled(r, run) && OneByOne(r, run) && MetClean(r, run)
    ensures InHand(r) + PutsIn(run) == PublishedIn(r, run) + InHand(Run(r, run))
    decreases |run|
  {
    if run == [] {
      assert InHand(r) + [] == InHand(r) == [] + InHand(r);
    } else {
      var a := run[0];
      var r1 := Step(r, a);
      StepKeepsOneAtATime(r, a);
      InHandStep(r, a);
      PutsAreTheOrder(r1, run[1..]);
      Chain(InHand(r), if a.Claim? then [Cut(a.msg)] else [], PutsIn(run[1..]), Publishes(r, a), InHand(r1),
            PublishedIn(r1, run[1..]), InHand(Run(r1, run[1..])));
    }
  }

  lemma Chain<T>(a: seq<T>, b: seq<T>, c: seq<T>, d: seq<T>, e: seq<T>, f: seq<T>, g: seq<T>)
    requires a + b == d + e && e + c == f + g
    ensures a + (b + c) == (d + f) + g
  {
    Assoc(a, b, c);
    Assoc(d, e, c);
    Assoc(d, f, g);
  }

  // ---- What is lost ----

  /** A published message not yet written out whole. */
  function HeldText(slot: Slot): seq<Bytes> {
    if (slot.status == DIRTY || slot.status == FLUSHING) && slot.len <= |slot.ctx| then [slot.ctx[..slot.len]] else []
  }

  /** A slot being written has its writer. */
  ghost predicate Written(r: Ring)
    requires Shaped(r)
  {
    forall i | 0 <= i < |r.slots| && r.slots[i].status == WRITING :: WrittenBy(r.threads, i)
  }

  ghost predicate WrittenBy(threads: seq<PC>, i: nat) {
    exists t :: 0 <= t < |threads| && Writes(threads[t]) && threads[t].slot == i
  }

  lemma StepKeepsWritten(r: Ring, a: Action)
    requires Shaped(r) && Owned(r) && Written(r) && Enabled(r, a)
    ensures Shaped(Step(r, a)) && Written(Step(r, a))
  {
    StepKeepsShaped(r, a);
    var r' := Step(r, a);
    forall i | 0 <= i < |r'.slots| && r'.slots[i].status == WRITING ensures WrittenBy(r'.threads, i) {
      WriterStays(r, a, i);
    }
  }

  lemma WriterStays(r: Ring, a: Action, i: nat)
    requires Shaped(r) && Owned(r) && Written(r) && Enabled(r, a)
    requires i < |r.slots| && Step(r, a).slots[i].status == WRITING
    ensures WrittenBy(Step(r, a).threads, i)
  {
    var r' := Step(r, a);
    if a.BeginWrite? && !GivesUp(r, a) && i == Touched(r, a) {
      assert Writes(r'.threads[a.t]);
    } else {
      var t :| 0 <= t < |r.threads| && Writes(r.threads[t]) && r.threads[t].slot == i;
      assert Writes(r'.threads[t]) && r'.threads[t].slot == i;
    }
  }

  /** With one put at a time, only a message still held in its slot can make a put give up. */
  lemma GivesUpIff(r: Ring, a: Action)
    requires Shaped(r) && OneAtATime(r) && Written(r) && Enabled(r, a) && a.BeginWrite?
    ensures GivesUp(r, a) <==> HeldText(r.slots[r.threads[a.t].slot]) != []
  {
    assert Carries(r.threads[a.t]);
  }

  /** Every put of the run that came to its compare-and-swap found that the slot's earlier message
      had been written out whole. */
  predicate MeetsNone(r: Ring, run: seq<Action>)
    requires Shaped(r) && AllEnabled(r, run)
    decreases |run|
  {
    run != [] ==>
      && (run[0].BeginWrite? ==> HeldText(r.slots[r.threads[run[0].t].slot]) == [])
      && (StepKeepsShaped(r, run[0]); MeetsNone(Step(r, run[0]), run[1..]))
  }

  lemma {:induction false} MetCleanIff(r: Ring, before: Bytes, run: seq<Action>)
    requires Inv(r, before) && OneAtATime(r) && Written(r) && AllEnabled(r, run) && OneByOne(r, run)
    ensures MetClean(r, run) <==> MeetsNone(r, run)
    decreases |run|
  {
    if run != [] {
      StepKeepsInv(r, before, run[0]);
      StepKeepsOneAtATime(r, run[0]);
      StepKeepsWritten(r, run[0]);
      if run[0].BeginWrite? {
        GivesUpIff(r, run[0]);
      }
      MetCleanIff(Step(r, run[0]), before, run[1..]);
    }
  }

  /** With one put at a time a run loses a message if and only if a put comes to a slot whose earlier
      message has not been written out whole. */
  lemma OneByOneLosesIff(slots: nat, threads: nat, before: Bytes, maxSize: nat, run: seq<Action>)
    requires 0 < slots
    requires var r := Started(slots, threads, before, maxSize); AllEnabled(r, run) && OneByOne(r, run)
    ensures var r := Started(slots, threads, before, maxSize);
            Run(r, run).dropped == multiset{} <==> MeetsNone(r, run)
  {
    var r := Started(slots, threads, before, maxSize);
    StartedInOrder(slots, threads, before, maxSize);
    MetCleanIff(r, before, run);
    DroppedGrows(r, run);
  }
}
