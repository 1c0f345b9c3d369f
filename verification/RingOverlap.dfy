/** Runs of calls that do overlap, where messages are lost or change places. */
module RingOverlap {
  import opened Wire
  import opened RingThreads
  import opened RingLogger
  import opened RingOrder
  import opened RingCalls

  // ---- Two puts on one slot ----

  lemma GiveUpStep(r: Ring, t: nat)
    requires Shaped(r) && t < |r.threads| && r.threads[t].Claimed?
    requires r.slots[r.threads[t].slot].status != CLEAN
    ensures Enabled(r, BeginWrite(t))
    ensures Step(r, BeginWrite(t))
            == r.(threads := r.threads[t := Idle], dropped := r.dropped + multiset{Cut(r.threads[t].msg)})
  {
    var c := r.threads[t].slot;
    assert r.slots[c := r.slots[c]] == r.slots;
  }

  /** Two puts that claimed the same slot of a one-slot ring: the second compare-and-swap fails and
      its message is given up. */
  lemma MessageCanBeLost() returns (run: seq<Action>)
    ensures var r := Started(1, 2, [], 0);
            && AllEnabled(r, run) && Run(r, run).puts == multiset{[1], [2]}
            && Run(r, run).dropped == multiset{[2]} && Run(r, run).accepted == multiset{}
  {
    var r := Started(1, 2, [], 0);
    ClaimStep(r, 0, [1]);
    StepKeepsShaped(r, Claim(0, [1]));
    var r1 := ClaimedRing(r, 0, [1]);
    ClaimStep(r1, 1, [2]);
    StepKeepsShaped(r1, Claim(1, [2]));
    var r2 := ClaimedRing(r1, 1, [2]);
    SecondGivesUp(r2);
    var own := [BeginWrite(0), BeginWrite(1)];
    LeadsFirst(r1, Claim(1, [2]), own, Run(r2, own));
    LeadsFirst(r, Claim(0, [1]), [Claim(1, [2])] + own, Run(r2, own));
    run := [Claim(0, [1])] + ([Claim(1, [2])] + own);
  }

  lemma SecondGivesUp(r: Ring)
    requires Shaped(r) && |r.slots| == 1 && |r.threads| == 2 && r.slots[0].status == CLEAN
    requires r.threads[0].Claimed? && r.threads[1].Claimed?
    ensures var run := [BeginWrite(0), BeginWrite(1)];
            && AllEnabled(r, run) && Shaped(Run(r, run))
            && Run(r, run).dropped == r.dropped + multiset{Cut(r.threads[1].msg)}
            && Run(r, run).accepted == r.accepted && Run(r, run).puts == r.puts
  {
    BeginStep(r, 0);
    StepKeepsShaped(r, BeginWrite(0));
    var r1 := Step(r, BeginWrite(0));
    GiveUpStep(r1, 1);
    StepKeepsShaped(r1, BeginWrite(1));
    assert [BeginWrite(1)][1..] == [];
    assert [BeginWrite(0), BeginWrite(1)][1..] == [BeginWrite(1)];
    assert Run(r1, [BeginWrite(1)]) == Run(Step(r1, BeginWrite(1)), []);
  }

  // ---- One put at a time ----

  /** Some run with one put at a time leads from `r` to `r'` and publishes these messages in this order. */
  ghost predicate Shows(r: Ring, r': Ring, published: seq<Bytes>)
    requires Shaped(r)
  {
    exists run :: Showing(r, run, r', published)
  }

  ghost predicate Showing(r: Ring, run: seq<Action>, r': Ring, published: seq<Bytes>)
    requires Shaped(r)
  {
    Leads(r, run, r') && OneByOne(r, run) && AllWait(r, run) && PublishedIn(r, run) == published
  }

  lemma ShowsSelf(r: Ring)
    requires Shaped(r)
    ensures Shows(r, r, [])
  {
    assert Showing(r, [], r, []);
  }

  lemma ShowsFirst(r: Ring, a: Action, r': Ring, published: seq<Bytes>)
    requires Shaped(r) && Enabled(r, a) && InTurn(r, a) && Waits(r, a)
    requires Shaped(Step(r, a)) && Shows(Step(r, a), r', published)
    ensures Shows(r, r', Publishes(r, a) + published)
  {
    var rest :| Showing(Step(r, a), rest, r', published);
    LeadsFirst(r, a, rest, r');
    assert ([a] + rest)[1..] == rest;
    assert Showing(r, [a] + rest, r', Publishes(r, a) + published);
  }

  lemma {:induction false} ShowsFrom(r: Ring, run: seq<Action>, r1: Ring, p1: seq<Bytes>, r2: Ring, p2: seq<Bytes>)
    requires Shaped(r) && Showing(r, run, r1, p1) && Shows(r1, r2, p2)
    ensures Shows(r, r2, p1 + p2)
    decreases |run|
  {
    if run == [] {
      assert p1 + p2 == p2;
    } else {
      var later := ShowingRest(r, run, r1, p1);
      ShowsFrom(Step(r, run[0]), run[1..], r1, later, r2, p2);
      ShowsFirst(r, run[0], r2, later + p2);
      Assoc(Publishes(r, run[0]), later, p2);
    }
  }

  lemma ShowingRest(r: Ring, run: seq<Action>, r': Ring, published: seq<Bytes>) returns (later: seq<Bytes>)
    requires Shaped(r) && run != [] && Showing(r, run, r', published)
    ensures Enabled(r, run[0]) && InTurn(r, run[0]) && Waits(r, run[0]) && Shaped(Step(r, run[0]))
    ensures Showing(Step(r, run[0]), run[1..], r', later) && published == Publishes(r, run[0]) + later
  {
    LeadsRest(r, run, r');
    later := PublishedIn(Step(r, run[0]), run[1..]);
  }

  lemma ShowsTrans(r: Ring, r1: Ring, p1: seq<Bytes>, r2: Ring, p2: seq<Bytes>)
    requires Shaped(r) && Shows(r, r1, p1) && Shaped(r1) && Shows(r1, r2, p2)
    ensures Shaped(r2) && Shows(r, r2, p1 + p2)
  {
    var run :| Showing(r, run, r1, p1);
    ShowsFrom(r, run, r1, p1, r2, p2);
  }

  /** One more action, which publishes nothing. */
  lemma ShowsOn(r: Ring, r1: Ring, published: seq<Bytes>, a: Action)
    requires Shaped(r) && Shaped(r1) && Shows(r, r1, published)
    requires Enabled(r1, a) && InTurn(r1, a) && Waits(r1, a) && !a.Publish?
    ensures Shaped(Step(r1, a)) && Shows(r, Step(r1, a), published)
  {
    StepKeepsShaped(r1, a);
    ShowsSelf(Step(r1, a));
    ShowsFirst(r1, a, Step(r1, a), []);
    ShowsTrans(r, r1, published, Step(r1, a), []);
    assert published + [] == published;
  }

  /** What a thread does on its own begins no put, and accepts what it publishes. */
  lemma {:induction false} SoloShows(r: Ring, run: seq<Action>, t: nat, r': Ring)
    requires Shaped(r) && Leads(r, run, r') && Solo(r, run, t)
    ensures OneByOne(r, run) && AllWait(r, run) && r'.accepted == r.accepted + multiset(PublishedIn(r, run))
    decreases |run|
  {
    if run != [] {
      LeadsRest(r, run, r');
      StepHistory(r, run[0]);
      SoloShows(Step(r, run[0]), run[1..], t, r');
    }
  }

  lemma SilentlyAlone(r: Ring, t: nat, r': Ring)
    requires Shaped(r) && Alone(r, t, r') && r'.accepted == r.accepted
    ensures Shaped(r') && Shows(r, r', [])
  {
    var run :| Leads(r, run, r') && Solo(r, run, t);
    SoloShows(r, run, t, r');
    NothingAdded(r.accepted, PublishedIn(r, run));
    assert Showing(r, run, r', []);
  }

  lemma PublishingAlone(r: Ring, t: nat, r': Ring, m: Bytes)
    requires Shaped(r) && Alone(r, t, r') && r'.accepted == r.accepted + multiset{m}
    ensures Shaped(r') && Shows(r, r', [m])
  {
    var run :| Leads(r, run, r') && Solo(r, run, t);
    SoloShows(r, run, t, r');
    OneAdded(r.accepted, PublishedIn(r, run), m);
    assert Showing(r, run, r', [m]);
  }

  lemma NothingAdded(before: multiset<Bytes>, xs: seq<Bytes>)
    requires before + multiset(xs) == before
    ensures xs == []
  {
    assert |before + multiset(xs)| == |before| + |xs|;
  }

  lemma OneAdded(before: multiset<Bytes>, xs: seq<Bytes>, m: Bytes)
    requires before + multiset(xs) == before + multiset{m}
    ensures xs == [m]
  {
    assert |before + multiset(xs)| == |before| + |xs| && |before + multiset{m}| == |before| + 1;
    assert (before + multiset(xs))[xs[0]] == before[xs[0]] + multiset(xs)[xs[0]];
    assert xs == [xs[0]];
    assert (before + multiset{m})[xs[0]] > before[xs[0]];
  }

  /** A put that finds its slot clean, whether or not a flush is under way. */
  lemma FillAlone(r: Ring, r1: Ring, published: seq<Bytes>, t: nat, msg: Bytes) returns (r2: Ring)
    requires Shaped(r) && Shaped(r1) && Shows(r, r1, published) && !UnderWay(r1)
    requires t < |r1.threads| && r1.threads[t].Idle? && r1.slots[r1.cursor].status == CLEAN
    ensures Shaped(r2) && Shows(r, r2, published + [Cut(msg)])
    ensures r2 == r1.(cursor := (r1.cursor + 1) % |r1.slots|, puts := r1.puts + multiset{Cut(msg)},
                      slots := r1.slots[r1.cursor := Filled(r1.slots[r1.cursor], msg)],
                      accepted := r1.accepted + multiset{Cut(msg)})
  {
    ClaimStep(r1, t, msg);
    ShowsOn(r, r1, published, Claim(t, msg));
    var claimed := ClaimedRing(r1, t, msg);
    WriteAlone(claimed, t, r1.cursor, msg);
    r2 := WrittenRing(claimed, t, r1.cursor, msg);
    PublishingAlone(claimed, t, r2, Cut(msg));
    ShowsTrans(r, claimed, published, r2, [Cut(msg)]);
    SetAgain(r1.threads, t, Claimed(r1.cursor, msg), Idle);
    assert r1.threads[t := Idle] == r1.threads;
  }

  lemma TextOfFilled(slot: Slot, msg: Bytes)
    requires RestingSlot(slot)
    ensures Filled(slot, msg).status == DIRTY && RestingSlot(Filled(slot, msg)) && Text(Filled(slot, msg)) == Cut(msg)
  {
  }

  /** A thread with no put starts a flush and looks at its first slot. */
  lemma LookAtFirst(r: Ring, r1: Ring, published: seq<Bytes>, t: nat, start: nat) returns (r2: Ring)
    requires Shaped(r) && Shaped(r1) && Shows(r, r1, published) && t < |r1.threads| && r1.threads[t].Idle?
    requires r1.lock == None && start < |r1.slots|
    ensures Shaped(r2) && Shows(r, r2, published)
    ensures var slot := r1.slots[start];
            r2 == if slot.status == DIRTY then
                    With(r1, start, slot.(status := FLUSHING), t, Flushing(start, 0, Some(0), None)).(lock := Some(t))
                  else With(r1, start, slot, t, Flushing(start, 1, None, None)).(lock := Some(t))
  {
    StartStep(r1, t, start);
    ShowsOn(r, r1, published, StartFlush(t, start));
    var started := Step(r1, StartFlush(t, start));
    VisitStep(started, t);
    ShowsOn(r, started, published, Visit(t));
    SetAgain(r1.threads, t, started.threads[t], Flushing(start, 0, Some(0), None));
    SetAgain(r1.threads, t, started.threads[t], Flushing(start, 1, None, None));
    r2 := Step(started, Visit(t));
  }

  /** One producer is enough: its second message comes to its slot while another thread's flush is
      writing out the first, and is given up there. */
  lemma MessageCanBeLostToAFlush() returns (run: seq<Action>, r': Ring)
    ensures var r := Started(1, 2, [], 0);
            Leads(r, run, r') && OneByOne(r, run) && r'.dropped == multiset{}
    ensures Enabled(r', BeginWrite(0)) && r'.slots[r'.threads[0].slot].status == FLUSHING
    ensures Step(r', BeginWrite(0)).dropped == multiset{[2]}
  {
    OneCleanStarted();
    var r := Started(1, 2, [], 0);
    r' := PutMeetsFlush(r);
    var published :| Shows(r, r', published);
    run :| Showing(r, run, r', published);
  }

  /** One clean slot and two idle threads. */
  ghost predicate OneClean(r: Ring) {
    && Shaped(r) && |r.slots| == 1 && |r.threads| == 2 && r.lock == None && !UnderWay(r)
    && r.threads[0].Idle? && r.threads[1].Idle? && r.slots[0].status == CLEAN && RestingSlot(r.slots[0])
    && r.dropped == multiset{}
  }

  lemma OneCleanStarted()
    ensures OneClean(Started(1, 2, [], 0))
  {
  }

  lemma PutMeetsFlush(r: Ring) returns (r': Ring)
    requires OneClean(r)
    ensures exists published :: Shows(r, r', published)
    ensures Shaped(r') && r'.dropped == multiset{} && Enabled(r', BeginWrite(0))
    ensures r'.slots[r'.threads[0].slot].status == FLUSHING && Step(r', BeginWrite(0)).dropped == multiset{[2]}
  {
    ShowsSelf(r);
    var r1 := FillAlone(r, r, [], 0, [1]);
    TextOfFilled(r.slots[0], [1]);
    assert r1.slots[0].status == DIRTY && r1.threads == r.threads;
    r' := SecondMeetsFlush(r, r1, [] + [Cut([1])]);
  }

  lemma SecondMeetsFlush(r: Ring, r1: Ring, published: seq<Bytes>) returns (r': Ring)
    requires Shaped(r) && Shaped(r1) && Shows(r, r1, published) && !UnderWay(r1) && r1.lock == None
    requires |r1.slots| == 1 && |r1.threads| == 2 && r1.threads[0].Idle? && r1.threads[1].Idle?
    requires r1.slots[0].status == DIRTY && r1.dropped == multiset{}
    ensures Shows(r, r', published)
    ensures Shaped(r') && r'.dropped == multiset{} && Enabled(r', BeginWrite(0))
    ensures r'.slots[r'.threads[0].slot].status == FLUSHING && Step(r', BeginWrite(0)).dropped == multiset{[2]}
  {
    var r2 := ClaimSecond(r, r1, published);
    r' := LookAtFirst(r, r2, published, 1, 0);
    assert r'.slots[0].status == FLUSHING && r'.threads[0] == r2.threads[0];
    FlushingGivesUp(r', [2]);
  }

  lemma ClaimSecond(r: Ring, r1: Ring, published: seq<Bytes>) returns (r2: Ring)
    requires Shaped(r) && Shaped(r1) && Shows(r, r1, published) && !UnderWay(r1)
    requires |r1.slots| == 1 && |r1.threads| == 2 && r1.threads[0].Idle?
    ensures Shaped(r2) && Shows(r, r2, published) && r2.slots == r1.slots && r2.lock == r1.lock
    ensures |r2.threads| == 2 && r2.threads[0] == Claimed(0, [2]) && r2.threads[1] == r1.threads[1]
    ensures r2.dropped == r1.dropped
  {
    assert r1.cursor == 0;
    r2 := Claiming(r, r1, published, 0, [2]);
  }

  lemma Claiming(r: Ring, r1: Ring, published: seq<Bytes>, t: nat, msg: Bytes) returns (r2: Ring)
    requires Shaped(r) && Shaped(r1) && Shows(r, r1, published) && !UnderWay(r1)
    requires t < |r1.threads| && r1.threads[t].Idle?
    ensures Shaped(r2) && Shows(r, r2, published) && r2 == ClaimedRing(r1, t, msg)
  {
    ClaimStep(r1, t, msg);
    ShowsOn(r, r1, published, Claim(t, msg));
    r2 := ClaimedRing(r1, t, msg);
  }

  lemma FlushingGivesUp(r: Ring, msg: Bytes)
    requires Shaped(r) && |r.threads| == 2 && r.threads[0] == Claimed(0, msg) && r.dropped == multiset{}
    requires r.slots[0].status == FLUSHING
    ensures Enabled(r, BeginWrite(0)) && Step(r, BeginWrite(0)).dropped == multiset{Cut(msg)}
  {
    GiveUpStep(r, 0);
  }

  // ---- Two slots, two threads ----

  /** Two clean slots and no put under way. */
  ghost predicate TwoClean(r: Ring) {
    && Shaped(r) && |r.slots| == 2 && r.cursor == 0 && |r.threads| == 2 && r.maxSize == 0 && !UnderWay(r)
    && (forall i | 0 <= i < 2 :: RestingSlot(r.slots[i]) && r.slots[i].status == CLEAN)
    && r.flushed == []
  }

  /** Messages [1] and [2] in the two slots. */
  predicate DirtyPair(slots: seq<Slot>) {
    && |slots| == 2 && (forall i | 0 <= i < 2 :: RestingSlot(slots[i]) && slots[i].status == DIRTY)
    && Text(slots[0]) == [1] && Text(slots[1]) == [2]
  }

  /** Neither of them written out. */
  predicate TwoDirty(r: Ring) {
    Shaped(r) && DirtyPair(r.slots) && |r.threads| == 2 && r.maxSize == 0 && r.flushed == []
  }

  lemma FillNext(r: Ring, r1: Ring, published: seq<Bytes>, t: nat, msg: Bytes) returns (r2: Ring)
    requires Shaped(r) && Shaped(r1) && Shows(r, r1, published) && !UnderWay(r1)
    requires t < |r1.threads| && r1.threads[t].Idle? && |r1.slots| == 2 && r1.slots[r1.cursor].status == CLEAN
    ensures Shaped(r2) && Shows(r, r2, published + [Cut(msg)]) && !UnderWay(r2) && r2.cursor == 1 - r1.cursor
    ensures r2.threads == r1.threads && r2.lock == r1.lock && r2.maxSize == r1.maxSize && r2.flushed == r1.flushed
    ensures r2.slots == r1.slots[r1.cursor := Filled(r1.slots[r1.cursor], msg)]
  {
    assert (r1.cursor + 1) % 2 == 1 - r1.cursor;
    r2 := FillAlone(r, r1, published, t, msg);
  }

  /** Messages [1] and [2] are put into the two slots, in this order. */
  lemma FillBoth(r: Ring, r1: Ring, t: nat) returns (r3: Ring)
    requires Shaped(r) && Shows(r, r1, []) && TwoClean(r1) && t < 2 && r1.threads[t].Idle?
    ensures TwoDirty(r3) && r3.cursor == 0 && Shows(r, r3, [[1], [2]]) && !UnderWay(r3)
    ensures r3.threads == r1.threads && r3.lock == r1.lock
  {
    TextOfFilled(r1.slots[0], [1]);
    TextOfFilled(r1.slots[1], [2]);
    var r2 := FillNext(r, r1, [], t, [1]);
    assert r2.slots[0] == Filled(r1.slots[0], [1]) && r2.slots[1] == r1.slots[1];
    r3 := FillNext(r, r2, [] + [Cut([1])], t, [2]);
    assert r3.slots[0] == r2.slots[0] && r3.slots[1] == Filled(r1.slots[1], [2]);
    TwoListed();
  }

  lemma TwoListed()
    ensures [] + [Cut([1])] + [Cut([2])] == [[1], [2]]
  {
  }

  lemma StartedTwoClean()
    ensures var r := Started(2, 2, [], 0);
            TwoClean(r) && r.lock == None && r.threads[0].Idle? && r.threads[1].Idle?
  {
  }

  /** A flusher of the two clean slots has passed the first. */
  lemma FlusherAhead(r: Ring) returns (r1: Ring)
    requires TwoClean(r) && r.lock == None && r.threads[0].Idle? && r.threads[1].Idle?
    ensures TwoClean(r1) && Shows(r, r1, [])
    ensures r1.threads[0] == Flushing(0, 1, None, None) && r1.threads[1].Idle? && r1.lock == Some(0)
  {
    ShowsSelf(r);
    r1 := LookAtFirst(r, r, [], 0, 0);
  }

  /** One producer, one flusher, two slots: the flusher is past slot 0 when the producer publishes [1]
      there and then [2] in slot 1, so [2] goes to the file with this flush and [1] with the next. */
  lemma MessagesCanBeReordered() returns (run: seq<Action>)
    ensures var r := Started(2, 2, [], 0);
            && AllEnabled(r, run) && OneByOne(r, run) && AllWait(r, run) && PublishedIn(r, run) == [[1], [2]]
            && Run(r, run).lock == None && Run(r, run).flushed == [[2], [1]]
  {
    StartedTwoClean();
    var r := Started(2, 2, [], 0);
    var r' := Reordered(r);
    run :| Showing(r, run, r', [[1], [2]]);
  }

  lemma Reordered(r: Ring) returns (r': Ring)
    requires TwoClean(r) && r.lock == None && r.threads[0].Idle? && r.threads[1].Idle?
    ensures Shows(r, r', [[1], [2]]) && r'.lock == None && r'.flushed == [[2], [1]]
  {
    var r1 := FlusherAhead(r);
    var r2 := FillBoth(r, r1, 1);
    var r3 := SecondWrittenOut(r, r2);
    r' := FirstWrittenOut(r, r3);
  }

  /** The flusher writes out slot 1 and is done. */
  lemma SecondWrittenOut(r: Ring, r1: Ring) returns (r2: Ring)
    requires Shaped(r) && TwoDirty(r1) && Shows(r, r1, [[1], [2]])
    requires r1.threads[0] == Flushing(0, 1, None, None) && r1.lock == Some(0) && r1.cursor == 0
    ensures Shaped(r2) && Shows(r, r2, [[1], [2]]) && r2.lock == None
    ensures |r2.threads| == 2 && r2.threads[0].Idle?
    ensures |r2.slots| == 2 && r2.cursor == 0 && r2.maxSize == 0 && r2.flushed == [[2]]
    ensures r2.slots[0] == r1.slots[0] && r2.slots[1] == Cleaned(r1.slots[1])
    ensures forall i | 0 <= i < |r2.slots| :: RestingSlot(r2.slots[i])
  {
    var passed := Passing(r, r1, [[1], [2]], 0, 1);
    assert [] + [[2]] == [[2]];
    FinishStep(passed, 0);
    ShowsOn(r, passed, [[1], [2]], FinishFlush(0));
    r2 := Step(passed, FinishFlush(0));
  }

  lemma Passing(r: Ring, r1: Ring, published: seq<Bytes>, t: nat, i: nat) returns (r2: Ring)
    requires Shaped(r) && Shaped(r1) && Shows(r, r1, published)
    requires t < |r1.threads| && r1.threads[t].Flushing? && r1.threads[t].out == None
    requires r1.threads[t].visited < |r1.slots| && i == At(r1, r1.threads[t]) && RestingSlot(r1.slots[i])
    ensures r2 == Passed(r1, t, r1.threads[t], i) && Shaped(r2) && Shows(r, r2, published)
  {
    PassAlone(r1, t, r1.threads[t], i);
    r2 := Passed(r1, t, r1.threads[t], i);
    SilentlyAlone(r1, t, r2);
    ShowsTrans(r, r1, published, r2, []);
    assert published + [] == published;
  }

  /** The next flush, from the cursor, writes out slot 0. */
  lemma FirstWrittenOut(r: Ring, r1: Ring) returns (r2: Ring)
    requires Shaped(r) && Shaped(r1) && Shows(r, r1, [[1], [2]]) && r1.lock == None
    requires |r1.slots| == 2 && r1.cursor == 0 && |r1.threads| == 2 && r1.threads[0].Idle? && r1.maxSize == 0
    requires (forall i | 0 <= i < |r1.slots| :: RestingSlot(r1.slots[i])) && r1.flushed == [[2]]
    requires r1.slots[0].status == DIRTY && Text(r1.slots[0]) == [1] && r1.slots[1].status == CLEAN
    ensures Shows(r, r2, [[1], [2]]) && r2.lock == None && r2.flushed == [[2], [1]]
  {
    FirstMessage(r1.slots);
    r2 := WholeFlush(r, r1, [[1], [2]], 0, 0);
  }

  lemma FirstMessage(slots: seq<Slot>)
    requires |slots| == 2 && RestingSlot(slots[0]) && RestingSlot(slots[1])
    requires slots[0].status == DIRTY && Text(slots[0]) == [1] && slots[1].status != DIRTY
    ensures [[2]] + Messages(Round(slots, 0)) == [[2], [1]]
  {
    OneMessage(Round(slots, 0));
  }

  /** A flush by a thread with no put. */
  lemma WholeFlush(r: Ring, r1: Ring, published: seq<Bytes>, t: nat, start: nat) returns (r2: Ring)
    requires Shaped(r) && Shaped(r1) && Shows(r, r1, published) && CanFlush(r1, t, start) && r1.threads[t].Idle?
    ensures Shows(r, r2, published) && r2 == FlushedRing(r1, start)
  {
    SweepStart(r1, t, start);
    ShowsOn(r, r1, published, StartFlush(t, start));
    var started := SweptTo(r1, t, start, None, 0);
    FlushAlone(r1, t, start);
    r2 := FlushedRing(r1, start);
    SilentlyAlone(started, t, r2);
    ShowsTrans(r, started, published, r2, []);
    assert published + [] == published;
  }

  lemma OneMessage(slots: seq<Slot>)
    requires |slots| == 2 && RestingSlot(slots[0]) && RestingSlot(slots[1])
    requires slots[0].status == DIRTY && slots[1].status != DIRTY
    ensures Messages(slots) == [Text(slots[0])]
  {
    assert slots[..1] == [slots[0]] && slots[..1][..0] == [];
    assert Messages(slots[..1]) == [] + [Text(slots[0])];
  }

  lemma TwoMessages(slots: seq<Slot>)
    requires |slots| == 2 && RestingSlot(slots[0]) && RestingSlot(slots[1])
    requires slots[0].status == DIRTY && slots[1].status == DIRTY
    ensures Messages(slots) == [Text(slots[0]), Text(slots[1])]
  {
    assert slots[..1] == [slots[0]] && slots[..1][..0] == [];
    assert Messages(slots[..1]) == [] + [Text(slots[0])];
  }

  /** Nothing need be published during the flush: [1] and [2] are published in slots 0 and 1, a put of
      [3] has claimed slot 0 again, and a flush that starts from the cursor behind it takes [2] first. */
  lemma OldestCanBeWrittenLast() returns (run: seq<Action>)
    ensures var r := Started(2, 2, [], 0);
            && AllEnabled(r, run) && OneByOne(r, run) && AllWait(r, run) && PublishedIn(r, run) == [[1], [2]]
            && Run(r, run).lock == None && Run(r, run).flushed == [[2], [1]]
  {
    StartedTwoClean();
    var r := Started(2, 2, [], 0);
    var r' := OldestLast(r);
    run :| Showing(r, run, r', [[1], [2]]);
  }

  lemma OldestLast(r: Ring) returns (r': Ring)
    requires TwoClean(r) && r.lock == None && r.threads[0].Idle? && r.threads[1].Idle?
    ensures Shows(r, r', [[1], [2]]) && r'.lock == None && r'.flushed == [[2], [1]]
  {
    ShowsSelf(r);
    var r1 := FillBoth(r, r, 0);
    var r2 := ClaimFull(r, r1);
    r' := FlushedFromSecond(r, r2);
  }

  lemma ClaimFull(r: Ring, r1: Ring) returns (r2: Ring)
    requires Shaped(r) && TwoDirty(r1) && Shows(r, r1, [[1], [2]]) && !UnderWay(r1) && r1.threads[0].Idle?
    ensures TwoDirty(r2) && Shows(r, r2, [[1], [2]])
    ensures r2.threads[1] == r1.threads[1] && r2.lock == r1.lock
  {
    r2 := Claiming(r, r1, [[1], [2]], 0, [3]);
  }

  lemma FlushedFromSecond(r: Ring, r1: Ring) returns (r2: Ring)
    requires Shaped(r) && TwoDirty(r1) && Shows(r, r1, [[1], [2]])
    requires r1.lock == None && r1.threads[1].Idle?
    ensures Shows(r, r2, [[1], [2]]) && r2.lock == None && r2.flushed == [[2], [1]]
  {
    r2 := WholeFlush(r, r1, [[1], [2]], 1, 1);
    TwoMessages(Round(r1.slots, 1));
    assert [] + [[2], [1]] == [[2], [1]];
  }
}
