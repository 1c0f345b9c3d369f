/** What the files on disk hold: the threads of one logger's ring, the rotations of all loggers and the
    compressor's steps, interleaved. */
module LogFiles {
  import opened Wire
  import Ring = RingThreads
  import Disk = Rotation

  /** The ring of one logger, and the files and compression queue of all. */
  datatype Server = Server(ring: Ring.Ring, disk: Disk.System)

  /** A step of the logger's threads, or of the compressor or another logger. */
  datatype Action = Thread(a: Ring.Action) | Elsewhere(b: Disk.Action)

  predicate Shaped(s: Server, i: nat) {
    Ring.Shaped(s.ring) && Disk.Shaped(s.disk) && i < |s.disk.loggers|
  }

  /** Logger `i` goes on to a new file only when its ring does. */
  predicate Enabled(s: Server, i: nat, act: Action)
    requires Shaped(s, i)
  {
    match act
    case Thread(a) => Ring.Enabled(s.ring, a)
    case Elsewhere(a) => Disk.Enabled(s.disk, a) && a != Disk.Rotate(i)
  }

  /** A flush that closes a file is a rotation. */
  function Step(s: Server, i: nat, act: Action): (s': Server)
    requires Shaped(s, i) && Enabled(s, i, act)
    ensures Shaped(s', i)
  {
    match act
    case Thread(a) =>
      Ring.StepKeepsShaped(s.ring, a);
      Server(Ring.Step(s.ring, a), if Ring.Rotates(s.ring, a) then Disk.Step(s.disk, Disk.Rotate(i)) else s.disk)
    case Elsewhere(a) => Server(s.ring, Disk.Step(s.disk, a))
  }

  predicate AllEnabled(s: Server, i: nat, run: seq<Action>)
    requires Shaped(s, i)
    decreases |run|
  {
    run != [] ==> Enabled(s, i, run[0]) && AllEnabled(Step(s, i, run[0]), i, run[1..])
  }

  function Run(s: Server, i: nat, run: seq<Action>): (s': Server)
    requires Shaped(s, i) && AllEnabled(s, i, run)
    ensures Shaped(s', i)
    decreases |run|
  {
    if run == [] then s else Run(Step(s, i, run[0]), i, run[1..])
  }

  /** The files of this run in revision order, the open one last. */
  function Files(r: Ring.Ring): seq<Bytes> {
    r.closed + [r.open]
  }

  /** Both halves keep their invariants, and the ring has closed as many files as the revision has gone up. */
  ghost predicate Linked(s: Server, i: nat, start: seq<Disk.Files>, before: Bytes) {
    && Shaped(s, i) && Ring.Inv(s.ring, before) && Disk.Inv(s.disk, start)
    && s.disk.loggers[i].cur == start[i].cur + |s.ring.closed|
  }

  lemma StepKeepsLinked(s: Server, i: nat, act: Action, start: seq<Disk.Files>, before: Bytes)
    requires Linked(s, i, start, before) && Enabled(s, i, act)
    ensures Linked(Step(s, i, act), i, start, before)
  {
    if act.Thread? {
      Ring.StepKeepsInv(s.ring, before, act.a);
      if Ring.Rotates(s.ring, act.a) {
        Disk.StepKeepsInv(s.disk, Disk.Rotate(i), start);
      }
    } else {
      Disk.StepKeepsInv(s.disk, act.b, start);
      CurStays(s.disk, i, act.b);
    }
  }

  /** Only its own rotations move a logger's open revision. */
  lemma CurStays(d: Disk.System, i: nat, a: Disk.Action)
    requires Disk.Shaped(d) && Disk.Enabled(d, a) && i < |d.loggers| && a != Disk.Rotate(i)
    ensures Disk.Step(d, a).loggers[i].cur == d.loggers[i].cur
  {
  }

  lemma {:induction false} RunKeepsLinked(s: Server, i: nat, run: seq<Action>, start: seq<Disk.Files>, before: Bytes)
    requires Linked(s, i, start, before) && AllEnabled(s, i, run)
    ensures Linked(Run(s, i, run), i, start, before)
    decreases |run|
  {
    if run != [] {
      StepKeepsLinked(s, i, run[0], start, before);
      RunKeepsLinked(Step(s, i, run[0]), i, run[1..], start, before);
    }
  }

  /** All loggers just started, logger `i` with this ring, on a file that holds `before`. */
  function Boot(start: seq<Disk.Files>, slots: nat, threads: nat, before: Bytes, maxSize: nat): Server
    requires 0 < slots
  {
    Server(Ring.Started(slots, threads, before, maxSize), Disk.Boot(start))
  }

  /** How many of the files of this run retention has deleted. */
  function Dropped(s: Server, i: nat, start: seq<Disk.Files>): nat
    requires Shaped(s, i) && i < |start|
  {
    var min := s.disk.loggers[i].min;
    if min <= start[i].cur then 0 else min - start[i].cur
  }

  /** In every interleaving, the revisions of this run on disk, plain or archived, are those of its last
      files, from the first not deleted to the open one; what these hold, one after another, is the end
      of all that was written out, and the files deleted hold the rest. */
  lemma FilesAreTheEnd(start: seq<Disk.Files>, i: nat, slots: nat, threads: nat, before: Bytes, maxSize: nat, run: seq<Action>)
    requires 0 < slots && i < |start| && forall j | 0 <= j < |start| :: Disk.JustStarted(start[j])
    requires AllEnabled(Boot(start, slots, threads, before, maxSize), i, run)
    ensures var s := Run(Boot(start, slots, threads, before, maxSize), i, run);
            var (f, files, d) := (s.disk.loggers[i], Files(s.ring), Dropped(s, i, start));
            && d < |files| && f.cur == start[i].cur + |files| - 1
            && (forall rev | start[i].cur <= rev <= f.cur ::
                  (rev in f.plain || rev in f.packed) <==> start[i].cur + d <= rev)
            && Ring.Cat(files[..d]) + Ring.Cat(files[d..])
               == before + Ring.Cat(s.ring.flushed) + Ring.Partial(s.ring)
  {
    var boot := Boot(start, slots, threads, before, maxSize);
    Ring.StartedInv(slots, threads, before, maxSize);
    assert Disk.Inv(boot.disk, start);
    RunKeepsLinked(boot, i, run, start, before);
    var s := Run(boot, i, run);
    LinkedFiles(s, i, start, before);
  }

  lemma LinkedFiles(s: Server, i: nat, start: seq<Disk.Files>, before: Bytes)
    requires Linked(s, i, start, before)
    ensures var (f, files, d) := (s.disk.loggers[i], Files(s.ring), Dropped(s, i, start));
            && d < |files| && f.cur == start[i].cur + |files| - 1
            && (forall rev | start[i].cur <= rev <= f.cur ::
                  (rev in f.plain || rev in f.packed) <==> start[i].cur + d <= rev)
            && Ring.Cat(files[..d]) + Ring.Cat(files[d..])
               == before + Ring.Cat(s.ring.flushed) + Ring.Partial(s.ring)
  {
    assert Disk.Tidy(s.disk, i, start[i]);
    CatSplit(Files(s.ring), Dropped(s, i, start));
    Ring.CatSnoc(s.ring.closed, s.ring.open);
  }

  lemma {:induction false} CatSplit(xs: seq<Bytes>, d: nat)
    requires d <= |xs|
    ensures Ring.Cat(xs[..d]) + Ring.Cat(xs[d..]) == Ring.Cat(xs)
    decreases |xs| - d
  {
    if d == |xs| {
      assert xs[..d] == xs && xs[d..] == [];
    } else if d < |xs| {
      var n := |xs| - 1;
      if d == n {
        assert xs[d..] == [xs[n]];
        assert Ring.Cat([xs[n]]) == Ring.Cat([]) + xs[n];
      } else {
        CatSplit(xs[..n], d);
        assert xs[..n][..d] == xs[..d] && xs[d..][..n - d] == xs[..n][d..];
        Assoc(Ring.Cat(xs[..d]), Ring.Cat(xs[..n][d..]), xs[n]);
      }
    }
  }
}
