/** Rotated files, the compression queue shared by all loggers, and retention, over every
    interleaving of rotations with the steps of the one compressor thread. */
module Rotation {
  import opened Wire

  /** A logger's revision fields and job counter, and its files on disk by revision: the plain ones
      and the compressed ones. `keep` is the retention limit, zero for none. */
  datatype Files = Files(min: nat, cur: nat, jobs: nat, plain: set<nat>, packed: set<nat>, keep: nat)

  datatype Job = Job(logger: nat, rev: nat)

  /** Where the compressor is with a job: before the archive is made, before the original is
      removed, or deleting old revisions from `next` on. */
  datatype Phase = Waiting | Packing(job: Job) | Unlinking(job: Job) | Trimming(job: Job, next: nat)

  datatype System = System(loggers: seq<Files>, queue: seq<Job>, phase: Phase)

  datatype Action = Rotate(logger: nat) | Pop | Pack | Unlink | Trim | Finish

  predicate Shaped(s: System) {
    && (forall i | 0 <= i < |s.queue| :: s.queue[i].logger < |s.loggers|)
    && (s.phase.Waiting? || s.phase.job.logger < |s.loggers|)
  }

  /** The deletion loop goes on while its index is within the revisions to drop. */
  predicate MoreToTrim(keep: nat, rev: nat, next: nat) {
    keep != 0 && rev >= keep && next <= rev - keep
  }

  predicate Enabled(s: System, a: Action)
    requires Shaped(s)
  {
    match a
    case Rotate(i) => i < |s.loggers|
    case Pop => s.phase.Waiting? && s.queue != []
    case Pack => s.phase.Packing?
    case Unlink => s.phase.Unlinking?
    case Trim => s.phase.Trimming? && MoreToTrim(s.loggers[s.phase.job.logger].keep, s.phase.job.rev, s.phase.next)
    case Finish => s.phase.Trimming? && !MoreToTrim(s.loggers[s.phase.job.logger].keep, s.phase.job.rev, s.phase.next)
  }

  /** The job counter goes down by one; it is unsigned and has 32 bits. */
  function JobDone(f: Files): Files {
    f.(jobs := if f.jobs > 0 then f.jobs - 1 else 2 * TWO_31 - 1)
  }

  /** What an action does to the files of the logger it concerns. */
  function StepFiles(s: System, a: Action, f: Files): Files
    requires Shaped(s) && Enabled(s, a)
  {
    match a
    case Rotate(_) => f.(cur := f.cur + 1, plain := f.plain + {f.cur + 1}, jobs := f.jobs + 1)
    case Pop => f
    case Pack => f.(packed := f.packed + {s.phase.job.rev})
    case Unlink => f.(plain := f.plain - {s.phase.job.rev})
    case Trim => f.(plain := f.plain - {s.phase.next}, packed := f.packed - {s.phase.next}, min := s.phase.next + 1)
    case Finish => JobDone(f)
  }

  function Concerns(s: System, a: Action): nat
    requires Shaped(s) && Enabled(s, a)
  {
    match a
    case Rotate(i) => i
    case Pop => s.queue[0].logger
    case _ => s.phase.job.logger
  }

  function Step(s: System, a: Action): (s': System)
    requires Shaped(s) && Enabled(s, a)
    ensures Shaped(s') && |s'.loggers| == |s.loggers|
  {
    var i := Concerns(s, a);
    System(
      s.loggers[i := StepFiles(s, a, s.loggers[i])],
      match a
      case Rotate(_) => s.queue + [Job(i, s.loggers[i].cur)]
      case Pop => s.queue[1..]
      case _ => s.queue,
      match a
      case Rotate(_) => s.phase
      case Pop => Packing(s.queue[0])
      case Pack => Unlinking(s.phase.job)
      case Unlink => Trimming(s.phase.job, s.loggers[i].min)
      case Trim => Trimming(s.phase.job, s.phase.next + 1)
      case Finish => Waiting)
  }

  // ---- Invariant ----

  /** The revisions of logger `i` in a queue, in order. */
  function Revs(queue: seq<Job>, i: nat): seq<nat> {
    if queue == [] then []
    else (if queue[0].logger == i then [queue[0].rev] else []) + Revs(queue[1..], i)
  }

  /** Where the compressor is with a job of logger `i`. */
  function Mine(s: System, i: nat): Phase {
    if !s.phase.Waiting? && s.phase.job.logger == i then s.phase else Waiting
  }

  /** The revisions of logger `i` still to be done, the one in progress first. */
  function Pending(s: System, i: nat): seq<nat> {
    (if Mine(s, i).Waiting? then [] else [Mine(s, i).job.rev]) + Revs(s.queue, i)
  }

  /** The first revision whose compression has not finished. */
  function Done(f: Files, pending: seq<nat>): int {
    f.cur - |pending|
  }

  function Max(a: int, b: int): int { if a >= b then a else b }

  /** The revisions on disk are exactly those from the least to the open one. */
  ghost predicate OnDisk(f: Files) {
    forall r: nat :: r in f.plain || r in f.packed <==> f.min <= r <= f.cur
  }

  /** Of the revisions since the start those before `done` are archives only, those after it plain only,
      and `done` itself is both from when its archive is made until its original is removed. Those of
      earlier runs are what they were. */
  ghost predicate Archived(f: Files, done: int, phase: Phase, f0: Files) {
    && (forall r | r in f.plain && f0.cur <= r :: (if phase.Trimming? then done + 1 else done) <= r)
    && (forall r | r in f.packed && f0.cur <= r :: r < (if phase.Unlinking? || phase.Trimming? then done + 1 else done))
    && (forall r | r in f.plain && r < f0.cur :: r in f0.plain)
    && (forall r | r in f.packed && r < f0.cur :: r in f0.packed)
    && (forall r | r in f0.plain && f.min <= r < f0.cur :: r in f.plain)
    && (forall r | r in f0.packed && f.min <= r < f0.cur :: r in f.packed)
  }

  /** The files of a logger that was started as `f0`, with the revisions still to be compressed and
      the compressor's phase: those revisions are consecutive up to the one before the open file, the
      job counter counts them, the files on disk are exactly the revisions from the least to the open
      one, those compressed are archives, and retention has dropped exactly what it should. */
  ghost predicate TidyFiles(f: Files, pending: seq<nat>, phase: Phase, f0: Files) {
    var done := Done(f, pending);
    && f.jobs == |pending| && f.keep == f0.keep
    && f0.min <= f0.cur <= done
    && (forall k | 0 <= k < |pending| :: pending[k] == done + k)
    && (!phase.Waiting? ==> pending != [] && pending[0] == phase.job.rev)
    && OnDisk(f)
    && (forall r | r in f.packed :: r < f.cur)
    && Archived(f, done, phase, f0)
    && f0.min <= f.min <= f.cur
    && (if phase.Trimming? then
          && phase.next == f.min
          && f.min <= (if f.keep == 0 then f0.min else Max(f0.min, done + 1 - f.keep))
        else
          f.min == if f.keep != 0 && f0.cur < done then Max(f0.min, done - f.keep) else f0.min)
    && (phase.Unlinking? ==> phase.job.rev in f.packed)
  }

  ghost predicate Tidy(s: System, i: nat, f0: Files)
    requires i < |s.loggers|
  {
    TidyFiles(s.loggers[i], Pending(s, i), Mine(s, i), f0)
  }

  ghost predicate Inv(s: System, start: seq<Files>) {
    && Shaped(s) && |start| == |s.loggers|
    && forall i | 0 <= i < |s.loggers| :: Tidy(s, i, start[i])
  }

  lemma {:induction false} RevsSnoc(queue: seq<Job>, job: Job, i: nat)
    ensures Revs(queue + [job], i) == Revs(queue, i) + (if job.logger == i then [job.rev] else [])
  {
    if queue == [] {
      assert (queue + [job])[1..] == [];
    } else {
      var front := if queue[0].logger == i then [queue[0].rev] else [];
      var back := if job.logger == i then [job.rev] else [];
      assert (queue + [job])[1..] == queue[1..] + [job];
      RevsSnoc(queue[1..], job, i);
      Assoc(front, Revs(queue[1..], i), back);
    }
  }

  /** How an action changes what is pending for a logger. */
  function PendingNext(s: System, a: Action, i: nat): seq<nat>
    requires Shaped(s) && Enabled(s, a) && i < |s.loggers|
  {
    if a.Rotate? && a.logger == i then Pending(s, i) + [s.loggers[i].cur]
    else if a.Finish? && s.phase.job.logger == i then Pending(s, i)[1..]
    else Pending(s, i)
  }

  lemma PendingStep(s: System, a: Action, i: nat)
    requires Shaped(s) && Enabled(s, a) && i < |s.loggers|
    ensures Pending(Step(s, a), i) == PendingNext(s, a, i)
  {
    if a.Rotate? {
      var job := Job(a.logger, s.loggers[a.logger].cur);
      assert Step(s, a).queue == s.queue + [job] && Mine(Step(s, a), i) == Mine(s, i);
      RevsSnoc(s.queue, job, i);
      if a.logger == i && !Mine(s, i).Waiting? {
        Assoc([Mine(s, i).job.rev], Revs(s.queue, i), [job.rev]);
      }
    } else if a.Pop? {
      assert Mine(s, i) == Waiting;
    }
  }

  lemma StepKeepsOther(s: System, a: Action, i: nat, f0: Files)
    requires Shaped(s) && Enabled(s, a) && i < |s.loggers| && i != Concerns(s, a) && Tidy(s, i, f0)
    ensures Tidy(Step(s, a), i, f0)
  {
    PendingStep(s, a, i);
    assert Step(s, a).loggers[i] == s.loggers[i] && Mine(Step(s, a), i) == Mine(s, i);
  }

  lemma RotateKeeps(f: Files, pending: seq<nat>, phase: Phase, f0: Files)
    requires TidyFiles(f, pending, phase, f0)
    ensures TidyFiles(f.(cur := f.cur + 1, plain := f.plain + {f.cur + 1}, jobs := f.jobs + 1),
                      pending + [f.cur], phase, f0)
  {
    var f' := f.(cur := f.cur + 1, plain := f.plain + {f.cur + 1}, jobs := f.jobs + 1);
    assert Done(f', pending + [f.cur]) == Done(f, pending);
    forall r: nat ensures r in f'.plain || r in f'.packed <==> f'.min <= r <= f'.cur {
      assert r in f.plain || r in f.packed <==> f.min <= r <= f.cur;
    }
  }

  lemma PopKeeps(f: Files, pending: seq<nat>, job: Job, f0: Files)
    requires TidyFiles(f, pending, Waiting, f0) && pending != [] && pending[0] == job.rev
    ensures TidyFiles(f, pending, Packing(job), f0)
  {
  }

  lemma PackKeeps(f: Files, pending: seq<nat>, job: Job, f0: Files)
    requires TidyFiles(f, pending, Packing(job), f0)
    ensures TidyFiles(f.(packed := f.packed + {job.rev}), pending, Unlinking(job), f0)
  {
    assert f.min <= pending[0] < f.cur;
  }

  lemma UnlinkKeeps(f: Files, pending: seq<nat>, job: Job, f0: Files)
    requires TidyFiles(f, pending, Unlinking(job), f0)
    ensures TidyFiles(f.(plain := f.plain - {job.rev}), pending, Trimming(job, f.min), f0)
  {
    var f' := f.(plain := f.plain - {job.rev});
    forall r: nat ensures r in f'.plain || r in f'.packed <==> f'.min <= r <= f'.cur {
      assert r in f.plain || r in f.packed <==> f.min <= r <= f.cur;
    }
  }

  lemma TrimKeeps(f: Files, pending: seq<nat>, job: Job, next: nat, f0: Files)
    requires TidyFiles(f, pending, Trimming(job, next), f0) && MoreToTrim(f.keep, job.rev, next)
    ensures TidyFiles(f.(plain := f.plain - {next}, packed := f.packed - {next}, min := next + 1),
                      pending, Trimming(job, next + 1), f0)
  {
    var f' := f.(plain := f.plain - {next}, packed := f.packed - {next}, min := next + 1);
    forall r: nat ensures r in f'.plain || r in f'.packed <==> f'.min <= r <= f'.cur {
      assert r in f.plain || r in f.packed <==> f.min <= r <= f.cur;
    }
  }

  lemma FinishKeeps(f: Files, pending: seq<nat>, job: Job, next: nat, f0: Files)
    requires TidyFiles(f, pending, Trimming(job, next), f0) && !MoreToTrim(f.keep, job.rev, next)
    ensures TidyFiles(JobDone(f), pending[1..], Waiting, f0)
  {
    assert Done(JobDone(f), pending[1..]) == Done(f, pending) + 1;
  }

  /** Where an action leaves the compressor, as the logger it concerns sees it. */
  function MineNext(s: System, a: Action, i: nat): Phase
    requires Shaped(s) && Enabled(s, a) && i == Concerns(s, a)
  {
    match a
    case Rotate(_) => Mine(s, i)
    case Pop => Packing(s.queue[0])
    case Pack => Unlinking(s.phase.job)
    case Unlink => Trimming(s.phase.job, s.loggers[i].min)
    case Trim => Trimming(s.phase.job, s.phase.next + 1)
    case Finish => Waiting
  }

  lemma StepKeepsTidy(s: System, a: Action, i: nat, f0: Files)
    requires Shaped(s) && Enabled(s, a) && i == Concerns(s, a) && Tidy(s, i, f0)
    ensures Tidy(Step(s, a), i, f0)
  {
    FilesKeep(s, a, i, f0);
    PendingStep(s, a, i);
    assert Step(s, a).loggers[i] == StepFiles(s, a, s.loggers[i]);
    assert Mine(Step(s, a), i) == MineNext(s, a, i);
  }

  lemma FilesKeep(s: System, a: Action, i: nat, f0: Files)
    requires Shaped(s) && Enabled(s, a) && i == Concerns(s, a) && Tidy(s, i, f0)
    ensures TidyFiles(StepFiles(s, a, s.loggers[i]), PendingNext(s, a, i), MineNext(s, a, i), f0)
  {
    var (f, pending) := (s.loggers[i], Pending(s, i));
    if a.Rotate? {
      RotateKeeps(f, pending, Mine(s, i), f0);
    } else if a.Pop? {
      assert pending[0] == s.queue[0].rev;
      PopKeeps(f, pending, s.queue[0], f0);
    } else {
      JobKeeps(s, a, i, f0);
    }
  }

  lemma JobKeeps(s: System, a: Action, i: nat, f0: Files)
    requires Shaped(s) && Enabled(s, a) && i == Concerns(s, a) && Tidy(s, i, f0) && !a.Rotate? && !a.Pop?
    ensures TidyFiles(StepFiles(s, a, s.loggers[i]), PendingNext(s, a, i), MineNext(s, a, i), f0)
  {
    var (f, pending, job) := (s.loggers[i], Pending(s, i), s.phase.job);
    assert Mine(s, i) == s.phase;
    if a.Pack? {
      PackKeeps(f, pending, job, f0);
    } else if a.Unlink? {
      UnlinkKeeps(f, pending, job, f0);
    } else if a.Trim? {
      TrimKeeps(f, pending, job, s.phase.next, f0);
    } else {
      FinishKeeps(f, pending, job, s.phase.next, f0);
    }
  }

  lemma StepKeepsInv(s: System, a: Action, start: seq<Files>)
    requires Inv(s, start) && Enabled(s, a)
    ensures Inv(Step(s, a), start)
  {
    forall i | 0 <= i < |s.loggers| ensures Tidy(Step(s, a), i, start[i]) {
      if i == Concerns(s, a) {
        StepKeepsTidy(s, a, i, start[i]);
      } else {
        StepKeepsOther(s, a, i, start[i]);
      }
    }
  }

  // ---- Runs ----

  predicate AllEnabled(s: System, run: seq<Action>)
    requires Shaped(s)
    decreases |run|
  {
    run != [] ==> Enabled(s, run[0]) && AllEnabled(Step(s, run[0]), run[1..])
  }

  function Run(s: System, run: seq<Action>): System
    requires Shaped(s) && AllEnabled(s, run)
    decreases |run|
  {
    if run == [] then s else Run(Step(s, run[0]), run[1..])
  }

  /** A logger just started: no job of its own, and on disk the files from the least revision to
      the open one, which is not compressed. */
  ghost predicate JustStarted(f: Files) {
    OnDisk(f) && f.jobs == 0 && f.min <= f.cur && forall r | r in f.packed :: r < f.cur
  }

  function Boot(start: seq<Files>): System {
    System(start, [], Waiting)
  }

  lemma {:induction false} RunKeepsInv(s: System, start: seq<Files>, run: seq<Action>)
    requires Inv(s, start) && AllEnabled(s, run)
    ensures Inv(Run(s, run), start)
    decreases |run|
  {
    if run != [] {
      StepKeepsInv(s, run[0], start);
      RunKeepsInv(Step(s, run[0]), start, run[1..]);
    }
  }

  /** In every interleaving, for every logger: pending revisions are consecutive and done in order,
      the counter counts them, and the files on disk are exactly those from `min` to `cur`. */
  lemma EveryRunIsTidy(start: seq<Files>, run: seq<Action>, i: nat)
    requires forall j | 0 <= j < |start| :: JustStarted(start[j])
    requires AllEnabled(Boot(start), run) && i < |start|
    ensures var s := Run(Boot(start), run);
            |s.loggers| == |start| && Shaped(s) && Tidy(s, i, start[i])
  {
    assert Inv(Boot(start), start);
    RunKeepsInv(Boot(start), start, run);
  }

  /** In every interleaving, once a revision of this run is compressed its original is gone: if its
      file has not been deleted, it is an archive and nothing else. So when nothing is pending the only
      plain file of the run is the open one. The files of earlier runs are deleted or left as they were. */
  lemma DoneIsArchived(start: seq<Files>, run: seq<Action>, i: nat, rev: nat)
    requires forall j | 0 <= j < |start| :: JustStarted(start[j])
    requires AllEnabled(Boot(start), run) && i < |start|
    ensures var s := Run(Boot(start), run);
            && |s.loggers| == |start|
            && var (f, f0, pending) := (s.loggers[i], start[i], Pending(s, i));
               && (f0.cur <= rev < Done(f, pending) ==> rev !in f.plain && (rev in f.packed <==> f.min <= rev))
               && (Done(f, pending) < rev <= f.cur ==> rev in f.plain && rev !in f.packed)
               && (pending == [] && f0.cur <= rev ==> (rev in f.plain <==> rev == f.cur))
               && (rev < f0.cur ==> (rev in f.plain <==> rev in f0.plain && f.min <= rev))
               && (rev < f0.cur ==> (rev in f.packed <==> rev in f0.packed && f.min <= rev))
  {
    EveryRunIsTidy(start, run, i);
  }

  /** In every interleaving, once a revision is compressed, retention has left at most `keep` files
      up to it, and exactly that many where there were enough. */
  lemma RetentionIsExact(start: seq<Files>, run: seq<Action>, i: nat)
    requires forall j | 0 <= j < |start| :: JustStarted(start[j])
    requires AllEnabled(Boot(start), run) && i < |start| && start[i].keep != 0
    ensures var s := Run(Boot(start), run);
            && |s.loggers| == |start|
            && var n := Done(s.loggers[i], Pending(s, i)) - 1;
               start[i].cur <= n && (s.phase.Trimming? ==> s.phase.job.logger != i) ==>
                 n - s.loggers[i].min + 1
                 == if n - start[i].min + 1 < start[i].keep then n - start[i].min + 1 else start[i].keep
  {
    EveryRunIsTidy(start, run, i);
  }

  // ---- The compressor's own code ----

  /** The last revision the compression of `rev` deletes, below every revision if there is none. */
  function LastDropped(f: Files, rev: nat): int {
    if f.keep != 0 && rev >= f.keep then rev - f.keep else -1
  }

  /** Retention drops `r` when `rev` has been compressed: it is a limit's worth of files or more back. */
  predicate IsDropped(f: Files, rev: nat, r: nat) {
    f.keep != 0 && f.min <= r && r + f.keep <= rev
  }

  function Without(revs: set<nat>, lo: nat, hi: int): set<nat> {
    set r | r in revs && !(lo <= r <= hi)
  }

  /** What is left of a logger's files when old revisions have been deleted. */
  function Trimmed(f: Files, last: int): Files {
    f.(plain := Without(f.plain, f.min, last), packed := Without(f.packed, f.min, last),
       min := if f.min <= last then last + 1 else f.min)
  }

  /** A logger's files with `rev` archived and its original removed. */
  function Packed(f: Files, rev: nat): Files {
    f.(plain := f.plain - {rev}, packed := f.packed + {rev})
  }

  /** A logger's files after the compression of `rev`. */
  function Compressed(f: Files, rev: nat): Files {
    JobDone(Trimmed(Packed(f, rev), LastDropped(f, rev)))
  }

  class Manager {
    var loggers: seq<Files>
    var pendingCompElems: seq<Job>

    method AddCompElem(job: Job)
      modifies `pendingCompElems
      ensures pendingCompElems == old(pendingCompElems) + [job]
    {
      pendingCompElems := pendingCompElems + [job];
    }

    /** The end of a flush that has taken the file past its limit, which is the rotation step
        whatever the compressor is doing. */
    method RotateFile(i: nat)
      requires i < |loggers|
      requires forall k | 0 <= k < |pendingCompElems| :: pendingCompElems[k].logger < |loggers|
      modifies this
      ensures forall phase: Phase | Shaped(System(old(loggers), old(pendingCompElems), phase)) ::
                System(loggers, pendingCompElems, phase)
                == Step(System(old(loggers), old(pendingCompElems), phase), Rotate(i))
    {
      var f := loggers[i];
      f := f.(cur := f.cur + 1);
      f := f.(plain := f.plain + {f.cur});
      f := f.(jobs := f.jobs + 1);
      loggers := loggers[i := f];
      AddCompElem(Job(i, f.cur - 1));
    }

    /** One turn of the worker loop; the result says whether it goes on without sleeping. */
    method CompressOnce() returns (worked: bool)
      requires forall k | 0 <= k < |pendingCompElems| :: pendingCompElems[k].logger < |loggers|
      modifies this
      ensures worked <==> old(pendingCompElems) != []
      ensures !worked ==> loggers == old(loggers) && pendingCompElems == []
      ensures worked ==>
                var job := old(pendingCompElems)[0];
                && pendingCompElems == old(pendingCompElems)[1..]
                && loggers == old(loggers)[job.logger := Compressed(old(loggers)[job.logger], job.rev)]
    {
      if pendingCompElems == [] {
        return false;
      }
      var elem := pendingCompElems[0];
      pendingCompElems := pendingCompElems[1..];
      DoCompression(elem.logger, elem.rev);
      return true;
    }

    method DoCompression(i: nat, fileNum: nat)
      requires i < |loggers|
      modifies `loggers
      ensures loggers == old(loggers)[i := Compressed(old(loggers)[i], fileNum)]
      ensures forall r: nat :: r in loggers[i].plain <==>
                r in old(loggers)[i].plain && r != fileNum && !IsDropped(old(loggers)[i], fileNum, r)
      ensures forall r: nat :: r in loggers[i].packed <==>
                (r in old(loggers)[i].packed || r == fileNum) && !IsDropped(old(loggers)[i], fileNum, r)
    {
      var f := loggers[i];
      f := f.(packed := f.packed + {fileNum});
      f := f.(plain := f.plain - {fileNum});
      ghost var before, last := f, LastDropped(f, fileNum);
      if f.keep != 0 && fileNum >= f.keep {
        var ii := f.min;
        while ii <= fileNum - f.keep
          invariant before.min <= ii && (ii <= last + 1 || ii == before.min)
          invariant f == before.(plain := Without(before.plain, before.min, ii - 1),
                                 packed := Without(before.packed, before.min, ii - 1), min := ii)
        {
          f := f.(plain := f.plain - {ii}, packed := f.packed - {ii});
          f := f.(min := ii + 1);
          ii := ii + 1;
        }
      }
      assert f == Trimmed(before, last);
      f := JobDone(f);
      loggers := loggers[i := f];
    }
  }

  lemma SetTwice<T>(xs: seq<T>, i: nat, x: T, y: T)
    requires i < |xs|
    ensures xs[i := x][i := y] == xs[i := y] && xs[i := x][i] == x && xs[i := xs[i]] == xs
  {
  }

  lemma RunFrom(s: System, a: Action, rest: seq<Action>) returns (run: seq<Action>)
    requires Shaped(s) && Enabled(s, a) && AllEnabled(Step(s, a), rest)
    ensures AllEnabled(s, run) && Run(s, run) == Run(Step(s, a), rest)
  {
    run := [a] + rest;
    assert run[1..] == rest;
  }

  lemma RunFromThree(s: System, a: Action, b: Action, c: Action, rest: seq<Action>) returns (run: seq<Action>)
    requires Shaped(s) && Enabled(s, a) && Enabled(Step(s, a), b) && Enabled(Step(Step(s, a), b), c)
    requires AllEnabled(Step(Step(Step(s, a), b), c), rest)
    ensures AllEnabled(s, run) && Run(s, run) == Run(Step(Step(Step(s, a), b), c), rest)
  {
    run := RunFrom(Step(Step(s, a), b), c, rest);
    run := RunFrom(Step(s, a), b, run);
    run := RunFrom(s, a, run);
  }

  lemma TrimOnce(f: Files, last: int)
    requires f.min <= last
    ensures Trimmed(f.(plain := f.plain - {f.min}, packed := f.packed - {f.min}, min := f.min + 1), last)
            == Trimmed(f, last)
  {
    var f' := f.(plain := f.plain - {f.min}, packed := f.packed - {f.min}, min := f.min + 1);
    assert Without(f'.plain, f'.min, last) == Without(f.plain, f.min, last);
    assert Without(f'.packed, f'.min, last) == Without(f.packed, f.min, last);
  }

  lemma TrimOver(f: Files, last: int)
    requires f.min > last
    ensures Trimmed(f, last) == f
  {
    assert Without(f.plain, f.min, last) == f.plain && Without(f.packed, f.min, last) == f.packed;
  }

  lemma {:induction false} TrimSteps(s: System) returns (run: seq<Action>)
    requires Shaped(s) && s.phase.Trimming? && s.phase.next == s.loggers[s.phase.job.logger].min
    ensures AllEnabled(s, run)
    ensures var (i, rev) := (s.phase.job.logger, s.phase.job.rev);
            var f := s.loggers[i];
            Run(s, run) == System(s.loggers[i := JobDone(Trimmed(f, LastDropped(f, rev)))], s.queue, Waiting)
    decreases s.phase.job.rev + 1 - s.phase.next
  {
    var (i, rev) := (s.phase.job.logger, s.phase.job.rev);
    var f := s.loggers[i];
    var last := LastDropped(f, rev);
    if MoreToTrim(f.keep, rev, s.phase.next) {
      var s' := Step(s, Trim);
      var f' := s'.loggers[i];
      TrimOnce(f, last);
      SetTwice(s.loggers, i, f', JobDone(Trimmed(f, last)));
      run := TrimSteps(s');
      run := RunFrom(s, Trim, run);
    } else {
      TrimOver(f, last);
      run := RunFrom(s, Finish, []);
    }
  }

  /** What the compressor's first three steps for a job come to. */
  lemma FirstSteps(s: System)
    requires Shaped(s) && s.phase.Waiting? && s.queue != []
    ensures Enabled(s, Pop)
    ensures var (job, s1) := (s.queue[0], Step(s, Pop));
            && Enabled(s1, Pack) && Enabled(Step(s1, Pack), Unlink)
            && Step(Step(s1, Pack), Unlink)
               == System(s.loggers[job.logger := Packed(s.loggers[job.logger], job.rev)], s.queue[1..],
                         Trimming(job, s.loggers[job.logger].min))
  {
    var (job, s1) := (s.queue[0], Step(s, Pop));
    var (i, f) := (job.logger, s.loggers[job.logger]);
    var f2 := f.(packed := f.packed + {job.rev});
    SetTwice(s.loggers, i, f, f2);
    assert s1 == System(s.loggers, s.queue[1..], Packing(job));
    SetTwice(s.loggers, i, f2, Packed(f, job.rev));
  }

  /** The compressor's steps for a job, with no rotation in between, come to what its code does. */
  lemma StepsAreCompression(s: System) returns (run: seq<Action>)
    requires Shaped(s) && s.phase.Waiting? && s.queue != []
    ensures AllEnabled(s, run)
    ensures var job := s.queue[0];
            Run(s, run) == System(s.loggers[job.logger := Compressed(s.loggers[job.logger], job.rev)],
                                  s.queue[1..], Waiting)
  {
    var job := s.queue[0];
    FirstSteps(s);
    var s3 := Step(Step(Step(s, Pop), Pack), Unlink);
    var f := s.loggers[job.logger];
    SetTwice(s.loggers, job.logger, Packed(f, job.rev), Compressed(f, job.rev));
    var rest := TrimSteps(s3);
    run := RunFromThree(s, Pop, Pack, Unlink, rest);
  }
}
