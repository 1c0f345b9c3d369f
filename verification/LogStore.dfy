/** The log store in use: an ordered map with a dummy at key 0 whose next slot is computed from the
    map's size. Each method is stated against the map it leaves and, in the range its callers keep
    to, against `RaftLog.Log`. */
module LogStore {
  import opened Wire
  import opened RaftLog

  type Logs = map<nat, LogEntry>

  // ---- Ordered-map reads the store relies on ----

  /** The least key that is at least `bound`, as an ordered map finds it. */
  method LowerBound<T>(m: map<nat, T>, bound: nat) returns (r: Option<nat>)
    ensures r == None ==> forall k <- m :: k < bound
    ensures r.Some? ==> r.value in m && bound <= r.value && forall k <- m | bound <= k :: r.value <= k
  {
    r := None;
    var todo := m.Keys;
    while todo != {}
      invariant todo <= m.Keys
      invariant r.Some? ==> r.value in m && bound <= r.value
      invariant forall k <- m | k !in todo && bound <= k :: r.Some? && r.value <= k
    {
      var k :| k in todo;
      todo := todo - {k};
      if bound <= k && (r == None || k < r.value) {
        r := Some(k);
      }
    }
  }

  // ---- Contiguity ----

  /** Besides the dummy, the keys are exactly the range from `start` that the size accounts for. */
  ghost predicate Contiguous(m: Logs, start: nat) {
    && 1 <= start
    && 0 in m
    && forall k :: k in m <==> k == 0 || start <= k < start + |m| - 1
  }

  ghost function AbsLog(m: Logs, start: nat): Log
    requires Contiguous(m, start)
  {
    Log(start, seq(|m| - 1, i requires 0 <= i < |m| - 1 => m[start + i]))
  }

  /** Keys that are the dummy and a range determine the size. */
  lemma {:induction false} RangeSize(keys: set<nat>, start: nat, next: nat)
    requires 1 <= start <= next
    requires forall k :: k in keys <==> k == 0 || start <= k < next
    ensures |keys| == 1 + next - start
    decreases next
  {
    if start == next {
      assert keys == {0};
    } else {
      RangeSize(keys - {next - 1}, start, next - 1);
    }
  }

  lemma RangeIsContiguous(m: Logs, log: Log)
    requires 1 <= log.start
    requires forall k :: k in m <==> k == 0 || log.Has(k)
    requires forall k | log.Has(k) :: m[k] == log.At(k)
    ensures Contiguous(m, log.start) && AbsLog(m, log.start) == log
  {
    RangeSize(m.Keys, log.start, log.Next());
    assert |m| == |m.Keys| && 0 in m;
    assert Contiguous(m, log.start);
    var entries := AbsLog(m, log.start).entries;
    forall i | 0 <= i < |log.entries| ensures entries[i] == log.entries[i] {
      assert log.Has(log.start + i) && log.At(log.start + i) == log.entries[i];
    }
    assert entries == log.entries;
  }

  lemma EntryInRange(m: Logs, start: nat, i: nat)
    requires Contiguous(m, start) && AbsLog(m, start).Has(i)
    ensures i in m && AbsLog(m, start).At(i) == m[i]
  {
  }

  lemma AppendContiguous(m: Logs, start: nat, e: LogEntry)
    requires Contiguous(m, start)
    ensures var (m', log) := (m[start + |m| - 1 := e], AbsLog(m, start));
            Contiguous(m', start) && AbsLog(m', start) == log.Append(e)
  {
    var m' := m[start + |m| - 1 := e];
    var log' := AbsLog(m, start).Append(e);
    forall k: nat ensures (k in m' <==> k == 0 || log'.Has(k)) && (log'.Has(k) ==> m'[k] == log'.At(k)) {
      assert k in m <==> k == 0 || start <= k < start + |m| - 1;
    }
    RangeIsContiguous(m', log');
  }

  // ---- What the mutators leave in the map ----

  function Truncated(m: Logs, i: nat): Logs {
    map k | k in m && k < i :: m[k]
  }

  function WriteAtMap(m: Logs, i: nat, e: LogEntry): Logs {
    Truncated(m, i)[i := e]
  }

  function Overlay(m: Logs, i: nat, es: seq<LogEntry>): Logs
    decreases |es|
  {
    if es == [] then m else Overlay(m[i := es[0]], i + 1, es[1..])
  }

  lemma {:induction false} OverlayAt(m: Logs, i: nat, es: seq<LogEntry>, k: nat)
    ensures var m' := Overlay(m, i, es);
            && (k in m' <==> i <= k < i + |es| || k in m)
            && (i <= k < i + |es| ==> m'[k] == es[k - i])
            && (k in m && !(i <= k < i + |es|) ==> m'[k] == m[k])
    decreases |es|
  {
    if es != [] {
      OverlayAt(m[i := es[0]], i + 1, es[1..], k);
    }
  }

  /** The map that unpacking up to `n` entries from `bs` leaves, and whether there were that many. */
  function Unpacked(m: Logs, i: nat, bs: Bytes, n: int): (Logs, bool) {
    var (es, ok) := DecodeBody(bs, n);
    (Overlay(m, i, es), ok)
  }

  function CompactMap(m: Logs, start: nat, last: nat): Logs {
    map k | k in m && !(start <= k <= last) :: m[k]
  }

  /** The start an unpacking ends with: the least key above the dummy. */
  ghost predicate IsRestart(m: Logs, start: nat) {
    if exists k :: k in m && 0 < k then start in m && 0 < start && forall k <- m | 0 < k :: start <= k
    else start == 1
  }

  /** What an overwrite leaves, in range or not. */
  lemma WriteAtMapAt(m: Logs, i: nat, e: LogEntry, k: nat)
    ensures var r := WriteAtMap(m, i, e);
            && (k in r <==> k == i || (k in m && k < i))
            && (k in r ==> r[k] == if k == i then e else m[k])
  {
  }

  lemma WriteAtInside(m: Logs, start: nat, i: nat, e: LogEntry)
    requires Contiguous(m, start) && start <= i <= AbsLog(m, start).Next()
    ensures Contiguous(WriteAtMap(m, i, e), start)
    ensures AbsLog(WriteAtMap(m, i, e), start) == AbsLog(m, start).WriteAt(i, e)
  {
    var (m', log') := (WriteAtMap(m, i, e), AbsLog(m, start).WriteAt(i, e));
    forall k: nat ensures (k in m' <==> k == 0 || log'.Has(k)) && (log'.Has(k) ==> m'[k] == log'.At(k)) {
      assert k in m <==> k == 0 || start <= k < start + |m| - 1;
    }
    RangeIsContiguous(m', log');
  }

  lemma WriteAtOutside(m: Logs, start: nat, i: nat, e: LogEntry)
    requires Contiguous(m, start) && !(start <= i <= AbsLog(m, start).Next())
    ensures Contiguous(WriteAtMap(m, i, e), start) <==> i == 0
  {
    var m' := WriteAtMap(m, i, e);
    if i == 0 {
      assert m'.Keys == {0};
    } else if i < start {
      assert m'.Keys == {0, i};
      assert start !in m';
    } else {
      assert m'.Keys == m.Keys + {i};
      assert AbsLog(m, start).Next() !in m';
    }
  }

  /** A truncating overwrite keeps the keys contiguous exactly from the start up to the next slot
      (or at the dummy itself, which it then replaces). */
  lemma WriteAtContiguousIff(m: Logs, start: nat, i: nat, e: LogEntry)
    requires Contiguous(m, start)
    ensures var log := AbsLog(m, start);
            && (Contiguous(WriteAtMap(m, i, e), start) <==> i == 0 || start <= i <= log.Next())
            && (start <= i <= log.Next() ==> AbsLog(WriteAtMap(m, i, e), start) == log.WriteAt(i, e))
  {
    if start <= i <= AbsLog(m, start).Next() {
      WriteAtInside(m, start, i, e);
    } else {
      WriteAtOutside(m, start, i, e);
    }
  }

  lemma SpliceTouching(m: Logs, start: nat, i: nat, es: seq<LogEntry>, start': nat)
    requires Contiguous(m, start) && 1 <= i && AbsLog(m, start).Touches(i, |es|)
    requires IsRestart(Overlay(m, i, es), start')
    ensures Contiguous(Overlay(m, i, es), start')
    ensures AbsLog(Overlay(m, i, es), start') == AbsLog(m, start).Splice(i, es)
  {
    var (log, m') := (AbsLog(m, start), Overlay(m, i, es));
    var log' := log.Splice(i, es);
    forall k: nat ensures (k in m' <==> k == 0 || log'.Has(k)) && (log'.Has(k) ==> m'[k] == log'.At(k)) {
      SpliceKey(m, start, i, es, k);
    }
    if log'.entries != [] {
      assert log'.Has(log'.start);
    }
    assert start' == log'.start;
    RangeIsContiguous(m', log');
  }

  lemma SpliceKey(m: Logs, start: nat, i: nat, es: seq<LogEntry>, k: nat)
    requires Contiguous(m, start) && 1 <= i && AbsLog(m, start).Touches(i, |es|)
    ensures var (m', log') := (Overlay(m, i, es), AbsLog(m, start).Splice(i, es));
            (k in m' <==> k == 0 || log'.Has(k)) && (log'.Has(k) ==> m'[k] == log'.At(k))
  {
    SpliceAt(AbsLog(m, start), i, es, k);
    OverlayAt(m, i, es, k);
  }

  lemma SpliceApart(m: Logs, start: nat, i: nat, es: seq<LogEntry>, start': nat)
    requires Contiguous(m, start) && 1 <= i && !AbsLog(m, start).Touches(i, |es|)
    requires IsRestart(Overlay(m, i, es), start')
    ensures !Contiguous(Overlay(m, i, es), start')
  {
    var (next, m') := (AbsLog(m, start).Next(), Overlay(m, i, es));
    var hole := if next < i then next else i + |es|;
    var last := if next < i then i else start;
    var first := if next < i then start else i;
    OverlayAt(m, i, es, hole);
    OverlayAt(m, i, es, last);
    OverlayAt(m, i, es, first);
    assert first in m' && start' <= first < hole < last && hole !in m' && last in m';
  }

  /** An unpacking keeps the keys contiguous exactly when the new entries touch the old ones. */
  lemma SpliceContiguousIff(m: Logs, start: nat, i: nat, es: seq<LogEntry>, start': nat)
    requires Contiguous(m, start) && 1 <= i
    requires IsRestart(Overlay(m, i, es), start')
    ensures var log := AbsLog(m, start);
            && (Contiguous(Overlay(m, i, es), start') <==> log.Touches(i, |es|))
            && (log.Touches(i, |es|) ==> AbsLog(Overlay(m, i, es), start') == log.Splice(i, es))
  {
    if AbsLog(m, start).Touches(i, |es|) {
      SpliceTouching(m, start, i, es, start');
    } else {
      SpliceApart(m, start, i, es, start');
    }
  }

  /** Compaction keeps the keys contiguous even past the end. */
  lemma CompactContiguous(m: Logs, start: nat, last: nat)
    requires Contiguous(m, start)
    ensures var log' := AbsLog(m, start).Compact(last);
            Contiguous(CompactMap(m, start, last), log'.start)
            && AbsLog(CompactMap(m, start, last), log'.start) == log'
  {
    RangeIsContiguous(CompactMap(m, start, last), AbsLog(m, start).Compact(last));
  }

  // ---- Emulated durability ----

  /** The latest timestamp that is due, if any. */
  function LastDue(pending: map<nat, nat>, now: nat): (r: Option<nat>)
    ensures r == None ==> forall t <- pending :: now < t
    ensures r.Some? ==> r.value in pending && r.value <= now && forall t <- pending | t <= now :: t <= r.value
  {
    if now in pending then Some(now) else if now == 0 then None else LastDue(pending, now - 1)
  }

  /** An overwrite leaves its own deadline and those of lower or equal indices. */
  lemma PendingAt(pending: map<nat, nat>, deadline: nat, i: nat, t: nat)
    ensures var r := PendingWriteAt(pending, deadline, i);
            && (t in r <==> t == deadline || (t in pending && pending[t] <= i))
            && (t in r ==> r[t] == if t == deadline then i else pending[t])
  {
  }

  function DurableAfter(pending: map<nat, nat>, durable: nat, now: nat): nat {
    var due := LastDue(pending, now);
    if due.Some? then pending[due.value] else durable
  }

  function PendingAfter(pending: map<nat, nat>, now: nat): map<nat, nat> {
    map t | t in pending && now < t :: pending[t]
  }

  function DropAbove(pending: map<nat, nat>, i: nat): map<nat, nat> {
    map t | t in pending && pending[t] <= i :: pending[t]
  }

  function PendingWriteAt(pending: map<nat, nat>, deadline: nat, i: nat): map<nat, nat> {
    DropAbove(pending[deadline := i], i)
  }

  class InMemLogStore {
    var logs: Logs
    var startIdx: nat
    /** Milliseconds; zero switches the emulation off. */
    var diskDelay: nat
    /** Deadline in microseconds to log index. */
    var beingWritten: map<nat, nat>
    var lastDurable: nat

    ghost predicate Valid()
      reads this
    {
      Contiguous(logs, startIdx)
    }

    ghost function Abs(): Log
      requires Valid()
      reads this
    {
      AbsLog(logs, startIdx)
    }

    constructor (dummyPayload: Bytes)
      ensures Valid() && Abs() == Log(1, []) && logs[0] == LogEntry(0, APP_LOG, dummyPayload)
      ensures diskDelay == 0 && beingWritten == map[] && lastDurable == 0
    {
      logs := map[0 := LogEntry(0, APP_LOG, dummyPayload)];
      startIdx := 1;
      diskDelay, beingWritten, lastDurable := 0, map[], 0;
    }

    method NextSlot() returns (next: nat)
      requires Valid()
      ensures next == Abs().Next()
    {
      next := startIdx + |logs| - 1;
    }

    /** Out of range, the dummy answers. */
    method EntryAt(i: nat) returns (e: LogEntry)
      requires Valid()
      ensures e == if Abs().Has(i) then Abs().At(i) else logs[0]
    {
      e := if i in logs then logs[i] else logs[0];
    }

    method TermAt(i: nat) returns (term: nat)
      requires Valid()
      ensures term == if Abs().Has(i) then Abs().At(i).term else logs[0].term
    {
      term := if i in logs then logs[i].term else logs[0].term;
    }

    method LastEntry() returns (e: LogEntry)
      requires Valid()
      ensures e == if Abs().entries != [] then Abs().At(Abs().Next() - 1) else logs[0]
    {
      var next := NextSlot();
      e := if next - 1 in logs then logs[next - 1] else logs[0];
    }

    method Append(e: LogEntry, now: nat) returns (idx: nat)
      requires Valid()
      modifies `logs, `beingWritten
      ensures Valid() && Abs() == old(Abs()).Append(e) && logs[0] == old(logs[0])
      ensures idx == old(Abs()).Next()
      ensures beingWritten == if diskDelay == 0 then old(beingWritten)
                              else old(beingWritten)[now + diskDelay * 1000 := idx]
    {
      AppendContiguous(logs, startIdx, e);
      idx := startIdx + |logs| - 1;
      logs := logs[idx := e];
      if diskDelay != 0 {
        beingWritten := beingWritten[now + diskDelay * 1000 := idx];
      }
    }

    method WriteAt(i: nat, e: LogEntry, now: nat)
      modifies `logs, `beingWritten
      ensures logs == WriteAtMap(old(logs), i, e)
      ensures old(Valid()) && startIdx <= i <= old(Abs()).Next() ==>
                Valid() && Abs() == old(Abs()).WriteAt(i, e) && logs[0] == old(logs[0])
      ensures beingWritten == if diskDelay == 0 then old(beingWritten)
                              else PendingWriteAt(old(beingWritten), now + diskDelay * 1000, i)
    {
      TruncateFrom(i);
      logs := logs[i := e];
      if diskDelay != 0 {
        beingWritten := beingWritten[now + diskDelay * 1000 := i];
        DropBeyond(i);
      }
      if old(Valid()) {
        WriteAtContiguousIff(old(logs), startIdx, i, e);
      }
    }

    /** The first loop of `write_at`, over the entries in order. */
    method TruncateFrom(i: nat)
      modifies `logs
      ensures logs == Truncated(old(logs), i)
    {
      var itr := LowerBound(logs, i);
      while itr.Some?
        invariant logs.Keys <= old(logs).Keys
        invariant forall k <- logs :: logs[k] == old(logs)[k]
        invariant forall k <- old(logs) | k < i :: k in logs
        invariant itr.Some? ==> itr.value in logs && i <= itr.value
        invariant itr == None ==> forall k <- logs :: k < i
        decreases logs.Keys
      {
        logs := logs - {itr.value};
        itr := LowerBound(logs, i);
      }
    }

    /** The second loop of `write_at`, over the pending writes in order. */
    method DropBeyond(i: nat)
      modifies `beingWritten
      ensures beingWritten == DropAbove(old(beingWritten), i)
    {
      ghost var was := beingWritten;
      var entry := LowerBound(beingWritten, 0);
      ghost var done, todo := 0, was.Keys;
      while entry.Some?
        invariant beingWritten.Keys <= was.Keys
        invariant forall t <- beingWritten :: beingWritten[t] == was[t]
        invariant forall t <- was | done <= t || was[t] <= i :: t in beingWritten
        invariant forall t <- beingWritten | t < done :: was[t] <= i
        invariant entry.Some? ==> entry.value in beingWritten && done <= entry.value
        invariant entry.Some? ==> forall t <- beingWritten | done <= t :: entry.value <= t
        invariant entry == None ==> forall t <- beingWritten :: t < done
        invariant todo <= was.Keys && forall t <- was :: done <= t <==> t in todo
        decreases todo
      {
        var t := entry.value;
        todo := set t' | t' in todo && t < t';
        if beingWritten[t] > i {
          beingWritten := beingWritten - {t};
        }
        done := t + 1;
        entry := LowerBound(beingWritten, t + 1);
      }
    }

    method LogEntries(start: nat, end: nat) returns (ret: seq<LogEntry>)
      requires Valid() && startIdx <= start <= end <= Abs().Next()
      ensures ret == Abs().Slice(start, end)
    {
      ret := [];
      for ii := start to end
        invariant ret == Abs().Slice(start, ii)
      {
        ret := ret + [logs[ii]];
      }
    }

    method LogEntriesExt(start: nat, end: nat, hint: int) returns (ret: seq<LogEntry>)
      requires Valid() && startIdx <= start <= end <= Abs().Next()
      ensures IsBatch(Abs(), start, end, hint, ret)
    {
      ret := [];
      if hint < 0 {
        NothingIsBatch(Abs(), start, end, hint);
        return;
      }
      ghost var log := Abs();
      var accum: nat := 0;
      for ii := start to end
        invariant ReadSoFar(log, start, ii, hint, ret, accum)
        invariant ii == end ==> IsBatch(log, start, end, hint, ret)
      {
        EntryInRange(logs, startIdx, ii);
        ReadOn(log, start, ii, end, hint, ret, accum);
        ret := ret + [logs[ii]];
        accum := accum + |logs[ii].payload|;
        if hint != 0 && accum >= hint {
          break;
        }
      }
    }

    method Pack(index: nat, cnt: nat) returns (buf: Buffer)
      requires Valid() && startIdx <= index && index + cnt <= Abs().Next()
      ensures fresh(buf) && fresh(buf.data) && buf.Valid() && buf.pos == buf.data.Length
      ensures buf.data[..] == EncodePack(Abs().Slice(index, index + cnt))
    {
      ghost var es := Abs().Slice(index, index + cnt);
      var bufs: seq<Bytes> := [];
      var total := 0;
      for ii := index to index + cnt
        invariant |bufs| == ii - index && forall j | 0 <= j < |bufs| :: bufs[j] == EncodeEntry(es[j])
        invariant 0 <= total && total + |bufs| * I32_SIZE + |EncodeBody(es[|bufs|..])| == |EncodeBody(es)|
      {
        assert es[|bufs|..][1..] == es[|bufs| + 1..];
        var enc := EncodeEntry(logs[ii]);
        bufs := bufs + [enc];
        total := total + |enc|;
      }
      buf := WritePack(es, bufs, total);
    }

    /** The second half of `pack`: allocate once, then copy the parts in. */
    static method WritePack(ghost es: seq<LogEntry>, bufs: seq<Bytes>, total: nat) returns (buf: Buffer)
      requires |bufs| == |es| && forall j | 0 <= j < |bufs| :: bufs[j] == EncodeEntry(es[j])
      requires total + |es| * I32_SIZE == |EncodeBody(es)|
      ensures fresh(buf) && fresh(buf.data) && buf.Valid() && buf.pos == buf.data.Length
      ensures buf.data[..] == EncodePack(es)
    {
      buf := new Buffer.Alloc(I32_SIZE + |bufs| * I32_SIZE + total);
      buf.PutUint(|bufs|, I32_SIZE);
      for j := 0 to |bufs|
        invariant fresh(buf) && fresh(buf.data) && buf.Valid()
        invariant buf.data.Length == |EncodePack(es)|
        invariant buf.Written() + EncodeBody(es[j..]) == EncodePack(es)
      {
        BodyStep(es, j, buf.Written());
        PutPart(buf, bufs[j]);
      }
      assert buf.data[..] == buf.Written();
    }

    static method PutPart(buf: Buffer, part: Bytes)
      requires buf.Valid() && buf.pos + I32_SIZE + |part| <= buf.data.Length
      modifies buf`pos, buf.data
      ensures buf.Valid() && buf.Written() == old(buf.Written()) + (LE(|part|, I32_SIZE) + part)
    {
      buf.PutUint(|part|, I32_SIZE);
      buf.PutRaw(part);
    }

    /** One turn of the unpacking loop. */
    static method UnpackOne(buf: Buffer) returns (r: Option<LogEntry>)
      requires buf.Valid()
      modifies buf`pos
      ensures buf.Valid()
      ensures match DecodeNext(old(buf.Rest()))
              case None => r == None
              case Some((e, rest)) => r == Some(e) && buf.Rest() == rest
    {
      ghost var front := buf.Rest();
      var raw := buf.GetUint(I32_SIZE);
      if raw == None || Signed32(raw.value) < 0 {
        return None;
      }
      var size := Signed32(raw.value);
      var local := buf.GetRaw(size);
      if local == None {
        return None;
      }
      assert local.value == front[I32_SIZE..I32_SIZE + size];
      assert buf.Rest() == front[I32_SIZE + size..];
      r := DecodeEntry(local.value);
    }

    /** Entries read before a malformed pack is noticed stay in the map. */
    method ApplyPack(index: nat, pack: Bytes) returns (ok: bool)
      modifies `logs, `startIdx
      ensures (logs, ok) == (Overlay(old(logs), index, DecodePack(pack).0), DecodePack(pack).1)
      ensures if ok then IsRestart(logs, startIdx) else startIdx == old(startIdx)
      ensures ok && old(Valid()) && 1 <= index && old(Abs()).Touches(index, |DecodePack(pack).0|) ==>
                Valid() && Abs() == old(Abs()).Splice(index, DecodePack(pack).0) && logs[0] == old(logs[0])
    {
      var buf := new Buffer.Wrap(pack);
      var raw := buf.GetUint(I32_SIZE);
      if raw == None {
        return false;
      }
      ok := UnpackInto(buf, index, Signed32(raw.value));
      if !ok {
        return;
      }
      var entry := LowerBound(logs, 1);
      startIdx := if entry.Some? then entry.value else 1;
      if old(Valid()) && 1 <= index {
        SpliceContiguousIff(old(logs), old(startIdx), index, DecodePack(pack).0, startIdx);
        OverlayAt(old(logs), index, DecodePack(pack).0, 0);
      }
    }

    /** One turn of that loop with `n` entries to go: what is still to come makes up the rest. */
    method UnpackTurn(buf: Buffer, i: nat, ghost n: int) returns (more: bool)
      requires buf.Valid() && n > 0
      modifies `logs, buf`pos
      ensures buf.Valid()
      ensures Unpacked(old(logs), i, old(buf.Rest()), n)
              == if more then Unpacked(logs, i + 1, buf.Rest(), n - 1) else (logs, false)
    {
      var le := UnpackOne(buf);
      if le == None {
        return false;
      }
      UnpackStep(logs, i, old(buf.Rest()), n);
      logs := logs[i := le.value];
      return true;
    }

    /** The loop of `apply_pack`. */
    method UnpackInto(buf: Buffer, index: nat, n: int) returns (ok: bool)
      requires buf.Valid()
      modifies `logs, buf`pos
      ensures (logs, ok) == Unpacked(old(logs), index, old(buf.Rest()), n)
    {
      var ii := 0;
      while ii < n
        invariant 0 <= ii && buf.Valid()
        invariant Unpacked(logs, index + ii, buf.Rest(), n - ii) == Unpacked(old(logs), index, old(buf.Rest()), n)
      {
        var more := UnpackTurn(buf, index + ii, n - ii);
        if !more {
          return false;
        }
        ii := ii + 1;
      }
      return true;
    }

    method Compact(last: nat)
      requires Valid()
      modifies `logs, `startIdx
      ensures Valid() && Abs() == old(Abs()).Compact(last)
      ensures startIdx == Max(old(startIdx), last + 1)
      ensures forall k :: k in logs <==> k in old(logs) && (k == 0 || last < k)
      ensures forall k <- logs :: logs[k] == old(logs)[k]
    {
      for ii := startIdx to (if startIdx <= last then last + 1 else startIdx)
        invariant startIdx == old(startIdx)
        invariant logs == map k | k in old(logs) && !(startIdx <= k < ii) :: old(logs)[k]
      {
        if ii in logs {
          logs := logs - {ii};
        }
      }
      assert logs == CompactMap(old(logs), old(startIdx), last);
      CompactContiguous(old(logs), old(startIdx), last);
      if startIdx <= last {
        startIdx := last + 1;
      }
    }

    method Flush()
      requires Valid()
      modifies `lastDurable
      ensures lastDurable == Abs().Next() - 1
    {
      var next := NextSlot();
      lastDurable := next - 1;
    }

    method LastDurableIndex() returns (i: nat)
      requires Valid()
      ensures i == if diskDelay == 0 then Abs().Next() - 1 else lastDurable
    {
      var next := NextSlot();
      i := if diskDelay == 0 then next - 1 else lastDurable;
    }

    /** `set_disk_delay`; the thread it starts is `DiskTick`, turn by turn. */
    method SetDiskDelay(ms: nat)
      modifies `diskDelay
      ensures diskDelay == ms
    {
      diskDelay := ms;
    }

    /** One turn of the disk thread at time `now`; the result says whether Raft is notified. */
    method DiskTick(now: nat) returns (notify: bool)
      modifies `beingWritten, `lastDurable
      ensures lastDurable == DurableAfter(old(beingWritten), old(lastDurable), now)
      ensures beingWritten == PendingAfter(old(beingWritten), now)
      ensures forall t :: t in beingWritten <==> t in old(beingWritten) && now < t
      ensures notify <==> exists t <- old(beingWritten) :: t <= now
      ensures notify ==> exists t <- old(beingWritten) | t <= now ::
                lastDurable == old(beingWritten)[t] && forall u <- old(beingWritten) | u <= now :: u <= t
      ensures !notify ==> lastDurable == old(lastDurable)
    {
      ghost var was := beingWritten;
      ghost var removed: Option<nat> := None;
      notify := false;
      var entry := LowerBound(beingWritten, 0);
      while entry.Some? && entry.value <= now
        invariant beingWritten.Keys <= was.Keys
        invariant forall t <- beingWritten :: beingWritten[t] == was[t]
        invariant entry == None ==> beingWritten == map[]
        invariant entry.Some? ==> entry.value in beingWritten && forall t <- beingWritten :: entry.value <= t
        invariant notify == removed.Some?
        invariant removed == None ==> beingWritten == was && lastDurable == old(lastDurable)
        invariant removed.Some? ==> removed.value in was && removed.value <= now && lastDurable == was[removed.value]
        invariant removed.Some? ==> forall t <- was :: t in beingWritten <==> removed.value < t
        decreases beingWritten.Keys
      {
        lastDurable := beingWritten[entry.value];
        removed := entry;
        beingWritten := beingWritten - {entry.value};
        notify := true;
        entry := LowerBound(beingWritten, 0);
      }
    }
  }

  lemma BodyStep(es: seq<LogEntry>, j: nat, front: Bytes)
    requires j < |es|
    ensures front + EncodeBody(es[j..]) == front + EncodeNext(es[j]) + EncodeBody(es[j + 1..])
  {
    assert es[j..][1..] == es[j + 1..];
  }

  /** An entry read and stored leaves the same entries to be laid over the rest. */
  lemma UnpackStep(m: Logs, i: nat, bs: Bytes, n: int)
    requires n > 0 && DecodeNext(bs).Some?
    ensures var (e, rest) := DecodeNext(bs).value;
            Unpacked(m, i, bs, n) == Unpacked(m[i := e], i + 1, rest, n - 1)
  {
    var (e, rest) := DecodeNext(bs).value;
    var later := DecodeBody(rest, n - 1).0;
    assert DecodeBody(bs, n).0 == [e] + later;
    assert ([e] + later)[1..] == later;
  }
}
