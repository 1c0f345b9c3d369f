/** The log the store stands for: consecutive entries from a moving start, their wire form, and batches. */
module RaftLog {
  import opened Wire

  const APP_LOG: Byte := 1
  const CONF: Byte := 2

  /** An entry as far as the server reads it back. */
  datatype LogEntry = LogEntry(term: nat, kind: Byte, payload: Bytes)

  function Min(a: nat, b: nat): nat { if a <= b then a else b }

  function Max(a: nat, b: nat): nat { if a >= b then a else b }

  datatype Log = Log(start: nat, entries: seq<LogEntry>) {
    function Next(): nat {
      start + |entries|
    }

    predicate Has(i: nat) {
      start <= i < Next()
    }

    function At(i: nat): LogEntry
      requires Has(i)
    {
      entries[i - start]
    }

    function Slice(i: nat, j: nat): seq<LogEntry>
      requires start <= i <= j <= Next()
    {
      entries[i - start..j - start]
    }

    function Append(e: LogEntry): Log {
      Log(start, entries + [e])
    }

    function WriteAt(i: nat, e: LogEntry): Log
      requires start <= i <= Next()
    {
      Log(start, entries[..i - start] + [e])
    }

    /** Drop everything up to `last`, which may lie past the end. */
    function Compact(last: nat): Log {
      if last < start then this
      else if last < Next() then Log(last + 1, entries[last + 1 - start..])
      else Log(last + 1, [])
    }

    /** The entries `es` can be laid over the log at `i` without leaving a hole. */
    predicate Touches(i: nat, n: nat) {
      n == 0 || entries == [] || (i <= Next() && start <= i + n)
    }

    /** The log with `es` laid over it from `i`; laying nothing over an empty log resets its start. */
    function Splice(i: nat, es: seq<LogEntry>): Log
      requires Touches(i, |es|)
    {
      if entries == [] then Log(if es == [] then 1 else i, es)
      else if es == [] then this
      else
        Log(Min(start, i),
            (if start < i then entries[..i - start] else [])
            + es
            + (if i + |es| < Next() then entries[i + |es| - start..] else []))
    }
  }

  /** A log appended to has what it had and the entry at its next slot. */
  lemma AppendAt(log: Log, e: LogEntry, k: nat)
    ensures var r := log.Append(e);
            && r.start == log.start && r.Next() == log.Next() + 1
            && (r.Has(k) <==> log.Has(k) || k == log.Next())
            && (r.Has(k) ==> r.At(k) == if k == log.Next() then e else log.At(k))
  {
  }

  /** A log written at `i` has the entry there, what it had below, and nothing above. */
  lemma WriteAtAt(log: Log, i: nat, e: LogEntry, k: nat)
    requires log.start <= i <= log.Next()
    ensures var r := log.WriteAt(i, e);
            && r.start == log.start && r.Next() == i + 1
            && (r.Has(k) <==> k == i || (log.Has(k) && k < i))
            && (r.Has(k) ==> r.At(k) == if k == i then e else log.At(k))
  {
  }

  /** A compacted log has just the entries above `last`, and starts and ends above it. */
  lemma CompactAt(log: Log, last: nat, k: nat)
    ensures var r := log.Compact(last);
            && (r.Has(k) <==> log.Has(k) && last < k)
            && (r.Has(k) ==> r.At(k) == log.At(k))
            && r.start == Max(log.start, last + 1) && r.Next() == Max(log.Next(), last + 1)
  {
  }

  /** Where each entry of a spliced log comes from. */
  lemma SpliceAt(log: Log, i: nat, es: seq<LogEntry>, k: nat)
    requires log.Touches(i, |es|)
    ensures var r := log.Splice(i, es);
            && (r.Has(k) <==> i <= k < i + |es| || log.Has(k))
            && (i <= k < i + |es| ==> r.At(k) == es[k - i])
            && (log.Has(k) && !(i <= k < i + |es|) ==> r.At(k) == log.At(k))
  {
  }

  /** Laying nothing over a log leaves it alone except when it is empty and does not start at 1. */
  lemma SpliceNothingIff(log: Log, i: nat)
    ensures log.Splice(i, []) == log <==> log.entries != [] || log.start == 1
  {
  }

  /** The next slot goes back exactly when the log is empty, having been compacted, and what is laid
      over it ends before its start; otherwise it goes on to where the new entries end, if further. */
  lemma SpliceGoesBackIff(log: Log, i: nat, es: seq<LogEntry>)
    requires log.Touches(i, |es|)
    ensures var end := if es == [] then 1 else i + |es|;
            log.Splice(i, es).Next() < log.Next() <==> log.entries == [] && end < log.start
    ensures log.entries != [] ==>
              log.Splice(i, es).Next() == if es != [] && log.Next() < i + |es| then i + |es| else log.Next()
  {
    var r := log.Splice(i, es);
    if log.entries != [] && es != [] {
      var front := if log.start < i then log.entries[..i - log.start] else [];
      var back := if i + |es| < log.Next() then log.entries[i + |es| - log.start..] else [];
      assert |r.entries| == |front| + |es| + |back|;
    }
  }

  /** An emptied log of which 4 entries were compacted starts over at 1. */
  lemma SpliceNothingExample()
    ensures Log(5, []).Splice(5, []) == Log(1, []) && Log(1, []).Next() < Log(5, []).Next()
  {
  }

  // ---- Wire form of entries and packs ----

  const ENTRY_HEADER := U64_SIZE + U8_SIZE

  function EncodeEntry(e: LogEntry): Bytes {
    LE(e.term, U64_SIZE) + [e.kind] + e.payload
  }

  function DecodeEntry(bs: Bytes): Option<LogEntry> {
    if |bs| < ENTRY_HEADER then None
    else Some(LogEntry(FromLE(bs[..U64_SIZE]), bs[U64_SIZE], bs[ENTRY_HEADER..]))
  }

  /** The term and the encoded size fit their fields. */
  predicate Packable(e: LogEntry) {
    e.term < TWO_64 && |EncodeEntry(e)| < TWO_31
  }

  predicate AllPackable(es: seq<LogEntry>) {
    |es| < TWO_31 && forall i | 0 <= i < |es| :: Packable(es[i])
  }

  function EncodeNext(e: LogEntry): Bytes {
    LE(|EncodeEntry(e)|, I32_SIZE) + EncodeEntry(e)
  }

  function EncodeBody(es: seq<LogEntry>): Bytes {
    if es == [] then [] else EncodeNext(es[0]) + EncodeBody(es[1..])
  }

  function EncodePack(es: seq<LogEntry>): Bytes {
    LE(|es|, I32_SIZE) + EncodeBody(es)
  }

  function Signed32(n: nat): int {
    if n < TWO_31 then n else n - 2 * TWO_31
  }

  /** What one turn of the unpacking loop reads: an entry and what follows it. */
  function DecodeNext(bs: Bytes): Option<(LogEntry, Bytes)> {
    if |bs| < I32_SIZE then None
    else
      var size := Signed32(FromLE(bs[..I32_SIZE]));
      if size < 0 || |bs| - I32_SIZE < size then None
      else
        match DecodeEntry(bs[I32_SIZE..I32_SIZE + size])
        case None => None
        case Some(e) => Some((e, bs[I32_SIZE + size..]))
  }

  /** The entries read before the unpacking loop ends, and whether it ran to its end. */
  function DecodeBody(bs: Bytes, n: int): (seq<LogEntry>, bool)
    decreases if n < 0 then 0 else n
  {
    if n <= 0 then ([], true)
    else
      match DecodeNext(bs)
      case None => ([], false)
      case Some((e, rest)) =>
        var (es, ok) := DecodeBody(rest, n - 1);
        ([e] + es, ok)
  }

  function DecodePack(bs: Bytes): (seq<LogEntry>, bool) {
    if |bs| < I32_SIZE then ([], false)
    else DecodeBody(bs[I32_SIZE..], Signed32(FromLE(bs[..I32_SIZE])))
  }

  lemma DecodeEncodeEntry(e: LogEntry)
    requires e.term < TWO_64
    ensures DecodeEntry(EncodeEntry(e)) == Some(e)
  {
    Pow256Values();
    FromLEOfLE(e.term, U64_SIZE);
    assert EncodeEntry(e)[..U64_SIZE] == LE(e.term, U64_SIZE);
    assert EncodeEntry(e)[ENTRY_HEADER..] == e.payload;
  }

  lemma DecodeEncodeNext(e: LogEntry, rest: Bytes)
    requires Packable(e)
    ensures DecodeNext(EncodeNext(e) + rest) == Some((e, rest))
  {
    var enc := EncodeEntry(e);
    var bs := EncodeNext(e) + rest;
    Pow256Values();
    FromLEOfLE(|enc|, I32_SIZE);
    DecodeEncodeEntry(e);
    assert bs[..I32_SIZE] == LE(|enc|, I32_SIZE);
    assert bs[I32_SIZE..I32_SIZE + |enc|] == enc;
    assert bs[I32_SIZE + |enc|..] == rest;
  }

  lemma {:induction false} DecodeEncodeBody(es: seq<LogEntry>)
    requires forall i | 0 <= i < |es| :: Packable(es[i])
    ensures DecodeBody(EncodeBody(es), |es|) == (es, true)
  {
    if es != [] {
      DecodeEncodeNext(es[0], EncodeBody(es[1..]));
      DecodeEncodeBody(es[1..]);
      assert [es[0]] + es[1..] == es;
    }
  }

  /** A pack of one entry of term 2 and a payload of one byte: how many entries, the entry's size, its
      term, its type and its payload. */
  lemma PackExample()
    ensures EncodePack([LogEntry(2, APP_LOG, [7])])
            == [1, 0, 0, 0] + [10, 0, 0, 0] + [2, 0, 0, 0, 0, 0, 0, 0] + [1] + [7]
  {
    var e := LogEntry(2, APP_LOG, [7]);
    LEZero(3);
    LEZero(7);
    assert LE(1, 4) == [1] + LE(0, 3) == [1, 0, 0, 0];
    assert LE(2, 8) == [2] + LE(0, 7) == [2, 0, 0, 0, 0, 0, 0, 0];
    assert LE(10, 4) == [10] + LE(0, 3) == [10, 0, 0, 0];
    assert |EncodeEntry(e)| == 10;
    assert EncodeBody([e]) == EncodeNext(e) + [];
  }

  lemma {:induction false} LEZero(w: nat)
    ensures LE(0, w) == seq(w, _ => 0)
  {
    if w > 0 {
      LEZero(w - 1);
    }
  }

  /** Unpacking undoes packing. */
  lemma DecodeEncodePack(es: seq<LogEntry>)
    requires AllPackable(es)
    ensures DecodePack(EncodePack(es)) == (es, true)
  {
    Pow256Values();
    FromLEOfLE(|es|, I32_SIZE);
    assert EncodePack(es)[..I32_SIZE] == LE(|es|, I32_SIZE);
    assert EncodePack(es)[I32_SIZE..] == EncodeBody(es);
    DecodeEncodeBody(es);
  }

  /** Some entry, encoded with its size, is at the front of `bs`. */
  ghost predicate StartsWithEntry(bs: Bytes) {
    exists e, rest :: Packable(e) && bs == EncodeNext(e) + rest
  }

  lemma EncodeDecodeEntry(bs: Bytes)
    requires DecodeEntry(bs).Some?
    ensures EncodeEntry(DecodeEntry(bs).value) == bs && DecodeEntry(bs).value.term < TWO_64
  {
    LEOfFromLE(bs[..U64_SIZE]);
    Pow256Values();
    assert bs == bs[..U64_SIZE] + [bs[U64_SIZE]] + bs[ENTRY_HEADER..];
  }

  /** What a turn of the loop reads was an encoded entry and what follows it. */
  lemma EncodeDecodeNext(bs: Bytes)
    requires DecodeNext(bs).Some?
    ensures var (e, rest) := DecodeNext(bs).value; Packable(e) && EncodeNext(e) + rest == bs
  {
    var size := Signed32(FromLE(bs[..I32_SIZE]));
    var enc := bs[I32_SIZE..I32_SIZE + size];
    LEOfFromLE(bs[..I32_SIZE]);
    Pow256Values();
    EncodeDecodeEntry(enc);
    assert bs == bs[..I32_SIZE] + enc + bs[I32_SIZE + size..];
  }

  lemma DecodeNextIff(bs: Bytes)
    ensures DecodeNext(bs).Some? <==> StartsWithEntry(bs)
  {
    if DecodeNext(bs).Some? {
      EncodeDecodeNext(bs);
    }
    if e, rest :| Packable(e) && bs == EncodeNext(e) + rest {
      DecodeEncodeNext(e, rest);
    }
  }

  /** From the front of `bs` the encoded entries `es` are read: the `n` to be read, or those before bytes
      that do not start with one. */
  ghost predicate ReadsOff(bs: Bytes, n: int, es: seq<LogEntry>, ok: bool, rest: Bytes) {
    && bs == EncodeBody(es) + rest
    && if ok then |es| == (if n < 0 then 0 else n) else |es| < n && !StartsWithEntry(rest)
  }

  lemma ReadsOneMore(bs: Bytes, n: int, es: seq<LogEntry>, ok: bool, rest: Bytes)
    requires n > 0 && DecodeNext(bs).Some? && ReadsOff(DecodeNext(bs).value.1, n - 1, es, ok, rest)
    ensures ReadsOff(bs, n, [DecodeNext(bs).value.0] + es, ok, rest)
  {
    EncodeDecodeNext(bs);
    BodyCons(DecodeNext(bs).value.0, es, rest);
  }

  lemma ReadsNoMore(bs: Bytes, n: int)
    requires n <= 0 || DecodeNext(bs) == None
    ensures ReadsOff(bs, n, [], n <= 0, bs)
  {
    DecodeNextIff(bs);
    assert [] + bs == bs;
  }

  /** Whatever the bytes, the unpacking loop reads encoded entries one after another from their front. */
  lemma {:induction false} DecodeBodyReads(bs: Bytes, n: int) returns (rest: Bytes)
    ensures ReadsOff(bs, n, DecodeBody(bs, n).0, DecodeBody(bs, n).1, rest)
    decreases if n < 0 then 0 else n
  {
    if n <= 0 || DecodeNext(bs) == None {
      ReadsNoMore(bs, n);
      rest := bs;
    } else {
      var bs' := DecodeNext(bs).value.1;
      rest := DecodeBodyReads(bs', n - 1);
      ReadsOneMore(bs, n, DecodeBody(bs', n - 1).0, DecodeBody(bs', n - 1).1, rest);
    }
  }

  lemma BodyCons(e: LogEntry, es: seq<LogEntry>, rest: Bytes)
    ensures EncodeBody([e] + es) + rest == EncodeNext(e) + (EncodeBody(es) + rest)
  {
    assert ([e] + es)[1..] == es;
    Assoc(EncodeNext(e), EncodeBody(es), rest);
  }

  /** A 32-bit field with its highest bit set is negative: a pack with such a count has no entries, and
      an entry with such a size ends the loop. */
  lemma NegativeFields(bs: Bytes)
    requires |bs| >= I32_SIZE && bs[3] >= 128
    ensures DecodePack(bs) == ([], true) && DecodeNext(bs) == None
  {
    HighestBit(bs[..I32_SIZE]);
  }

  lemma HighestBit(bs: Bytes)
    requires |bs| == I32_SIZE
    ensures TWO_31 <= FromLE(bs) < 2 * TWO_31 <==> bs[3] >= 128
  {
    var (b1, b2, b3) := (bs[1..], bs[1..][1..], bs[1..][1..][1..]);
    assert b3[1..] == [];
    assert FromLE(b3) == bs[3] && FromLE(b2) == bs[2] + 256 * FromLE(b3) && FromLE(b1) == bs[1] + 256 * FromLE(b2);
  }

  // ---- Batches ----

  /** The payload bytes in the first `n` entries. */
  function PayloadSize(es: seq<LogEntry>, n: nat): nat
    requires n <= |es|
  {
    if n == 0 then 0 else PayloadSize(es, n - 1) + |es[n - 1].payload|
  }

  lemma {:induction false} PayloadSizePrefix(es: seq<LogEntry>, m: nat, n: nat)
    requires n <= m <= |es|
    ensures PayloadSize(es[..m], n) == PayloadSize(es, n)
  {
    if n > 0 {
      PayloadSizePrefix(es, m, n - 1);
    }
  }

  /** `batch` is what one batched read of [start, end) returns: the shortest run of entries whose
      payload reaches a positive hint, everything when that is never reached or the hint is zero,
      and nothing at all for a negative hint. */
  ghost predicate IsBatch(log: Log, start: nat, end: nat, hint: int, batch: seq<LogEntry>)
    requires log.start <= start <= end <= log.Next()
  {
    && |batch| <= end - start
    && batch == log.Slice(start, start + |batch|)
    && (hint < 0 ==> batch == [])
    && (hint >= 0 && start < end ==> batch != [])
    && (hint >= 0 && |batch| < end - start ==> 0 < hint <= PayloadSize(batch, |batch|))
    && (hint > 0 ==> forall n: nat | 0 < n < |batch| :: PayloadSize(batch, n) < hint)
  }

  lemma BatchUnique(log: Log, start: nat, end: nat, hint: int, a: seq<LogEntry>, b: seq<LogEntry>)
    requires log.start <= start <= end <= log.Next()
    requires IsBatch(log, start, end, hint, a) && IsBatch(log, start, end, hint, b)
    ensures a == b
    decreases |a| > |b|
  {
    if |a| <= |b| {
      SlicePrefix(log, start, start + |b|, |a|);
      PayloadSizePrefix(b, |a|, |a|);
      assert a == b[..|a|];
    } else {
      BatchUnique(log, start, end, hint, b, a);
    }
  }

  lemma SliceSplit(log: Log, i: nat, j: nat, k: nat)
    requires log.start <= i <= j <= k <= log.Next()
    ensures log.Slice(i, j) + log.Slice(j, k) == log.Slice(i, k)
  {
  }

  lemma SlicePrefix(log: Log, start: nat, end: nat, n: nat)
    requires log.start <= start && start + n <= end <= log.Next()
    ensures log.Slice(start, end)[..n] == log.Slice(start, start + n)
  {
  }

  /** No prefix of up to `n` entries reaches the hint. */
  ghost predicate StaysBelow(es: seq<LogEntry>, n: nat, hint: nat)
    requires n <= |es|
  {
    hint > 0 ==> forall m: nat | 0 < m <= n :: PayloadSize(es, m) < hint
  }

  /** The shape in which a reader finds a batch: a prefix of the range, no shorter prefix reaching the hint. */
  lemma PrefixIsBatch(log: Log, start: nat, end: nat, hint: nat, n: nat)
    requires log.start <= start && start + n <= end <= log.Next()
    requires start < end ==> 0 < n
    requires n < end - start ==> 0 < hint <= PayloadSize(log.Slice(start, end), n)
    requires n > 0 ==> StaysBelow(log.Slice(start, end), n - 1, hint)
    ensures IsBatch(log, start, end, hint, log.Slice(start, end)[..n])
  {
    SlicePrefix(log, start, end, n);
    var all := log.Slice(start, end);
    forall m: nat | m <= n ensures PayloadSize(all[..n], m) == PayloadSize(all, m) {
      PayloadSizePrefix(all, n, m);
    }
  }

  lemma NothingIsBatch(log: Log, start: nat, end: nat, hint: int)
    requires log.start <= start <= end <= log.Next() && hint < 0
    ensures IsBatch(log, start, end, hint, [])
  {
  }

  /** A batched read of entries from `start` that has come to `i` without reaching the hint. */
  ghost predicate ReadSoFar(log: Log, start: nat, i: nat, hint: nat, ret: seq<LogEntry>, size: nat)
    requires log.start <= start <= i <= log.Next()
  {
    && ret == log.Slice(start, i)
    && size == PayloadSize(ret, |ret|)
    && StaysBelow(ret, |ret|, hint)
  }

  /** One more entry: the read goes on, or is a batch because the hint is reached or the end is. */
  lemma ReadOn(log: Log, start: nat, i: nat, end: nat, hint: nat, ret: seq<LogEntry>, size: nat)
    requires log.start <= start <= i < end <= log.Next() && ReadSoFar(log, start, i, hint, ret, size)
    ensures var (ret', size') := (ret + [log.At(i)], size + |log.At(i).payload|);
            && (if hint != 0 && size' >= hint then IsBatch(log, start, end, hint, ret')
                else ReadSoFar(log, start, i + 1, hint, ret', size'))
            && (i + 1 == end ==> IsBatch(log, start, end, hint, ret'))
  {
    var ret' := ret + [log.At(i)];
    var n := |ret|;
    assert ret'[..n] == ret && ret' == log.Slice(start, i + 1);
    forall m: nat | m <= n ensures PayloadSize(ret', m) == PayloadSize(ret, m) {
      PayloadSizePrefix(ret', n, m);
    }
    assert PayloadSize(ret', n + 1) == PayloadSize(ret', n) + |ret'[n].payload|;
  }

  /** Batched reads, each starting where the one before it ended, until `end` is reached. */
  ghost predicate BatchRun(log: Log, start: nat, end: nat, hint: int, batches: seq<seq<LogEntry>>)
    requires log.start <= start <= end <= log.Next()
    decreases |batches|
  {
    if batches == [] then start == end
    else
      && start < end
      && IsBatch(log, start, end, hint, batches[0])
      && BatchRun(log, start + |batches[0]|, end, hint, batches[1..])
  }

  function Flatten(batches: seq<seq<LogEntry>>): seq<LogEntry> {
    if batches == [] then [] else batches[0] + Flatten(batches[1..])
  }

  /** Whatever the hint, a finished run of batched reads has read each entry once and in order. */
  lemma {:induction false} BatchRunReadsAll(log: Log, start: nat, end: nat, hint: int, batches: seq<seq<LogEntry>>)
    requires log.start <= start <= end <= log.Next()
    requires BatchRun(log, start, end, hint, batches)
    ensures Flatten(batches) == log.Slice(start, end)
    ensures |batches| <= end - start
    decreases |batches|
  {
    if batches != [] {
      if batches[0] == [] {
        BatchRunReadsAll(log, start, end, hint, batches[1..]);
        assert hint < 0;
        NegativeHintNeverAdvances(log, start, end, hint, batches);
      } else {
        BatchRunReadsAll(log, start + |batches[0]|, end, hint, batches[1..]);
        SliceSplit(log, start, start + |batches[0]|, end);
      }
    }
  }

  /** With a negative hint it never does: every read comes back empty. */
  lemma {:induction false} NegativeHintNeverAdvances(log: Log, start: nat, end: nat, hint: int, batches: seq<seq<LogEntry>>)
    requires log.start <= start < end <= log.Next() && hint < 0
    ensures !BatchRun(log, start, end, hint, batches)
    decreases |batches|
  {
    if batches != [] {
      NegativeHintNeverAdvances(log, start, end, hint, batches[1..]);
    }
  }

  /** With a hint that is not negative, batched reading does come to its end. */
  lemma {:induction false} SomeBatchRun(log: Log, start: nat, end: nat, hint: nat) returns (batches: seq<seq<LogEntry>>)
    requires log.start <= start <= end <= log.Next()
    ensures BatchRun(log, start, end, hint, batches)
    decreases end - start
  {
    if start == end {
      return [];
    }
    var all := log.Slice(start, end);
    var n := 1;
    while n < end - start && (hint == 0 || PayloadSize(all, n) < hint)
      invariant 1 <= n <= end - start
      invariant StaysBelow(all, n - 1, hint)
    {
      n := n + 1;
    }
    var batch := all[..n];
    PrefixIsBatch(log, start, end, hint, n);
    var rest := SomeBatchRun(log, start + n, end, hint);
    batches := [batch] + rest;
    assert batches[1..] == rest;
  }
}
