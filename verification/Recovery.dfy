/** Recovering a logger's revisions from the names of its files when it starts. */
module Recovery {
  import opened Wire
  import opened Rotation

  const TAR_GZ := ".tar.gz"

  // ---- Library functions on strings ----

  /** The decimal digits of `n`. */
  function Decimal(n: nat): (s: string)
    ensures s != "" && forall i | 0 <= i < |s| :: IsDigit(s[i])
  {
    if n < 10 then ["0123456789"[n]] else Decimal(n / 10) + ["0123456789"[n % 10]]
  }

  predicate IsDigit(c: char) {
    '0' <= c <= '9'
  }

  predicate IsSpace(c: char) {
    c in " \t\n\r" || c == 11 as char || c == 12 as char
  }

  /** The value of the digits at the front of `s`, read on from `acc`. */
  function Digits(s: string, acc: nat): nat {
    if s == "" || !IsDigit(s[0]) then acc else Digits(s[1..], 10 * acc + (s[0] as int - '0' as int))
  }

  /** `atoi`, without the overflow it leaves undefined. */
  function Atoi(s: string): int {
    if s == "" then 0
    else if IsSpace(s[0]) then Atoi(s[1..])
    else if s[0] == '-' then 0 - Digits(s[1..], 0)
    else if s[0] == '+' then Digits(s[1..], 0)
    else Digits(s, 0)
  }

  /** An `int` assigned to a `size_t`. */
  function SizeT(v: int): nat {
    if v >= 0 then v else if v > -TWO_64 then v + TWO_64 else 0
  }

  /** One more, as a `size_t`. */
  function Succ(n: nat): nat {
    if n + 1 == TWO_64 then 0 else n + 1
  }

  /** `rfind(".")`, -1 if there is none. */
  function LastDot(s: string): (d: int)
    ensures -1 <= d < |s| && (d >= 0 ==> s[d] == '.') && forall i | d < i < |s| :: s[i] != '.'
  {
    if s == "" then -1 else if s[|s| - 1] == '.' then |s| - 1 else LastDot(s[..|s| - 1])
  }

  predicate PartAt(name: string, part: string, i: nat) {
    i + |part| <= |name| && name[i..i + |part|] == part
  }

  predicate Contains(name: string, part: string) {
    exists i: nat | i <= |name| :: PartAt(name, part, i)
  }

  // ---- The code ----

  /** `getLogFilePath`, within the log directory. */
  function PathOf(base: string, rev: nat): string {
    if rev != 0 then base + "." + Decimal(rev) else base
  }

  /** The range found so far; `init` says whether `min` has been set. */
  datatype Found = Found(init: bool, min: nat, max: nat)

  function Seen(f: Found, rev: nat, comp: bool): Found {
    Found(true,
          if f.init && f.min <= rev then f.min else rev,
          if f.max >= Top(rev, comp) then f.max else Top(rev, comp))
  }

  /** An archive stands for a later revision still open. */
  function Top(rev: nat, comp: bool): nat {
    if comp then Succ(rev) else rev
  }

  /** The revision a name is read as, and whether as an archive; `None` if the name is passed over. */
  function Reading(name: string): Option<(nat, bool)> {
    var dot := LastDot(name);
    if dot < 0 then None
    else if name[dot + 1..] == "gz" && |name| > |TAR_GZ| then
      var stem := name[..|name| - |TAR_GZ|];
      var dot' := LastDot(stem);
      if dot' < 0 then None else Some((SizeT(Atoi(stem[dot' + 1..])), true))
    else Some((SizeT(Atoi(name[dot + 1..])), false))
  }

  /** `findMinMaxRevNumInternal`. */
  function Scan(f: Found, name: string): Found {
    match Reading(name)
    case None => f
    case Some((rev, comp)) => Seen(f, rev, comp)
  }

  function ScanAll(f: Found, base: string, names: seq<string>): Found
    decreases |names|
  {
    if names == [] then f
    else ScanAll(if Contains(names[0], base) then Scan(f, names[0]) else f, base, names[1..])
  }

  method FindMinMaxRevNum(base: string, names: seq<string>) returns (min: nat, max: nat)
    ensures min == Recovered(base, names).min && max == Recovered(base, names).max
    ensures IsRange(base, names, min, max)
  {
    var f := Found(false, 0, 0);
    for ii := 0 to |names|
      invariant ScanAll(f, base, names[ii..]) == Recovered(base, names)
    {
      assert names[ii..][1..] == names[ii + 1..];
      if Contains(names[ii], base) {
        f := Scan(f, names[ii]);
      }
    }
    min, max := f.min, f.max;
    RecoveredIsTheRange(base, names);
  }

  function Recovered(base: string, names: seq<string>): Found {
    ScanAll(Found(false, 0, 0), base, names)
  }

  // ---- What a name says ----

  lemma {:induction false} LastDotOfParts(a: string, b: string)
    requires '.' !in b
    ensures LastDot(a + "." + b) == |a|
  {
    var s := a + "." + b;
    if b == "" {
      assert s[|s| - 1] == '.';
    } else {
      assert s[|s| - 1] == b[|b| - 1] && s[..|s| - 1] == a + "." + b[..|b| - 1];
      LastDotOfParts(a, b[..|b| - 1]);
    }
  }

  lemma {:induction false} DigitsSnoc(s: string, c: char, acc: nat)
    requires IsDigit(c) && forall i | 0 <= i < |s| :: IsDigit(s[i])
    ensures Digits(s + [c], acc) == 10 * Digits(s, acc) + (c as int - '0' as int)
    decreases |s|
  {
    if s == "" {
      assert (s + [c])[1..] == "";
    } else {
      assert (s + [c])[1..] == s[1..] + [c];
      DigitsSnoc(s[1..], c, 10 * acc + (s[0] as int - '0' as int));
    }
  }

  lemma {:induction false} DigitsDecimal(n: nat)
    ensures Digits(Decimal(n), 0) == n
  {
    if n < 10 {
      assert Decimal(n)[1..] == "";
    } else {
      DigitsDecimal(n / 10);
      DigitsSnoc(Decimal(n / 10), "0123456789"[n % 10], 0);
    }
  }

  lemma {:induction false} DigitsStop(s: string, rest: string, acc: nat)
    requires (forall i | 0 <= i < |s| :: IsDigit(s[i])) && (rest == "" || !IsDigit(rest[0]))
    ensures Digits(s + rest, acc) == Digits(s, acc)
    decreases |s|
  {
    if s != "" {
      assert (s + rest)[1..] == s[1..] + rest;
      DigitsStop(s[1..], rest, 10 * acc + (s[0] as int - '0' as int));
    } else {
      assert s + rest == rest;
    }
  }

  /** Blanks, a sign and digits are read as the number they print, up to what is not a digit. */
  lemma {:induction false} AtoiReads(blanks: string, sign: string, n: nat, rest: string)
    requires (forall i | 0 <= i < |blanks| :: IsSpace(blanks[i])) && sign in ["", "-", "+"]
    requires rest == "" || !IsDigit(rest[0])
    ensures Atoi(blanks + (sign + (Decimal(n) + rest))) == if sign == "-" then 0 - n else n
    decreases |blanks|
  {
    var tail := sign + (Decimal(n) + rest);
    if blanks != "" {
      assert (blanks + tail)[1..] == blanks[1..] + tail;
      AtoiReads(blanks[1..], sign, n, rest);
    } else {
      assert blanks + tail == tail;
      DigitsStop(Decimal(n), rest, 0);
      DigitsDecimal(n);
      assert IsDigit(Decimal(n)[0]) && (Decimal(n) + rest)[0] == Decimal(n)[0];
      if sign == "" {
        assert tail == Decimal(n) + rest;
      } else {
        assert tail[1..] == Decimal(n) + rest;
      }
    }
  }

  /** Reading a printed number gives the number. */
  lemma AtoiDecimal(n: nat)
    ensures Atoi(Decimal(n)) == n
  {
    DigitsDecimal(n);
    assert IsDigit(Decimal(n)[0]);
  }

  /** A name that ends in a dot and a part without one is read from that part. */
  lemma ReadingOfParts(a: string, b: string)
    requires '.' !in b && b != "gz"
    ensures Reading(a + "." + b) == Some((SizeT(Atoi(b)), false))
  {
    LastDotOfParts(a, b);
    assert (a + "." + b)[|a| + 1..] == b;
  }

  /** A negative number is read as what it wraps to, and the revision after the last one wraps to 0. */
  lemma ReadingNegative(a: string, n: nat)
    requires 0 < n <= TWO_31
    ensures Reading(a + "." + ("-" + Decimal(n))) == Some((TWO_64 - n, false)) && Top(TWO_64 - 1, true) == 0
  {
    AtoiReads("", "-", n, "");
    assert "" + ("-" + (Decimal(n) + "")) == "-" + Decimal(n);
    NoDot(Decimal(n));
    assert ("-" + Decimal(n))[0] == '-';
    ReadingOfParts(a, "-" + Decimal(n));
  }

  /** Any seven characters that end in ".gz" are cut off, and the end of what is before them is read. */
  lemma ReadingOfGz(a: string, b: string, seven: string)
    requires '.' !in b && |seven| == 7 && seven[4..] == ".gz"
    ensures Reading(a + "." + b + seven) == Some((SizeT(Atoi(b)), true))
    ensures b != "" ==> Reading(b + seven) == None
  {
    GzReading(a + "." + b, seven);
    LastDotOfParts(a, b);
    assert (a + "." + b)[|a| + 1..] == b;
    if b != "" {
      GzReading(b, seven);
    }
  }

  lemma GzReading(path: string, seven: string)
    requires path != "" && |seven| == 7 && seven[4..] == ".gz"
    ensures Reading(path + seven)
            == var dot := LastDot(path); if dot < 0 then None else Some((SizeT(Atoi(path[dot + 1..])), true))
  {
    var name := path + seven;
    assert seven == seven[..4] + "." + "gz";
    assert name == (path + seven[..4]) + "." + "gz";
    LastDotOfParts(path + seven[..4], "gz");
    assert name[|path| + 5..] == "gz";
    assert name[..|name| - |TAR_GZ|] == path;
  }

  /** A name is passed over exactly when it has no dot, or none before seven characters so cut off. */
  lemma PassedOverIff(name: string)
    ensures Reading(name) == None <==> '.' !in name || exists stem, seven: string :: GzOf(name, stem, seven)
  {
    if stem, seven :| GzOf(name, stem, seven) {
      GzReading(stem, seven);
    }
    if Reading(name) == None && '.' in name {
      GzEnd(name);
      assert GzOf(name, name[..|name| - 7], name[|name| - 7..]);
    }
  }

  lemma GzEnd(name: string)
    requires |name| > 7 && '.' in name && name[LastDot(name) + 1..] == "gz"
    ensures name == name[..|name| - 7] + name[|name| - 7..] && name[|name| - 7..][4..] == ".gz"
  {
    var (n, dot) := (|name| - 7, LastDot(name));
    assert dot >= 0 && |name[dot + 1..]| == 2;
    assert name[n..][4..] == [name[dot]] + name[dot + 1..];
  }

  predicate GzOf(name: string, stem: string, seven: string) {
    name == stem + seven && stem != "" && '.' !in stem && |seven| == 7 && seven[4..] == ".gz"
  }

  /** A base name from whose own end the code reads revision 0: it has a dot, what follows the last
      dot reads as zero, and it is not itself taken for an archive. */
  predicate ReadsAsZero(base: string) {
    var dot := LastDot(base);
    && dot >= 0
    && !(base[dot + 1..] == "gz" && |base| > |TAR_GZ|)
    && Atoi(base[dot + 1..]) == 0
  }

  /** The name of a rotated file is read as its revision, for any base name. */
  lemma ReadingRotated(base: string, rev: nat)
    requires 0 < rev < TWO_31
    ensures Reading(PathOf(base, rev)) == Some((rev, false))
  {
    var digits := Decimal(rev);
    assert digits != "gz" by {
      assert IsDigit(digits[0]);
    }
    NoDot(digits);
    ReadingOfParts(base, digits);
    AtoiDecimal(rev);
  }

  lemma NoDot(s: string)
    requires forall i | 0 <= i < |s| :: IsDigit(s[i])
    ensures '.' !in s
  {
  }

  /** The archive of a rotated file is read as its revision for any base name, that of the first file
      for one that reads as zero. */
  lemma ReadingPacked(base: string, rev: nat)
    requires rev < TWO_31 && (rev == 0 ==> ReadsAsZero(base))
    ensures Reading(PathOf(base, rev) + TAR_GZ) == Some((rev, true))
  {
    var path := PathOf(base, rev);
    GzReading(path, TAR_GZ);
    if rev != 0 {
      NoDot(Decimal(rev));
      LastDotOfParts(base, Decimal(rev));
      assert path[|base| + 1..] == Decimal(rev);
      AtoiDecimal(rev);
    }
  }

  // ---- What a directory says ----

  /** A name in the directory: one of the logger's files, or any other name. */
  datatype Name = Plain(rev: nat) | Packed(rev: nat) | Other(name: string)

  function Spell(base: string, n: Name): string {
    match n
    case Plain(rev) => PathOf(base, rev)
    case Packed(rev) => PathOf(base, rev) + TAR_GZ
    case Other(name) => name
  }

  /** `dir` lists the files `f` in any order, with any other names between them. */
  ghost predicate Lists(dir: seq<Name>, f: Files) {
    && (forall i | 0 <= i < |dir| ::
          match dir[i]
          case Plain(rev) => rev in f.plain
          case Packed(rev) => rev in f.packed
          case Other(_) => true)
    && (forall rev | rev in f.plain :: Plain(rev) in dir)
    && (forall rev | rev in f.packed :: Packed(rev) in dir)
  }

  function Spelled(base: string, dir: seq<Name>): (names: seq<string>)
    ensures |names| == |dir| && forall i | 0 <= i < |dir| :: names[i] == Spell(base, dir[i])
  {
    if dir == [] then [] else [Spell(base, dir[0])] + Spelled(base, dir[1..])
  }

  /** A name does no harm if it does not contain the base, is passed over, or is read as a revision
      within those of the logger. */
  predicate Harmless(name: string, base: string, min: nat, max: nat) {
    || !Contains(name, base)
    || (match Reading(name)
        case None => true
        case Some((rev, comp)) => min <= rev && Top(rev, comp) <= max)
  }

  /** A name that is looked at and read as revision `rev`. */
  predicate ReadAs(name: string, base: string, rev: nat) {
    Contains(name, base) && Reading(name).Some? && Reading(name).value.0 == rev
  }

  ghost predicate SomeReadAs(names: seq<string>, base: string, rev: nat) {
    exists i :: 0 <= i < |names| && ReadAs(names[i], base, rev)
  }

  lemma SpelledContains(base: string, n: Name)
    requires !n.Other?
    ensures Contains(Spell(base, n), base)
  {
    assert PartAt(Spell(base, n), base, 0);
  }

  /** The logger's own names are read right, for any base name, except perhaps those of revision 0. */
  lemma OwnReading(base: string, n: Name)
    requires !n.Other? && n.rev < TWO_31 && (n.rev == 0 ==> ReadsAsZero(base))
    ensures Contains(Spell(base, n), base) && Reading(Spell(base, n)) == Some((n.rev, n.Packed?))
  {
    SpelledContains(base, n);
    if n.Packed? {
      ReadingPacked(base, n.rev);
    } else if n.rev != 0 {
      ReadingRotated(base, n.rev);
    } else {
      ReadingFirst(base);
    }
  }

  lemma ReadingFirst(base: string)
    requires ReadsAsZero(base)
    ensures Reading(base) == Some((0, false))
  {
  }

  /** The range found only grows, takes in all that is read, and its least end is one that was read. */
  lemma {:induction false} ScanAllCovers(f: Found, base: string, names: seq<string>, i: nat)
    requires i < |names|
    ensures var g := ScanAll(f, base, names);
            && f.max <= g.max && (f.init ==> g.init && g.min <= f.min)
            && (Contains(names[i], base) && Reading(names[i]).Some? ==>
                  var (rev, comp) := Reading(names[i]).value; g.init && g.min <= rev && Top(rev, comp) <= g.max)
    decreases |names|
  {
    var f1 := if Contains(names[0], base) then Scan(f, names[0]) else f;
    if |names| > 1 {
      ScanAllCovers(f1, base, names[1..], if i == 0 then 0 else i - 1);
    }
  }

  lemma {:induction false} LeastIsRead(f: Found, base: string, names: seq<string>)
    requires ScanAll(f, base, names).init && !(f.init && f.min == ScanAll(f, base, names).min)
    ensures SomeReadAs(names, base, ScanAll(f, base, names).min)
    decreases |names|
  {
    var f1 := if Contains(names[0], base) then Scan(f, names[0]) else f;
    var least := ScanAll(f, base, names).min;
    if f1.init && f1.min == least {
      assert ReadAs(names[0], base, least);
    } else {
      LeastIsRead(f1, base, names[1..]);
      var i :| 0 <= i < |names[1..]| && ReadAs(names[1..][i], base, least);
      assert ReadAs(names[i + 1], base, least);
    }
  }

  lemma {:induction false} GreatestIsRead(f: Found, base: string, names: seq<string>)
    requires ScanAll(f, base, names).max != f.max
    ensures exists i :: 0 <= i < |names| && ReadsTop(names[i], base, ScanAll(f, base, names).max)
    decreases |names|
  {
    var f1 := if Contains(names[0], base) then Scan(f, names[0]) else f;
    var greatest := ScanAll(f, base, names).max;
    if f1.max == greatest {
      assert ReadsTop(names[0], base, greatest);
    } else {
      GreatestIsRead(f1, base, names[1..]);
      var i :| 0 <= i < |names[1..]| && ReadsTop(names[1..][i], base, greatest);
      assert ReadsTop(names[i + 1], base, greatest);
    }
  }

  /** `min` is the least revision read from any name that contains the base and `max` the greatest, an
      archive counting for the revision after it; both are 0 if none is read. */
  ghost predicate IsRange(base: string, names: seq<string>, min: nat, max: nat) {
    && (forall k | 0 <= k < |names| :: Harmless(names[k], base, min, max))
    && (SomeReadAs(names, base, min) || min == max == 0)
    && (max == 0 || exists k :: 0 <= k < |names| && ReadsTop(names[k], base, max))
    && ((forall k | 0 <= k < |names| :: Unread(names[k], base)) ==> min == max == 0)
  }

  lemma RecoveredIsTheRange(base: string, names: seq<string>)
    ensures IsRange(base, names, Recovered(base, names).min, Recovered(base, names).max)
  {
    var (g, none) := (Recovered(base, names), Found(false, 0, 0));
    forall k | 0 <= k < |names| ensures Harmless(names[k], base, g.min, g.max) {
      ScanAllCovers(none, base, names, k);
    }
    if g.init {
      LeastIsRead(none, base, names);
    } else {
      NothingReadBack(none, base, names);
    }
    if g.max != 0 {
      GreatestIsRead(none, base, names);
    }
    if forall k | 0 <= k < |names| :: Unread(names[k], base) {
      NothingRead(none, base, names);
    }
  }

  lemma {:induction false} NothingReadBack(f: Found, base: string, names: seq<string>)
    requires !ScanAll(f, base, names).init
    ensures ScanAll(f, base, names) == f
    decreases |names|
  {
    if names != [] {
      NothingReadBack(if Contains(names[0], base) then Scan(f, names[0]) else f, base, names[1..]);
    }
  }

  lemma ReadLater(f: Found, base: string, names: seq<string>, min: nat)
    requires names != [] && (f.init ==> min <= f.min) && ((f.init && f.min == min) || SomeReadAs(names, base, min))
    requires var f1 := if Contains(names[0], base) then Scan(f, names[0]) else f; !(f1.init && f1.min == min)
    requires Contains(names[0], base) && Reading(names[0]).Some? ==> min <= Reading(names[0]).value.0
    ensures SomeReadAs(names[1..], base, min)
  {
    var i :| 0 <= i < |names| && ReadAs(names[i], base, min);
    assert ReadAs(names[1..][i - 1], base, min);
  }

  /** The end of the scan, over harmless names, when both ends of the range have been or will be read. */
  lemma {:induction false} ScanRest(f: Found, base: string, names: seq<string>, min: nat, max: nat)
    requires min <= max
    requires forall i | 0 <= i < |names| :: Harmless(names[i], base, min, max)
    requires f.max <= max && (if f.init then min <= f.min else f.min == 0)
    requires (f.init && f.min == min) || SomeReadAs(names, base, min)
    requires f.max == max || exists i :: 0 <= i < |names| && ReadsTop(names[i], base, max)
    ensures ScanAll(f, base, names) == Found(true, min, max)
    decreases |names|
  {
    if names != [] {
      var f1 := if Contains(names[0], base) then Scan(f, names[0]) else f;
      assert Harmless(names[0], base, min, max);
      if !(f1.init && f1.min == min) {
        ReadLater(f, base, names, min);
      }
      if f1.max != max {
        var i :| 0 <= i < |names| && ReadsTop(names[i], base, max);
        assert ReadsTop(names[1..][i - 1], base, max);
      }
      ScanRest(f1, base, names[1..], min, max);
    }
  }

  /** A name that is not looked at or passed over. */
  predicate Unread(name: string, base: string) {
    !Contains(name, base) || Reading(name) == None
  }

  lemma {:induction false} NothingRead(f: Found, base: string, names: seq<string>)
    requires forall i | 0 <= i < |names| :: Unread(names[i], base)
    ensures ScanAll(f, base, names) == f
    decreases |names|
  {
    if names != [] {
      assert Unread(names[0], base);
      NothingRead(f, base, names[1..]);
    }
  }

  predicate ReadsTop(name: string, base: string, top: nat) {
    Contains(name, base) && Reading(name).Some? && Top(Reading(name).value.0, Reading(name).value.1) == top
  }

  lemma OwnNames(base: string, f: Files, dir: seq<Name>, k: nat)
    requires OnDisk(f) && (forall r | r in f.packed :: r < f.cur) && Lists(dir, f) && k < |dir| && f.cur < TWO_31
    requires !dir[k].Other? && (dir[k].rev == 0 ==> ReadsAsZero(base))
    ensures Harmless(Spell(base, dir[k]), base, f.min, f.cur)
  {
    OwnReading(base, dir[k]);
    if dir[k].Packed? {
      assert dir[k].rev in f.packed;
    } else {
      assert dir[k].rev in f.plain;
    }
  }

  lemma FindIn(dir: seq<Name>, n: Name) returns (k: nat)
    requires n in dir
    ensures k < |dir| && dir[k] == n
  {
    k :| 0 <= k < |dir| && dir[k] == n;
  }

  /** The least revision is read from some name, unless it is 0 and the base name is in the way. */
  lemma LeastOnDisk(base: string, f: Files, dir: seq<Name>)
    requires OnDisk(f) && f.min <= f.cur < TWO_31 && Lists(dir, f) && (f.min == 0 ==> ReadsAsZero(base))
    ensures SomeReadAs(Spelled(base, dir), base, f.min)
  {
    assert f.min in f.plain || f.min in f.packed;
    var k := FindIn(dir, if f.min in f.plain then Plain(f.min) else Packed(f.min));
    OwnReading(base, dir[k]);
    assert ReadAs(Spelled(base, dir)[k], base, f.min);
  }

  /** The open revision is read from its name, unless it is 0. */
  lemma OpenOnDisk(base: string, f: Files, dir: seq<Name>) returns (k: nat)
    requires OnDisk(f) && (forall r | r in f.packed :: r < f.cur) && 0 < f.cur < TWO_31 && f.min <= f.cur
    requires Lists(dir, f)
    ensures k < |dir| && ReadsTop(Spelled(base, dir)[k], base, f.cur)
  {
    assert f.cur in f.plain || f.cur in f.packed;
    k := FindIn(dir, Plain(f.cur));
    OwnReading(base, dir[k]);
  }

  /** A logger restarted on what any run of rotations and compressions left, whatever else the
      directory holds and in whatever order it is listed, takes up exactly the revisions it had if and
      only if no name does harm and, while revision 0 is still there, some name is read as 0 or none is
      read at all. */
  lemma RestartRecoversIff(base: string, s: System, i: nat, f0: Files, dir: seq<Name>)
    requires Rotation.Shaped(s) && i < |s.loggers| && Tidy(s, i, f0) && s.loggers[i].cur < TWO_31
    requires Lists(dir, s.loggers[i])
    ensures var (f, names) := (s.loggers[i], Spelled(base, dir));
            Recovered(base, names).min == f.min && Recovered(base, names).max == f.cur
            <==> && (forall k | 0 <= k < |names| :: Harmless(names[k], base, f.min, f.cur))
                 && (f.min == 0 ==> SomeReadAs(names, base, 0) || forall k | 0 <= k < |names| :: Unread(names[k], base))
  {
    var (f, names, none) := (s.loggers[i], Spelled(base, dir), Found(false, 0, 0));
    if Recovered(base, names).min == f.min && Recovered(base, names).max == f.cur {
      if Recovered(base, names).init {
        LeastIsRead(none, base, names);
      }
      forall k | 0 <= k < |names| ensures Harmless(names[k], base, f.min, f.cur) {
        ScanAllCovers(none, base, names, k);
      }
      forall k | 0 <= k < |names| && !Recovered(base, names).init ensures Unread(names[k], base) {
        ScanAllCovers(none, base, names, k);
      }
    } else {
      if f.cur != 0 {
        var k := OpenOnDisk(base, f, dir);
        assert !Unread(Spelled(base, dir)[k], base);
      }
      if (forall k | 0 <= k < |names| :: Unread(names[k], base)) && f.min == 0 {
        NothingRead(none, base, names);
      } else if (forall k | 0 <= k < |names| :: Harmless(names[k], base, f.min, f.cur))
          && (f.min == 0 ==> SomeReadAs(names, base, 0)) {
        if f.min != 0 {
          LeastOnDisk(base, f, dir);
        }
        ScanRest(none, base, names, f.min, f.cur);
      }
    }
  }

  /** The logger's own names never do harm, and none stands in for revision 0, once revision 0 has been
      dropped or if the base name reads as zero: then only other names matter. */
  lemma RestartDependsOnOthers(base: string, s: System, i: nat, f0: Files, dir: seq<Name>)
    requires Rotation.Shaped(s) && i < |s.loggers| && Tidy(s, i, f0) && s.loggers[i].cur < TWO_31
    requires Lists(dir, s.loggers[i]) && (0 < s.loggers[i].min || ReadsAsZero(base))
    ensures var f := s.loggers[i];
            var found := Recovered(base, Spelled(base, dir));
            found.min == f.min && found.max == f.cur
            <==> forall k | 0 <= k < |dir| && dir[k].Other? :: Harmless(dir[k].name, base, f.min, f.cur)
  {
    RestartRecoversIff(base, s, i, f0, dir);
    OnlyOthersHarm(base, s.loggers[i], dir);
    if s.loggers[i].min == 0 {
      LeastOnDisk(base, s.loggers[i], dir);
    }
  }

  lemma OnlyOthersHarm(base: string, f: Files, dir: seq<Name>)
    requires OnDisk(f) && (forall r | r in f.packed :: r < f.cur) && f.cur < TWO_31
    requires Lists(dir, f) && (0 < f.min || ReadsAsZero(base))
    ensures var names := Spelled(base, dir);
            (forall k | 0 <= k < |names| :: Harmless(names[k], base, f.min, f.cur))
            <==> forall k | 0 <= k < |dir| && dir[k].Other? :: Harmless(dir[k].name, base, f.min, f.cur)
  {
    var names := Spelled(base, dir);
    forall k | 0 <= k < |dir| && !dir[k].Other? ensures Harmless(names[k], base, f.min, f.cur) {
      OwnAndThere(f, dir, k);
      OwnNames(base, f, dir, k);
    }
    forall k | 0 <= k < |dir| && dir[k].Other? ensures names[k] == dir[k].name {
    }
    AllOrOthers(names, dir, name => Harmless(name, base, f.min, f.cur));
  }

  /** What holds of the logger's own names holds of all names exactly when it holds of the others. */
  lemma AllOrOthers(names: seq<string>, dir: seq<Name>, holds: string -> bool)
    requires |names| == |dir|
    requires forall k | 0 <= k < |dir| && !dir[k].Other? :: holds(names[k])
    requires forall k | 0 <= k < |dir| && dir[k].Other? :: names[k] == dir[k].name
    ensures (forall k | 0 <= k < |names| :: holds(names[k]))
            <==> forall k | 0 <= k < |dir| && dir[k].Other? :: holds(dir[k].name)
  {
    if forall k | 0 <= k < |names| :: holds(names[k]) {
      forall k | 0 <= k < |dir| && dir[k].Other? ensures holds(dir[k].name) {
        assert holds(names[k]);
      }
    }
  }

  lemma OwnAndThere(f: Files, dir: seq<Name>, k: nat)
    requires OnDisk(f) && Lists(dir, f) && k < |dir| && !dir[k].Other?
    ensures f.min <= dir[k].rev <= f.cur
  {
    assert dir[k].rev in f.plain || dir[k].rev in f.packed;
  }

  predicate Around(name: string, a: string, part: string, b: string) {
    name == a + part + b
  }

  /** A name contains another when that is what is left of it without some front and some end. */
  lemma ContainsIff(name: string, part: string)
    ensures Contains(name, part) <==> exists a, b :: Around(name, a, part, b)
  {
    if Contains(name, part) {
      var i: nat :| i <= |name| && PartAt(name, part, i);
      assert name == name[..i] + name[i..i + |part|] + name[i + |part|..];
      assert Around(name, name[..i], part, name[i + |part|..]);
    }
    if a, b :| Around(name, a, part, b) {
      assert PartAt(name, part, |a|);
    }
  }

  lemma {:induction false} ScanSkips(f: Found, base: string, xs: seq<string>, name: string, ys: seq<string>)
    requires !Contains(name, base)
    ensures ScanAll(f, base, xs + [name] + ys) == ScanAll(f, base, xs + ys)
    decreases |xs|
  {
    var all := xs + [name] + ys;
    if xs == [] {
      assert all[0] == name && all[1..] == ys && xs + ys == ys;
    } else {
      assert all[1..] == xs[1..] + [name] + ys && (xs + ys)[1..] == xs[1..] + ys;
      ScanSkips(if Contains(xs[0], base) then Scan(f, xs[0]) else f, base, xs[1..], name, ys);
    }
  }

  /** A name that is not the base with something around it changes nothing, wherever it is listed. */
  lemma StrangerChangesNothing(base: string, xs: seq<string>, name: string, ys: seq<string>)
    requires forall a, b :: !Around(name, a, base, b)
    ensures Recovered(base, xs + [name] + ys) == Recovered(base, xs + ys)
  {
    ContainsIff(name, base);
    ScanSkips(Found(false, 0, 0), base, xs, name, ys);
  }

  lemma OtherReplicaIsAStranger()
    ensures !Contains("srv-2.log.3", "srv-1.log")
  {
    var (base, other) := ("srv-1.log", "srv-2.log.3");
    forall i: nat | i + 9 <= |other| ensures !PartAt(other, base, i) {
      var k := if i == 0 then 4 else 0;
      assert other[i..i + 9][k] == other[i + k] != base[k];
    }
  }

  /** So the replicas of one host, whose logs share a directory, do not disturb each other. */
  lemma OtherReplicaIsPassedOver()
    ensures Recovered("srv-1.log", ["srv-1.log", "srv-2.log.3"]) == Found(true, 0, 0)
  {
    var (base, other) := ("srv-1.log", "srv-2.log.3");
    OtherReplicaIsAStranger();
    assert [base] + [other] + [] == [base, other] && [base] + [] == [base];
    ScanSkips(Found(false, 0, 0), base, [base], other, []);
    RecoveredFirst(base);
    assert "srv-1" + "." + "log" == base;
    ReadingOfParts("srv-1", "log");
  }

  /** Another logger's file can do harm: the logger of "app.log", started once, takes "my_app.log.9"
      for its own and comes back at revision 9. */
  lemma OtherLoggersFileIsTakenOver()
    ensures ReadsAsZero("app.log") && !Harmless("my_app.log.9", "app.log", 0, 0)
    ensures Recovered("app.log", ["app.log", "my_app.log.9"]) == Found(true, 0, 9)
  {
    var (base, other) := ("app.log", "my_app.log.9");
    assert "app" + "." + "log" == base && "my_app.log" + "." + "9" == other;
    ReadsAsZeroParts();
    ReadingOfParts("my_app.log", "9");
    AtoiDecimal(9);
    assert Decimal(9) == "9";
    assert PartAt(other, base, 3);
    ScanTwo(base, other);
  }

  lemma ReadsAsZeroParts()
    ensures ReadsAsZero("app" + "." + "log") && Reading("app" + "." + "log") == Some((0, false))
  {
    LastDotOfParts("app", "log");
    ReadingOfParts("app", "log");
    assert ("app" + "." + "log")[4..] == "log";
  }

  lemma ScanTwo(base: string, other: string)
    requires Contains(other, base)
    ensures Recovered(base, [base, other]) == Scan(Scan(Found(false, 0, 0), base), other)
  {
    assert PartAt(base, base, 0);
    assert [base, other][1..] == [other];
    var f := Scan(Found(false, 0, 0), base);
    assert ScanAll(f, base, [other]) == ScanAll(Scan(f, other), base, [other][1..]);
  }

  lemma ScanCons(f: Found, base: string, n: Name, dir: seq<Name>)
    requires !n.Other?
    ensures ScanAll(f, base, Spelled(base, [n] + dir)) == ScanAll(Scan(f, Spell(base, n)), base, Spelled(base, dir))
  {
    SpelledContains(base, n);
    assert ([n] + dir)[1..] == dir;
  }

  lemma RecoveredFirst(base: string)
    ensures Recovered(base, Spelled(base, [Plain(0)])) == Scan(Found(false, 0, 0), base)
    ensures Recovered(base, Spelled(base, [Plain(0), Plain(1)])) == Seen(Scan(Found(false, 0, 0), base), 1, false)
  {
    var f := Found(false, 0, 0);
    ScanCons(f, base, Plain(0), []);
    assert [Plain(0)] + [] == [Plain(0)] && [Plain(0)] + [Plain(1)] == [Plain(0), Plain(1)];
    ScanCons(f, base, Plain(0), [Plain(1)]);
    ScanCons(Scan(f, base), base, Plain(1), []);
    assert [Plain(1)] + [] == [Plain(1)];
    ReadingRotated(base, 1);
  }

  /** Where only an archive is left, the revision after it is the one to open. */
  lemma ArchiveAlone(base: string, rev: nat)
    requires 0 < rev < TWO_31
    ensures Recovered(base, [PathOf(base, rev) + TAR_GZ]) == Found(true, rev, rev + 1)
  {
    ScanCons(Found(false, 0, 0), base, Packed(rev), []);
    assert [Packed(rev)] + [] == [Packed(rev)] && Spelled(base, [Packed(rev)]) == [PathOf(base, rev) + TAR_GZ];
    ReadingPacked(base, rev);
  }

  /** The first file alone is recovered as revision 0 for a name that reads as zero; otherwise it is
      passed over or read as something else. */
  lemma ScanFirst(base: string)
    requires -TWO_31 <= Atoi(base[LastDot(base) + 1..]) < TWO_31
    ensures var f := Scan(Found(false, 0, 0), base);
            if ReadsAsZero(base) then f == Found(true, 0, 0)
            else f == Found(false, 0, 0) || f.min != 0 || f.max != 0
  {
  }

  /** That condition on the base name is exact: for every other name recovery already fails for the
      logger's first file alone, or for its first file and the one it rotates to. */
  lemma RecoversIffReadsAsZero(base: string)
    requires -TWO_31 <= Atoi(base[LastDot(base) + 1..]) < TWO_31
    ensures var first := Recovered(base, Spelled(base, [Plain(0)]));
            first.min == 0 && first.max == 0
            && Recovered(base, Spelled(base, [Plain(0), Plain(1)])) == Found(true, 0, 1)
            <==> ReadsAsZero(base)
  {
    RecoveredFirst(base);
    ScanFirst(base);
  }

  /** A name with a dot for which recovery fails: "app.7" comes back as revision 7. */
  lemma DottedNameCanFail()
    ensures LastDot("app.7") == 3
    ensures Recovered("app.7", Spelled("app.7", [Plain(0)])) == Found(true, 7, 7)
  {
    RecoveredFirst("app.7");
    LastDotOfParts("app", "7");
    assert "app.7" == "app" + "." + "7" && "app.7"[4..] == "7";
    AtoiDecimal(7);
    assert Decimal(7) == "7";
  }
}
