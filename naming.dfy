/** The dump file name shared by the three producer scripts:
    `dump_` + `datetime.now().strftime("%Y%m%d_%H%M%S")` + `.sql`, and its
    local path `os.path.join(DUMP_FOLDER, name)`.

    `strftime` renders each field as a zero-padded decimal of fixed width
    (year 4, every other field 2), most significant field first.
 */
module DumpNaming {
  import opened Wrappers
  import Retention

  /** A wall-clock date-time with the ranges Python's `datetime` enforces. */
  datatype DateTime = DateTime(year: nat, month: nat, day: nat, hour: nat, minute: nat, second: nat)

  predicate IsLeapYear(y: nat)
  {
    y % 4 == 0 && (y % 100 != 0 || y % 400 == 0)
  }

  function DaysInMonth(y: nat, m: nat): nat
    requires 1 <= m <= 12
  {
    if m == 2 then (if IsLeapYear(y) then 29 else 28)
    else if m == 4 || m == 6 || m == 9 || m == 11 then 30
    else 31
  }

  predicate ValidDateTime(t: DateTime)
  {
    && 1 <= t.year <= 9999
    && 1 <= t.month <= 12
    && 1 <= t.day <= DaysInMonth(t.year, t.month)
    && t.hour < 24 && t.minute < 60 && t.second < 60
  }

  /** Chronological order: field by field, most significant first. */
  predicate Earlier(a: DateTime, b: DateTime)
  {
    || a.year < b.year
    || (a.year == b.year && a.month < b.month)
    || (a.year == b.year && a.month == b.month && a.day < b.day)
    || (a.year == b.year && a.month == b.month && a.day == b.day && a.hour < b.hour)
    || (a.year == b.year && a.month == b.month && a.day == b.day && a.hour == b.hour
        && a.minute < b.minute)
    || (a.year == b.year && a.month == b.month && a.day == b.day && a.hour == b.hour
        && a.minute == b.minute && a.second < b.second)
  }

  // ---------------------------------------------------------------------
  // Zero-padded decimal fields.

  function Pow10(w: nat): (r: nat)
    ensures r >= 1
  {
    if w == 0 then 1 else 10 * Pow10(w - 1)
  }

  predicate IsDigit(c: char)
  {
    '0' <= c <= '9'
  }

  predicate AllDigits(s: string)
  {
    forall i :: 0 <= i < |s| ==> IsDigit(s[i])
  }

  function DigitChar(k: nat): (c: char)
    requires k < 10
    ensures IsDigit(c)
  {
    (48 + k) as char
  }

  function DigitValue(c: char): (k: nat)
    requires IsDigit(c)
    ensures k < 10
  {
    c as int - 48
  }

  lemma DivStep(n: nat, w: nat)
    requires w > 0 && n < Pow10(w)
    ensures n / 10 < Pow10(w - 1)
    ensures n == 10 * (n / 10) + n % 10
  {
  }

  /** `n` written in exactly `w` decimal digits, leading zeros included. */
  function Pad(n: nat, w: nat): (r: string)
    requires n < Pow10(w)
    ensures |r| == w && AllDigits(r)
  {
    if w == 0 then []
    else
      DivStep(n, w);
      Pad(n / 10, w - 1) + [DigitChar(n % 10)]
  }

  /** The value of a string of decimal digits. */
  function ParseDigits(s: string): (n: nat)
    requires AllDigits(s)
    ensures n < Pow10(|s|)
  {
    if s == [] then 0 else 10 * ParseDigits(s[..|s| - 1]) + DigitValue(s[|s| - 1])
  }

  lemma {:induction false} ParsePad(n: nat, w: nat)
    requires n < Pow10(w)
    ensures ParseDigits(Pad(n, w)) == n
  {
    if w > 0 {
      DivStep(n, w);
      var p := Pad(n / 10, w - 1);
      assert Pad(n, w)[..w - 1] == p;
      ParsePad(n / 10, w - 1);
    }
  }

  lemma {:induction false} PadParse(s: string)
    requires AllDigits(s)
    ensures Pad(ParseDigits(s), |s|) == s
  {
    if s != [] {
      var init := s[..|s| - 1];
      var n := ParseDigits(s);
      PadParse(init);
      assert n / 10 == ParseDigits(init) && n % 10 == DigitValue(s[|s| - 1]);
      assert s == init + [s[|s| - 1]];
    }
  }

  lemma PadInjective(n: nat, m: nat, w: nat)
    requires n < Pow10(w) && m < Pow10(w)
    ensures Pad(n, w) == Pad(m, w) <==> n == m
  {
    if Pad(n, w) == Pad(m, w) {
      ParsePad(n, w);
      ParsePad(m, w);
    }
  }

  // ---------------------------------------------------------------------
  // Lexicographic order of strings, as Python's `<` on `str` (code points).

  predicate LexLess(a: string, b: string)
  {
    if a == [] then b != []
    else if b == [] then false
    else a[0] < b[0] || (a[0] == b[0] && LexLess(a[1..], b[1..]))
  }

  lemma {:induction false} LexIrreflexive(a: string)
    ensures !LexLess(a, a)
  {
    if a != [] {
      LexIrreflexive(a[1..]);
    }
  }

  /** Comparing two strings that start with pieces of equal length compares
      the pieces first and the rest only on a tie. */
  lemma {:induction false} LexConcat(a1: string, b1: string, a2: string, b2: string)
    requires |a1| == |a2|
    ensures LexLess(a1 + b1, a2 + b2) <==> LexLess(a1, a2) || (a1 == a2 && LexLess(b1, b2))
  {
    if a1 != [] {
      assert (a1 + b1)[0] == a1[0] && (a1 + b1)[1..] == a1[1..] + b1;
      assert (a2 + b2)[0] == a2[0] && (a2 + b2)[1..] == a2[1..] + b2;
      LexConcat(a1[1..], b1, a2[1..], b2);
      if a1[0] == a2[0] {
        assert a1 == a2 <==> a1[1..] == a2[1..] by {
          assert a1 == [a1[0]] + a1[1..] && a2 == [a2[0]] + a2[1..];
        }
      }
    } else {
      assert a1 + b1 == b1 && a2 + b2 == b2;
    }
  }

  /** Strings of digits of one width compare as the numbers they denote. */
  lemma {:induction false} PadOrder(n: nat, m: nat, w: nat)
    requires n < Pow10(w) && m < Pow10(w)
    ensures LexLess(Pad(n, w), Pad(m, w)) <==> n < m
  {
    if w > 0 {
      DivStep(n, w);
      DivStep(m, w);
      var pn, pm := Pad(n / 10, w - 1), Pad(m / 10, w - 1);
      var cn, cm := DigitChar(n % 10), DigitChar(m % 10);
      LexConcat(pn, [cn], pm, [cm]);
      PadOrder(n / 10, m / 10, w - 1);
      PadInjective(n / 10, m / 10, w - 1);
      assert LexLess([cn], [cm]) <==> n % 10 < m % 10 by {
        assert [cn][1..] == [] && [cm][1..] == [];
      }
    }
  }

  // ---------------------------------------------------------------------
  // The timestamp and the dump name.

  /** `strftime("%Y%m%d_%H%M%S")` */
  function Timestamp(t: DateTime): (r: string)
    requires ValidDateTime(t)
    ensures |r| == 15 && r[8] == '_'
    ensures forall i :: 0 <= i < 15 && i != 8 ==> IsDigit(r[i])
  {
    Pad(t.year, 4) + (Pad(t.month, 2) + (Pad(t.day, 2)
      + ("_" + (Pad(t.hour, 2) + (Pad(t.minute, 2) + Pad(t.second, 2))))))
  }

  const Prefix: string := "dump_"
  const Suffix: string := ".sql"

  /** `f"dump_{timestamp}.sql"` */
  function DumpName(t: DateTime): (r: string)
    requires ValidDateTime(t)
    ensures |r| == 24 && r[..5] == Prefix && r[20..] == Suffix
  {
    Prefix + (Timestamp(t) + Suffix)
  }

  /** Reading a timestamp back: the inverse of Timestamp. */
  function ParseTimestamp(s: string): (r: Option<DateTime>)
    ensures r.Some? ==> ValidDateTime(r.value)
  {
    if |s| == 15 && s[8] == '_' && AllDigits(s[..8]) && AllDigits(s[9..]) then
      var t := DateTime(ParseDigits(s[0..4]), ParseDigits(s[4..6]), ParseDigits(s[6..8]),
                        ParseDigits(s[9..11]), ParseDigits(s[11..13]), ParseDigits(s[13..15]));
      if ValidDateTime(t) then Some(t) else None
    else None
  }

  /** Reading a dump name back: the inverse of DumpName. */
  function ParseDumpName(s: string): (r: Option<DateTime>)
    ensures r.Some? ==> ValidDateTime(r.value)
  {
    if |s| == 24 && s[..5] == Prefix && s[20..] == Suffix then ParseTimestamp(s[5..20]) else None
  }

  lemma TimestampParts(t: DateTime)
    requires ValidDateTime(t)
    ensures var s := Timestamp(t);
      && s[0..4] == Pad(t.year, 4) && s[4..6] == Pad(t.month, 2) && s[6..8] == Pad(t.day, 2)
      && s[9..11] == Pad(t.hour, 2) && s[11..13] == Pad(t.minute, 2) && s[13..15] == Pad(t.second, 2)
  {
  }

  lemma ParseTimestampOfTimestamp(t: DateTime)
    requires ValidDateTime(t)
    ensures ParseTimestamp(Timestamp(t)) == Some(t)
  {
    var s := Timestamp(t);
    TimestampParts(t);
    assert AllDigits(s[..8]) && AllDigits(s[9..]);
    ParsePad(t.year, 4);
    ParsePad(t.month, 2);
    ParsePad(t.day, 2);
    ParsePad(t.hour, 2);
    ParsePad(t.minute, 2);
    ParsePad(t.second, 2);
  }

  lemma TimestampOfParseTimestamp(s: string, t: DateTime)
    requires ParseTimestamp(s) == Some(t)
    ensures Timestamp(t) == s
  {
    assert s == s[0..4] + (s[4..6] + (s[6..8] + ([s[8]] + (s[9..11] + (s[11..13] + s[13..15])))));
    assert [s[8]] == "_";
    PadParse(s[0..4]);
    PadParse(s[4..6]);
    PadParse(s[6..8]);
    PadParse(s[9..11]);
    PadParse(s[11..13]);
    PadParse(s[13..15]);
  }

  /** The name determines the timestamp and vice versa: ParseDumpName
      inverts DumpName on valid date-times and accepts nothing else. */
  lemma DumpNameRoundTrip(t: DateTime)
    requires ValidDateTime(t)
    ensures ParseDumpName(DumpName(t)) == Some(t)
  {
    var s := DumpName(t);
    assert s[..5] == Prefix && s[20..] == Suffix && s[5..20] == Timestamp(t);
    ParseTimestampOfTimestamp(t);
  }

  lemma ParseDumpNameRoundTrip(s: string, t: DateTime)
    requires ParseDumpName(s) == Some(t)
    ensures DumpName(t) == s
  {
    TimestampOfParseTimestamp(s[5..20], t);
    assert s == s[..5] + (s[5..20] + s[20..]);
  }

  /** Two runs in different seconds never produce the same name. */
  lemma DumpNameInjective(a: DateTime, b: DateTime)
    requires ValidDateTime(a) && ValidDateTime(b)
    ensures DumpName(a) == DumpName(b) <==> a == b
  {
    if DumpName(a) == DumpName(b) {
      DumpNameRoundTrip(a);
      DumpNameRoundTrip(b);
    }
  }

  lemma TimestampOrder(a: DateTime, b: DateTime)
    requires ValidDateTime(a) && ValidDateTime(b)
    ensures LexLess(Timestamp(a), Timestamp(b)) <==> Earlier(a, b)
  {
    var ta2 := Pad(a.minute, 2) + Pad(a.second, 2);
    var tb2 := Pad(b.minute, 2) + Pad(b.second, 2);
    var ta3 := Pad(a.hour, 2) + ta2;
    var tb3 := Pad(b.hour, 2) + tb2;
    var ta4 := "_" + ta3;
    var tb4 := "_" + tb3;
    var ta5 := Pad(a.day, 2) + ta4;
    var tb5 := Pad(b.day, 2) + tb4;
    var ta6 := Pad(a.month, 2) + ta5;
    var tb6 := Pad(b.month, 2) + tb5;
    LexConcat(Pad(a.minute, 2), Pad(a.second, 2), Pad(b.minute, 2), Pad(b.second, 2));
    LexConcat(Pad(a.hour, 2), ta2, Pad(b.hour, 2), tb2);
    LexConcat("_", ta3, "_", tb3);
    LexIrreflexive("_");
    LexConcat(Pad(a.day, 2), ta4, Pad(b.day, 2), tb4);
    LexConcat(Pad(a.month, 2), ta5, Pad(b.month, 2), tb5);
    LexConcat(Pad(a.year, 4), ta6, Pad(b.year, 4), tb6);
    PadOrder(a.year, b.year, 4);
    PadOrder(a.month, b.month, 2);
    PadOrder(a.day, b.day, 2);
    PadOrder(a.hour, b.hour, 2);
    PadOrder(a.minute, b.minute, 2);
    PadOrder(a.second, b.second, 2);
    PadInjective(a.year, b.year, 4);
    PadInjective(a.month, b.month, 2);
    PadInjective(a.day, b.day, 2);
    PadInjective(a.hour, b.hour, 2);
    PadInjective(a.minute, b.minute, 2);
    assert ta3 == tb3 <==> a.hour == b.hour && ta2 == tb2 by {
      LexConcatEq(Pad(a.hour, 2), ta2, Pad(b.hour, 2), tb2);
    }
    assert ta2 == tb2 <==> a.minute == b.minute && a.second == b.second by {
      LexConcatEq(Pad(a.minute, 2), Pad(a.second, 2), Pad(b.minute, 2), Pad(b.second, 2));
      PadInjective(a.second, b.second, 2);
    }
    assert ta5 == tb5 <==> a.day == b.day && ta3 == tb3 by {
      LexConcatEq(Pad(a.day, 2), ta4, Pad(b.day, 2), tb4);
      LexConcatEq("_", ta3, "_", tb3);
    }
    assert ta6 == tb6 <==> a.month == b.month && ta5 == tb5 by {
      LexConcatEq(Pad(a.month, 2), ta5, Pad(b.month, 2), tb5);
    }
  }

  lemma LexConcatEq(a1: string, b1: string, a2: string, b2: string)
    requires |a1| == |a2|
    ensures a1 + b1 == a2 + b2 <==> a1 == a2 && b1 == b2
  {
    if a1 + b1 == a2 + b2 {
      assert a1 == (a1 + b1)[..|a1|] && a2 == (a2 + b2)[..|a2|];
      assert b1 == (a1 + b1)[|a1|..] && b2 == (a2 + b2)[|a2|..];
    }
  }

  /** Sorting dump names as strings sorts them chronologically. */
  lemma NameOrderIsTimeOrder(a: DateTime, b: DateTime)
    requires ValidDateTime(a) && ValidDateTime(b)
    ensures LexLess(DumpName(a), DumpName(b)) <==> Earlier(a, b)
  {
    LexConcat(Prefix, Timestamp(a) + Suffix, Prefix, Timestamp(b) + Suffix);
    LexIrreflexive(Prefix);
    LexConcat(Timestamp(a), Suffix, Timestamp(b), Suffix);
    LexIrreflexive(Suffix);
    TimestampOrder(a, b);
  }

  /** Every produced name passes the scheduler's `.endswith(".sql")` filter. */
  lemma DumpNameIsSql(t: DateTime)
    requires ValidDateTime(t)
    ensures Retention.IsSql(DumpName(t))
  {
    assert DumpName(t)[|DumpName(t)| - 4..] == Suffix;
  }

  // ---------------------------------------------------------------------
  // Local paths.

  /** `os.path.join(dir, name)` for a relative `name` and the host's
      separator `sep`. */
  function Join(dir: string, name: string, sep: char): (p: string)
    ensures |p| >= |dir| + |name|
    ensures p[..|dir|] == dir && p[|p| - |name|..] == name
    ensures dir != [] && dir[|dir| - 1] != sep ==> |p| == |dir| + 1 + |name| && p[|dir|] == sep
    ensures dir == [] || dir[|dir| - 1] == sep ==> p == dir + name
  {
    if dir == [] then name
    else if dir[|dir| - 1] == sep then dir + name
    else dir + [sep] + name
  }

  /** The inverse of Join used to state where the local copy lands: what
      precedes the last separator, and what follows it. Unlike
      `os.path.split` it keeps a run of separators in the first part and
      does not keep a leading root separator; the scripts never split a
      path themselves. */
  function Split(path: string, sep: char): (r: (string, string))
    ensures sep !in r.1
  {
    if path == [] then ([], [])
    else if path[|path| - 1] == sep then (path[..|path| - 1], [])
    else
      var r := Split(path[..|path| - 1], sep);
      (r.0, r.1 + [path[|path| - 1]])
  }

  lemma {:induction false} SplitJoin(dir: string, name: string, sep: char)
    requires dir != [] && dir[|dir| - 1] != sep
    requires sep !in name
    ensures Split(Join(dir, name, sep), sep) == (dir, name)
  {
    if name == [] {
      assert Join(dir, name, sep)[..|dir|] == dir;
    } else {
      var init := name[..|name| - 1];
      SplitJoin(dir, init, sep);
      assert Join(dir, name, sep) == Join(dir, init, sep) + [name[|name| - 1]];
      assert name == init + [name[|name| - 1]];
    }
  }

  /** `os.path.join(DUMP_FOLDER, DUMP_FILE_REMOTE)`: the local copy has the
      same name as the remote file, inside the producer's folder. */
  function LocalPath(folder: string, t: DateTime, sep: char): (p: string)
    requires ValidDateTime(t)
    ensures |p| >= |folder| + 24 && p[..|folder|] == folder && p[|p| - 24..] == DumpName(t)
  {
    Join(folder, DumpName(t), sep)
  }

  /** The name carries no path separator of either platform. */
  lemma DumpNameHasNoSeparator(t: DateTime, sep: char)
    requires ValidDateTime(t)
    requires sep == '/' || sep == '\\'
    ensures sep !in DumpName(t)
  {
    var ts := Timestamp(t);
    assert forall i :: 0 <= i < |ts| ==> ts[i] != sep;
    assert DumpName(t) == Prefix + ts + Suffix;
  }

  /** Splitting the local path gives back the folder and the very name the
      remote dump was written under. */
  lemma LocalPathSplits(folder: string, t: DateTime, sep: char)
    requires ValidDateTime(t)
    requires sep == '/' || sep == '\\'
    requires folder != [] && folder[|folder| - 1] != sep
    ensures Split(LocalPath(folder, t, sep), sep) == (folder, DumpName(t))
  {
    DumpNameHasNoSeparator(t, sep);
    SplitJoin(folder, DumpName(t), sep);
  }
}
