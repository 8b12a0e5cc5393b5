/** The CSV importer: `formatDate` and `parseCSVData` of
    src/components/data/DataImport.jsx. Today's date, which the source takes
    from the clock, is a parameter. */
module Csv {
  import opened Wrappers
  import opened Seqs
  import opened Sorting
  import opened Draws
  import opened Text

  // Date patterns

  /** One position of a fixed-length regular expression: `\d` or a literal. */
  datatype Sym = AnyDigit | Lit(c: char)

  predicate Fits(c: char, sym: Sym)
  {
    match sym
    case AnyDigit => IsDecimalDigit(c)
    case Lit(l) => c == l
  }

  /** `/(\d{2})\/(\d{2})\/(\d{4})/`, DD/MM/YYYY. */
  const DayMonthYearSlash: seq<Sym> :=
    [AnyDigit, AnyDigit, Lit('/'), AnyDigit, AnyDigit, Lit('/'), AnyDigit, AnyDigit, AnyDigit, AnyDigit]

  /** `/(\d{4})-(\d{2})-(\d{2})/`, YYYY-MM-DD. */
  const YearMonthDay: seq<Sym> :=
    [AnyDigit, AnyDigit, AnyDigit, AnyDigit, Lit('-'), AnyDigit, AnyDigit, Lit('-'), AnyDigit, AnyDigit]

  /** `/(\d{2})-(\d{2})-(\d{4})/`, DD-MM-YYYY. */
  const DayMonthYearDash: seq<Sym> :=
    [AnyDigit, AnyDigit, Lit('-'), AnyDigit, AnyDigit, Lit('-'), AnyDigit, AnyDigit, AnyDigit, AnyDigit]

  /** The pattern matches s at position p. */
  predicate MatchesAt(s: string, p: int, pat: seq<Sym>)
  {
    0 <= p && p + |pat| <= |s| && forall k :: 0 <= k < |pat| ==> Fits(s[p + k], pat[k])
  }

  /** `s.match(pat)` for an unanchored pattern: the leftmost position, from
      `from` on, where it matches. */
  function FirstMatch(s: string, pat: seq<Sym>, from: nat): (r: Option<nat>)
    ensures r.Some? ==> from <= r.value && MatchesAt(s, r.value, pat)
    ensures r.Some? ==> forall q :: from <= q < r.value ==> !MatchesAt(s, q, pat)
    ensures r.None? ==> forall q :: from <= q ==> !MatchesAt(s, q, pat)
    decreases |s| - from
  {
    if from + |pat| > |s| then None
    else if MatchesAt(s, from, pat) then Some(from)
    else FirstMatch(s, pat, from + 1)
  }

  /** `${match[3]}-${match[2]}-${match[1]}` for a DD?MM?YYYY match at p. */
  function DayFirst(s: string, p: nat): string
    requires p + 10 <= |s|
  {
    s[p + 6..p + 10] + "-" + s[p + 3..p + 5] + "-" + s[p..p + 2]
  }

  /** `formatDate(dateStr)`: the three patterns tried in order; a day-first
      match is rewritten as YYYY-MM-DD, a YYYY-MM-DD match returns the
      input unchanged, and no match gives today. */
  function FormatDate(dateStr: string, today: string): string
  {
    match FirstMatch(dateStr, DayMonthYearSlash, 0)
    case Some(p) => DayFirst(dateStr, p)
    case None =>
      if FirstMatch(dateStr, YearMonthDay, 0).Some? then dateStr
      else
        match FirstMatch(dateStr, DayMonthYearDash, 0)
        case Some(p) => DayFirst(dateStr, p)
        case None => today
  }

  /** Exactly a YYYY-MM-DD date, as `toISOString().split('T')[0]` gives. */
  predicate IsIsoDate(s: string)
  {
    |s| == 10 && MatchesAt(s, 0, YearMonthDay)
  }

  /** A day-first match has digits where the day, month and year go. */
  lemma DayFirstDigits(s: string, p: nat)
    requires MatchesAt(s, p, DayMonthYearSlash) || MatchesAt(s, p, DayMonthYearDash)
    ensures p + 10 <= |s|
    ensures IsDecimalDigit(s[p]) && IsDecimalDigit(s[p + 1])
    ensures IsDecimalDigit(s[p + 3]) && IsDecimalDigit(s[p + 4])
    ensures IsDecimalDigit(s[p + 6]) && IsDecimalDigit(s[p + 7]) && IsDecimalDigit(s[p + 8]) && IsDecimalDigit(s[p + 9])
  {
    var pat := if MatchesAt(s, p, DayMonthYearSlash) then DayMonthYearSlash else DayMonthYearDash;
    assert MatchesAt(s, p, pat);
    assert Fits(s[p + 0], pat[0]) && Fits(s[p + 1], pat[1]) && Fits(s[p + 3], pat[3]) && Fits(s[p + 4], pat[4]);
    assert Fits(s[p + 6], pat[6]) && Fits(s[p + 7], pat[7]) && Fits(s[p + 8], pat[8]) && Fits(s[p + 9], pat[9]);
  }

  /** A day-first match rewrites to an ISO date. */
  lemma DayFirstIsIso(s: string, p: nat)
    requires MatchesAt(s, p, DayMonthYearSlash) || MatchesAt(s, p, DayMonthYearDash)
    ensures p + 10 <= |s| && IsIsoDate(DayFirst(s, p))
  {
    DayFirstDigits(s, p);
    var r := DayFirst(s, p);
    assert r == [s[p + 6], s[p + 7], s[p + 8], s[p + 9], '-', s[p + 3], s[p + 4], '-', s[p], s[p + 1]];
    forall k | 0 <= k < 10 ensures Fits(r[k], YearMonthDay[k]) {
      if k == 4 || k == 7 {
        assert r[k] == '-' && YearMonthDay[k] == Lit('-');
      } else {
        assert IsDecimalDigit(r[k]) && YearMonthDay[k] == AnyDigit;
      }
    }
  }

  /** An ISO date is returned as it is. */
  lemma IsoDateKept(s: string, today: string)
    requires IsIsoDate(s)
    ensures FormatDate(s, today) == s
  {
    assert Fits(s[2], YearMonthDay[2]);
    assert !Fits(s[2], DayMonthYearSlash[2]);
    assert !MatchesAt(s, 0, DayMonthYearSlash);
    assert FirstMatch(s, YearMonthDay, 0) == Some(0);
  }

  /** A DD/MM/YYYY or DD-MM-YYYY date becomes YYYY-MM-DD with the same
      day, month and year. */
  lemma DayFirstRewritten(s: string, today: string)
    requires |s| == 10 && (MatchesAt(s, 0, DayMonthYearSlash) || MatchesAt(s, 0, DayMonthYearDash))
    ensures FormatDate(s, today) == s[6..10] + "-" + s[3..5] + "-" + s[0..2]
    ensures IsIsoDate(FormatDate(s, today))
  {
    DayFirstIsIso(s, 0);
    if !MatchesAt(s, 0, DayMonthYearSlash) {
      assert Fits(s[4], DayMonthYearDash[4]);
      assert !Fits(s[4], YearMonthDay[4]);
      assert !MatchesAt(s, 0, YearMonthDay);
      assert FirstMatch(s, YearMonthDay, 0).None?;
    }
  }

  /** With no pattern anywhere in the input, the date is today; with one,
      the date comes from the input: the input itself or a rewritten
      day-first match. */
  lemma FormatDateSource(s: string, today: string)
    ensures FirstMatch(s, DayMonthYearSlash, 0).None? && FirstMatch(s, YearMonthDay, 0).None?
              && FirstMatch(s, DayMonthYearDash, 0).None?
            ==> FormatDate(s, today) == today
    ensures (exists q :: MatchesAt(s, q, DayMonthYearSlash) || MatchesAt(s, q, YearMonthDay) || MatchesAt(s, q, DayMonthYearDash))
            ==> FormatDate(s, today) == s
                || exists p :: 0 <= p && p + 10 <= |s| && FormatDate(s, today) == DayFirst(s, p)
  {
    if exists q :: MatchesAt(s, q, DayMonthYearSlash) || MatchesAt(s, q, YearMonthDay) || MatchesAt(s, q, DayMonthYearDash) {
      var q :| MatchesAt(s, q, DayMonthYearSlash) || MatchesAt(s, q, YearMonthDay) || MatchesAt(s, q, DayMonthYearDash);
      var a := FirstMatch(s, DayMonthYearSlash, 0);
      var b := FirstMatch(s, YearMonthDay, 0);
      var c := FirstMatch(s, DayMonthYearDash, 0);
      if a.Some? {
        assert FormatDate(s, today) == DayFirst(s, a.value);
      } else if b.None? {
        assert c.Some?;
        assert FormatDate(s, today) == DayFirst(s, c.value);
      }
    }
  }

  /** With an ISO today, every normalised date is an ISO date or holds one
      untouched, and normalising twice is normalising once. */
  lemma FormatDateIdempotent(s: string, today: string)
    requires IsIsoDate(today)
    ensures FirstMatch(FormatDate(s, today), YearMonthDay, 0).Some?
    ensures FormatDate(FormatDate(s, today), today) == FormatDate(s, today)
  {
    var r := FormatDate(s, today);
    match FirstMatch(s, DayMonthYearSlash, 0)
    case Some(p) =>
      DayFirstIsIso(s, p);
      IsoDateKept(r, today);
    case None =>
      if FirstMatch(s, YearMonthDay, 0).None? {
        match FirstMatch(s, DayMonthYearDash, 0)
        case Some(p) =>
          DayFirstIsIso(s, p);
          IsoDateKept(r, today);
        case None =>
          IsoDateKept(today, today);
      }
  }

  // Rows

  /** `line.toLowerCase().includes('concurso') || ….includes('data')` on a
      non-empty line: a header. */
  predicate Skipped(t: string)
  {
    t == [] || Contains(Lower(t), "concurso") || Contains(Lower(t), "data")
  }

  /** `parseInt(n.trim())` of each field. */
  function FieldValues(fields: seq<string>): (r: seq<Option<int>>)
    ensures |r| == |fields| && forall k :: 0 <= k < |fields| ==> r[k] == ParseInt(Trim(fields[k]))
  {
    seq(|fields|, k requires 0 <= k < |fields| => ParseInt(Trim(fields[k])))
  }

  /** `.filter(n => !isNaN(n) && n >= 1 && n <= 60)`. */
  function KeepInRange(vs: seq<Option<int>>): (r: seq<int>)
    ensures |r| <= |vs|
    ensures forall k :: 0 <= k < |r| ==> InDomain(r[k])
  {
    if vs == [] then []
    else
      var v := vs[|vs| - 1];
      KeepInRange(vs[..|vs| - 1]) + (if v.Some? && InDomain(v.value) then [v.value] else [])
  }

  /** `fields.map(n => parseInt(n.trim())).filter(n => !isNaN(n) && n >= 1 && n <= 60)`. */
  function InRangeEntries(fields: seq<string>): (r: seq<int>)
    ensures |r| <= |fields|
    ensures forall k :: 0 <= k < |r| ==> InDomain(r[k])
  {
    KeepInRange(FieldValues(fields))
  }

  /** What the loop body makes of line i: a draw, or nothing when the line is
      skipped or does not hold six numbers in 1..60. */
  function ParseLine(line: string, i: nat, today: string): Option<Draw>
  {
    var t := Trim(line);
    if Skipped(t) then None
    else
      var parts := Fields(t);
      if |parts| >= 7 then
        var drawNumber := ParseInt(parts[0]);
        var numbers := InRangeEntries(Slice(parts, 2, 8));
        if drawNumber.Some? && |numbers| == 6 then
          Some(Draw(drawNumber.value, FormatDate(parts[1], today), Some(SortAscending(numbers))))
        else None
      else if |parts| >= 6 then
        var numbers := InRangeEntries(Slice(parts, 0, 6));
        if |numbers| == 6 then Some(Draw(i + 1, today, Some(SortAscending(numbers)))) else None
      else None
  }

  /** `csvText.trim().split('\n')`. */
  function Lines(csvText: string): seq<string>
  {
    SplitOn(Trim(csvText), '\n')
  }

  /** What each line gives. */
  function Parsed(lines: seq<string>, today: string): (r: seq<Option<Draw>>)
    ensures |r| == |lines| && forall k :: 0 <= k < |lines| ==> r[k] == ParseLine(lines[k], k, today)
  {
    seq(|lines|, k requires 0 <= k < |lines| => ParseLine(lines[k], k, today))
  }

  /** The values present, in order. */
  function Somes<T>(xs: seq<Option<T>>): seq<T>
  {
    if xs == [] then []
    else
      var n := |xs| - 1;
      Somes(xs[..n]) + (if xs[n].Some? then [xs[n].value] else [])
  }

  /** The positions of the values present, in order. */
  function Present<T>(xs: seq<Option<T>>): seq<nat>
  {
    if xs == [] then []
    else
      var n := |xs| - 1;
      Present(xs[..n]) + (if xs[n].Some? then [n] else [])
  }

  /** The draws the loop pushes for the lines, in line order. */
  function Records(lines: seq<string>, today: string): seq<Draw>
  {
    Somes(Parsed(lines, today))
  }

  /** The indices of the lines that gave a draw, in order. */
  function Origins(lines: seq<string>, today: string): seq<nat>
  {
    Present(Parsed(lines, today))
  }

  lemma SomesSnoc<T>(xs: seq<Option<T>>, i: nat)
    requires i < |xs|
    ensures Somes(xs[..i + 1]) == Somes(xs[..i]) + (if xs[i].Some? then [xs[i].value] else [])
  {
    assert xs[..i + 1][..i] == xs[..i];
  }

  /** `parseCSVData(csvText)`: the loop over the lines. An empty or header
      line is skipped with `continue`; a line of seven or more fields is
      read as draw number, date and numbers, one of six or more as bare
      numbers; a draw is pushed only when six numbers in 1..60 remain. */
  method ParseCsvData(csvText: string, today: string) returns (draws: seq<Draw>)
    ensures draws == Records(Lines(csvText), today)
  {
    var lines := SplitOn(Trim(csvText), '\n');
    ghost var parsed := Parsed(lines, today);
    draws := [];
    for i := 0 to |lines|
      invariant draws == Somes(parsed[..i])
    {
      SomesSnoc(parsed, i);
      ghost var row := ParseLine(lines[i], i, today);
      assert parsed[i] == row;
      var line := Trim(lines[i]);
      if Skipped(line) {
        assert row == None;
        continue;
      }
      var parts := Fields(line);
      if |parts| >= 7 {
        var drawNumber := ParseInt(parts[0]);
        var drawDate := parts[1];
        var numbers := InRangeEntries(Slice(parts, 2, 8));
        if drawNumber.Some? && |numbers| == 6 {
          var draw := Draw(drawNumber.value, FormatDate(drawDate, today), Some(SortAscending(numbers)));
          assert row == Some(draw);
          draws := draws + [draw];
        } else {
          assert row == None;
        }
      } else if |parts| >= 6 {
        var numbers := InRangeEntries(Slice(parts, 0, 6));
        if |numbers| == 6 {
          var draw := Draw(i + 1, today, Some(SortAscending(numbers)));
          assert row == Some(draw);
          draws := draws + [draw];
        } else {
          assert row == None;
        }
      } else {
        assert row == None;
      }
    }
    assert parsed[..|lines|] == parsed;
  }

  // Properties of one line

  /** A line of eight or more fields gives a draw exactly when its first
      field parses and six of fields 2..7 are numbers in 1..60; the draw
      carries that first field, the normalised date and those numbers
      sorted. A line of exactly seven fields never gives a draw. */
  lemma LongRow(line: string, i: nat, today: string)
    requires !Skipped(Trim(line)) && |Fields(Trim(line))| >= 7
    ensures var parts := Fields(Trim(line));
            var r := ParseLine(line, i, today);
            && (|parts| == 7 ==> r.None?)
            && (r.Some? <==> ParseInt(parts[0]).Some? && |InRangeEntries(parts[2..Min2(|parts|, 8)])| == 6)
            && (r.Some? ==>
                  && r.value.drawNumber == ParseInt(parts[0]).value
                  && r.value.drawDate == FormatDate(parts[1], today)
                  && r.value.numbers == Some(SortAscending(InRangeEntries(parts[2..Min2(|parts|, 8)]))))
  {
    var parts := Fields(Trim(line));
    assert Slice(parts, 2, 8) == parts[2..Min2(|parts|, 8)];
  }

  function Min2(a: int, b: int): int
  {
    if a < b then a else b
  }

  /** A line of exactly six fields gives a draw exactly when all six are
      numbers in 1..60; its draw number is the line's 1-based position
      among all lines, skipped ones included, and its date is today. */
  lemma SixFieldRow(line: string, i: nat, today: string)
    requires !Skipped(Trim(line)) && |Fields(Trim(line))| == 6
    ensures var parts := Fields(Trim(line));
            var r := ParseLine(line, i, today);
            && (r.Some? <==> |InRangeEntries(parts)| == 6)
            && (r.Some? ==> r.value == Draw(i + 1, today, Some(SortAscending(InRangeEntries(parts)))))
  {
    var parts := Fields(Trim(line));
    assert Slice(parts, 0, 6) == parts;
  }

  /** Empty lines, header lines and lines of fewer than six fields give no draw. */
  lemma SkippedLine(line: string, i: nat, today: string)
    requires Skipped(Trim(line)) || |Fields(Trim(line))| < 6
    ensures ParseLine(line, i, today).None?
  {
  }

  /** Six numbers in 1..60, sorted: still six numbers in 1..60, now in
      ascending order, and the same numbers. */
  lemma SortedEntries(ns: seq<int>)
    requires |ns| == 6 && forall k :: 0 <= k < |ns| ==> InDomain(ns[k])
    ensures var s := SortAscending(ns);
            && |s| == 6 && (forall k :: 0 <= k < 6 ==> InDomain(s[k]))
            && Ascending(s) && multiset(s) == multiset(ns)
  {
    var s := SortAscending(ns);
    forall k | 0 <= k < 6 ensures InDomain(s[k]) {
      assert s[k] in multiset(ns);
    }
  }

  /** Every draw a line gives holds six numbers in 1..60, in ascending
      order, and they are the line's in-range entries rearranged. */
  lemma LineDrawShape(line: string, i: nat, today: string)
    requires ParseLine(line, i, today).Some?
    ensures var d := ParseLine(line, i, today).value;
            && d.numbers.Some? && |d.numbers.value| == 6
            && (forall k :: 0 <= k < 6 ==> InDomain(d.numbers.value[k]))
            && Ascending(d.numbers.value)
            && exists fs :: multiset(d.numbers.value) == multiset(InRangeEntries(fs))
  {
    var parts := Fields(Trim(line));
    var fs := if |parts| >= 7 then parts[2..Min2(|parts|, 8)] else parts;
    if |parts| >= 7 {
      LongRow(line, i, today);
    } else {
      SixFieldRow(line, i, today);
    }
    SortedEntries(InRangeEntries(fs));
  }

  // Properties of the whole text

  /** The values present and their positions line up: each value sits at
      its position, the positions ascend, and every other entry is None. */
  lemma {:induction false} SomesAtPresent<T>(xs: seq<Option<T>>)
    ensures var vs := Somes(xs);
            var ps := Present(xs);
            && |vs| == |ps| <= |xs|
            && (forall j :: 0 <= j < |ps| ==> ps[j] < |xs| && xs[ps[j]] == Some(vs[j]))
            && (forall j, k :: 0 <= j < k < |ps| ==> ps[j] < ps[k])
            && (forall i :: 0 <= i < |xs| && i !in ps ==> xs[i].None?)
  {
    if xs != [] {
      var n := |xs| - 1;
      var init := xs[..n];
      SomesAtPresent(init);
      var vs := Somes(xs);
      var ps := Present(xs);
      var vs0 := Somes(init);
      var ps0 := Present(init);
      assert forall i :: 0 <= i < n ==> xs[i] == init[i];
      forall j | 0 <= j < |ps| ensures ps[j] < |xs| && xs[ps[j]] == Some(vs[j]) {
        if j < |ps0| {
          assert ps[j] == ps0[j] && vs[j] == vs0[j];
        }
      }
      forall i | 0 <= i < |xs| && i !in ps ensures xs[i].None? {
        if i < n {
          assert i !in ps0;
        }
      }
    }
  }

  /** The draws and their origins line up: each draw is what its line
      gives, the origins ascend, and every other line gives nothing. */
  lemma RecordsFromOrigins(lines: seq<string>, today: string)
    ensures var rs := Records(lines, today);
            var os := Origins(lines, today);
            && |rs| == |os| <= |lines|
            && (forall j :: 0 <= j < |os| ==> os[j] < |lines| && ParseLine(lines[os[j]], os[j], today) == Some(rs[j]))
            && (forall j, k :: 0 <= j < k < |os| ==> os[j] < os[k])
            && (forall i :: 0 <= i < |lines| && i !in os ==> ParseLine(lines[i], i, today).None?)
  {
    SomesAtPresent(Parsed(lines, today));
  }

  /** Every imported draw holds six numbers in 1..60 in ascending order. */
  lemma RecordsShape(lines: seq<string>, today: string)
    ensures forall d :: d in Records(lines, today) ==>
              d.numbers.Some? && |d.numbers.value| == 6 && Ascending(d.numbers.value)
              && forall k :: 0 <= k < 6 ==> InDomain(d.numbers.value[k])
  {
    RecordsFromOrigins(lines, today);
    var rs := Records(lines, today);
    var os := Origins(lines, today);
    forall d | d in rs
      ensures d.numbers.Some? && |d.numbers.value| == 6 && Ascending(d.numbers.value)
              && forall k :: 0 <= k < 6 ==> InDomain(d.numbers.value[k])
    {
      var j :| 0 <= j < |rs| && rs[j] == d;
      LineDrawShape(lines[os[j]], os[j], today);
    }
  }

  // Export and import

  /** A draw the importer can read back from a line of its own long format. */
  predicate Exportable(d: Draw)
  {
    && d.drawNumber >= 0
    && IsIsoDate(d.drawDate)
    && d.numbers.Some? && |d.numbers.value| == 6
    && (forall k :: 0 <= k < 6 ==> InDomain(d.numbers.value[k]))
    && Ascending(d.numbers.value)
  }

  function Decimals(ns: seq<int>): (r: seq<string>)
    requires forall k :: 0 <= k < |ns| ==> ns[k] >= 0
    ensures |r| == |ns| && forall k :: 0 <= k < |ns| ==> r[k] == Decimal(ns[k])
  {
    seq(|ns|, k requires 0 <= k < |ns| => Decimal(ns[k]))
  }

  /** The fields `draw_number, date, n1, …, n6`. */
  function Row(d: Draw): (fs: seq<string>)
    requires Exportable(d)
    ensures |fs| == 8
  {
    [Decimal(d.drawNumber), d.drawDate] + Decimals(d.numbers.value)
  }

  function RenderLine(d: Draw): string
    requires Exportable(d)
  {
    JoinWith(Row(d), ',')
  }

  /** A digit or a dash: what exported fields are made of. */
  predicate FieldChar(c: char)
  {
    IsDecimalDigit(c) || c == '-'
  }

  lemma {:induction false} JoinCsvChars(fs: seq<string>)
    requires |fs| >= 1 && forall k :: 0 <= k < |fs| ==> forall x :: x in fs[k] ==> FieldChar(x)
    ensures forall x :: x in JoinWith(fs, ',') ==> FieldChar(x) || x == ','
  {
    if |fs| > 1 {
      JoinCsvChars(fs[1..]);
    }
  }

  lemma {:induction false} JoinLast(fs: seq<string>, c: char)
    requires |fs| >= 1 && fs[|fs| - 1] != []
    ensures var j := JoinWith(fs, c); j != [] && j[|j| - 1] == fs[|fs| - 1][|fs[|fs| - 1]| - 1]
  {
    if |fs| > 1 {
      JoinLast(fs[1..], c);
    }
  }

  lemma {:induction false} JoinFirst(fs: seq<string>, c: char)
    requires |fs| >= 1 && fs[0] != []
    ensures var j := JoinWith(fs, c); j != [] && j[0] == fs[0][0]
  {
  }

  /** Values that are all numbers in 1..60 are all kept. */
  lemma {:induction false} KeepAllInRange(vs: seq<Option<int>>, ns: seq<int>)
    requires |vs| == |ns|
    requires forall k :: 0 <= k < |vs| ==> vs[k] == Some(ns[k]) && InDomain(ns[k])
    ensures KeepInRange(vs) == ns
  {
    if vs != [] {
      var n := |vs| - 1;
      KeepAllInRange(vs[..n], ns[..n]);
      assert ns[..n] + [ns[n]] == ns;
    }
  }

  /** A number in 1..60 written out reads back as itself. */
  lemma DecimalEntry(n: int)
    requires 1 <= n <= 60
    ensures ParseInt(Trim(Decimal(n))) == Some(n)
  {
    TrimKeeps(Decimal(n));
    ParseIntDecimal(n, "");
    assert "" + Decimal(n) == Decimal(n);
  }

  lemma EntriesOfDecimals(ns: seq<int>)
    requires forall k :: 0 <= k < |ns| ==> 1 <= ns[k] <= 60
    ensures InRangeEntries(Decimals(ns)) == ns
  {
    var vs := FieldValues(Decimals(ns));
    forall k | 0 <= k < |vs| ensures vs[k] == Some(ns[k]) && InDomain(ns[k]) {
      DecimalEntry(ns[k]);
    }
    KeepAllInRange(vs, ns);
  }

  /** The fields of an exported row are plain and made of digits and dashes. */
  lemma RowFields(d: Draw)
    requires Exportable(d)
    ensures forall k :: 0 <= k < 8 ==> PlainField(Row(d)[k]) && forall x :: x in Row(d)[k] ==> FieldChar(x)
  {
    var fs := Row(d);
    forall k | 0 <= k < 8 ensures PlainField(fs[k]) && forall x :: x in fs[k] ==> FieldChar(x) {
      if k == 1 {
        forall x | x in fs[1] ensures FieldChar(x) {
          var m :| 0 <= m < 10 && fs[1][m] == x;
          assert Fits(d.drawDate[m], YearMonthDay[m]);
        }
      } else {
        var v := if k == 0 then d.drawNumber else d.numbers.value[k - 2];
        assert fs[k] == Decimal(v);
      }
    }
  }

  /** An exported line starts and ends with a digit and holds digits,
      dashes and commas only. */
  lemma LineChars(d: Draw)
    requires Exportable(d)
    ensures var line := RenderLine(d);
            && line != [] && IsDecimalDigit(line[0]) && IsDecimalDigit(line[|line| - 1])
            && forall x :: x in line ==> FieldChar(x) || x == ','
  {
    var fs := Row(d);
    RowFields(d);
    JoinCsvChars(fs);
    JoinFirst(fs, ',');
    JoinLast(fs, ',');
  }

  /** An exported line is its own trim and is not a header. */
  lemma LineNotSkipped(d: Draw)
    requires Exportable(d)
    ensures Trim(RenderLine(d)) == RenderLine(d) && !Skipped(RenderLine(d))
  {
    var line := RenderLine(d);
    LineChars(d);
    TrimKeeps(line);
    NoWordInDigits(line, "concurso");
    NoWordInDigits(line, "data");
  }

  /** The fields of an exported row read back as the draw's values. */
  lemma RowNumber(d: Draw)
    requires Exportable(d)
    ensures ParseInt(Row(d)[0]) == Some(d.drawNumber)
  {
    ParseIntDecimal(d.drawNumber, "");
    assert "" + Decimal(d.drawNumber) == Row(d)[0];
  }

  lemma RowEntries(d: Draw)
    requires Exportable(d)
    ensures InRangeEntries(Slice(Row(d), 2, 8)) == d.numbers.value
  {
    assert Slice(Row(d), 2, 8) == Row(d)[2..8] == Decimals(d.numbers.value);
    EntriesOfDecimals(d.numbers.value);
  }

  /** A long-format line whose pieces read back as given gives that draw. */
  lemma LongLine(line: string, i: nat, today: string, parts: seq<string>, d: Draw)
    requires !Skipped(Trim(line)) && Fields(Trim(line)) == parts && |parts| >= 7
    requires d.numbers.Some?
    requires ParseInt(parts[0]) == Some(d.drawNumber) && FormatDate(parts[1], today) == d.drawDate
    requires InRangeEntries(Slice(parts, 2, 8)) == d.numbers.value && |d.numbers.value| == 6
    requires SortAscending(d.numbers.value) == d.numbers.value
    ensures ParseLine(line, i, today) == Some(d)
  {
  }

  /** A line written in the long format is read back as the draw it came
      from, whatever its position. */
  lemma LineRoundTrip(d: Draw, i: nat, today: string)
    requires Exportable(d)
    ensures ParseLine(RenderLine(d), i, today) == Some(d)
  {
    var line := RenderLine(d);
    LineNotSkipped(d);
    RowFields(d);
    FieldsOfJoin(Row(d));
    RowNumber(d);
    RowEntries(d);
    IsoDateKept(d.drawDate, today);
    SortAscendingKeeps(d.numbers.value);
    LongLine(line, i, today, Row(d), d);
  }

  /** The text of several exported draws, one line each. */
  function Export(draws: seq<Draw>): string
    requires forall k :: 0 <= k < |draws| ==> Exportable(draws[k])
  {
    if draws == [] then "" else JoinWith(seq(|draws|, k requires 0 <= k < |draws| => RenderLine(draws[k])), '\n')
  }

  lemma {:induction false} SplitOfJoin(pieces: seq<string>, c: char)
    requires |pieces| >= 1 && forall k :: 0 <= k < |pieces| ==> c !in pieces[k]
    ensures SplitOn(JoinWith(pieces, c), c) == pieces
  {
    if |pieces| == 1 {
      SplitOfPlain(pieces[0], [], c);
      assert pieces[0] + [] == pieces[0];
      assert pieces == [pieces[0]];
    } else {
      var tail := JoinWith(pieces[1..], c);
      SplitOfJoin(pieces[1..], c);
      assert ([c] + tail)[1..] == tail;
      SplitOfPlain(pieces[0], [c] + tail, c);
      assert JoinWith(pieces, c) == pieces[0] + ([c] + tail);
      assert pieces[0] + "" == pieces[0];
      assert [pieces[0]] + pieces[1..] == pieces;
    }
  }

  lemma {:induction false} SplitOfPlain(f: string, rest: string, c: char)
    requires c !in f
    requires rest == [] || rest[0] == c
    ensures var r := SplitOn(rest, c); SplitOn(f + rest, c) == [f + r[0]] + r[1..]
  {
    if f == [] {
      assert f + rest == rest;
      assert f + SplitOn(rest, c)[0] == SplitOn(rest, c)[0];
      assert [SplitOn(rest, c)[0]] + SplitOn(rest, c)[1..] == SplitOn(rest, c);
    } else {
      SplitOfPlain(f[1..], rest, c);
      assert (f + rest)[1..] == f[1..] + rest;
      assert [f[0]] + (f[1..] + SplitOn(rest, c)[0]) == f + SplitOn(rest, c)[0];
    }
  }

  lemma {:induction false} SomesOfAll<T>(xs: seq<Option<T>>, vs: seq<T>)
    requires |xs| == |vs| && forall k :: 0 <= k < |xs| ==> xs[k] == Some(vs[k])
    ensures Somes(xs) == vs
  {
    if xs != [] {
      var n := |xs| - 1;
      SomesOfAll(xs[..n], vs[..n]);
      assert vs[..n] + [vs[n]] == vs;
    }
  }

  /** The lines of an export are the exported lines. */
  lemma ExportLines(draws: seq<Draw>)
    requires |draws| >= 1 && forall k :: 0 <= k < |draws| ==> Exportable(draws[k])
    ensures Lines(Export(draws)) == seq(|draws|, k requires 0 <= k < |draws| => RenderLine(draws[k]))
  {
    var lines := seq(|draws|, k requires 0 <= k < |draws| => RenderLine(draws[k]));
    forall k | 0 <= k < |lines| ensures '\n' !in lines[k] && lines[k] != [] && IsDecimalDigit(lines[k][0])
      && IsDecimalDigit(lines[k][|lines[k]| - 1])
    {
      LineChars(draws[k]);
    }
    JoinFirst(lines, '\n');
    JoinLast(lines, '\n');
    TrimKeeps(Export(draws));
    SplitOfJoin(lines, '\n');
  }

  /** Importing exported draws gives them back, in order. */
  lemma ImportExport(draws: seq<Draw>, today: string)
    requires forall k :: 0 <= k < |draws| ==> Exportable(draws[k])
    ensures Records(Lines(Export(draws)), today) == draws
  {
    if draws == [] {
      assert Trim("") == "";
      assert Lines("") == [""];
      assert Parsed([""], today)[0] == None;
      assert Somes(Parsed([""], today)) == Somes(Parsed([""], today)[..0]);
    } else {
      var lines := seq(|draws|, k requires 0 <= k < |draws| => RenderLine(draws[k]));
      ExportLines(draws);
      forall k | 0 <= k < |lines| ensures Parsed(lines, today)[k] == Some(draws[k]) {
        LineRoundTrip(draws[k], k, today);
      }
      SomesOfAll(Parsed(lines, today), draws);
    }
  }
}
