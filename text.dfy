/** The JavaScript string operations the CSV importer relies on: `trim`,
    `split`, `toLowerCase`, `includes` and `parseInt`, on strings of
    Unicode characters. */
module Text {
  import opened Wrappers

  /** ECMAScript's WhiteSpace and LineTerminator characters, the ones `trim`
      and `parseInt` strip: tab, line feed, vertical tab, form feed,
      carriage return, space, no-break space, the byte order mark, the
      line and paragraph separators and the space separators of
      Unicode category Zs. */
  predicate IsSpace(c: char)
  {
    var x := c as int;
    || (9 <= x <= 13) || x == 32 || x == 0xA0 || x == 0x1680
    || (0x2000 <= x <= 0x200A) || x == 0x2028 || x == 0x2029
    || x == 0x202F || x == 0x205F || x == 0x3000 || x == 0xFEFF
  }

  /** The leading white space removed. */
  function TrimStart(s: string): (r: string)
    ensures |r| <= |s| && r == s[|s| - |r|..]
    ensures r == [] || !IsSpace(r[0])
    ensures forall k :: 0 <= k < |s| - |r| ==> IsSpace(s[k])
  {
    if s != [] && IsSpace(s[0]) then TrimStart(s[1..]) else s
  }

  /** The trailing white space removed. */
  function TrimEnd(s: string): (r: string)
    ensures |r| <= |s| && r == s[..|r|]
    ensures r == [] || !IsSpace(r[|r| - 1])
    ensures forall k :: |r| <= k < |s| ==> IsSpace(s[k])
  {
    if s != [] && IsSpace(s[|s| - 1]) then TrimEnd(s[..|s| - 1]) else s
  }

  /** `s.trim()`: the longest piece of s that neither starts nor ends with
      white space, once the white space around it is dropped. */
  function Trim(s: string): (r: string)
    ensures r == [] || (!IsSpace(r[0]) && !IsSpace(r[|r| - 1]))
    ensures |r| <= |s|
  {
    TrimEnd(TrimStart(s))
  }

  /** A string with no white space at either end is its own trim. */
  lemma TrimKeeps(s: string)
    requires s == [] || (!IsSpace(s[0]) && !IsSpace(s[|s| - 1]))
    ensures Trim(s) == s
  {
    assert TrimStart(s) == s;
  }

  /** Trimming twice is trimming once. */
  lemma TrimIdempotent(s: string)
    ensures Trim(Trim(s)) == Trim(s)
  {
    TrimKeeps(Trim(s));
  }

  // Splitting

  /** `s.split(c)` for a one-character separator: the pieces between the
      occurrences of c, always at least one. */
  function SplitOn(s: string, c: char): (r: seq<string>)
    ensures |r| >= 1
    ensures forall k :: 0 <= k < |r| ==> c !in r[k]
  {
    if s == [] then [""]
    else
      var rest := SplitOn(s[1..], c);
      if s[0] == c then [""] + rest else [[s[0]] + rest[0]] + rest[1..]
  }

  /** `pieces.join(c)`. */
  function JoinWith(pieces: seq<string>, c: char): string
    requires |pieces| >= 1
  {
    if |pieces| == 1 then pieces[0] else pieces[0] + [c] + JoinWith(pieces[1..], c)
  }

  /** Splitting on c and joining with c gives the text back. */
  lemma {:induction false} JoinSplit(s: string, c: char)
    ensures JoinWith(SplitOn(s, c), c) == s
  {
    if s != [] {
      JoinSplit(s[1..], c);
      var rest := SplitOn(s[1..], c);
      if s[0] != c {
        if |rest| > 1 {
          assert ([[s[0]] + rest[0]] + rest[1..])[1..] == rest[1..];
        }
      } else {
        assert ([""] + rest)[1..] == rest;
      }
    }
  }

  /** The field separators of the pattern `/[,;\t]+/`. */
  predicate IsSeparator(c: char)
  {
    c == ',' || c == ';' || c == '\t'
  }

  /** `s.split(/[,;\t]+/)`: every run of separators splits once; a run at
      the start or the end leaves an empty field there. */
  function Fields(s: string): (r: seq<string>)
    ensures |r| >= 1
    ensures forall k :: 0 <= k < |r| ==> forall x :: x in r[k] ==> !IsSeparator(x)
  {
    if s == [] then [""]
    else
      var rest := Fields(s[1..]);
      if IsSeparator(s[0]) then
        (if |s| > 1 && IsSeparator(s[1]) then rest else [""] + rest)
      else [[s[0]] + rest[0]] + rest[1..]
  }

  /** A field the importer can write back: not empty and free of separators. */
  predicate PlainField(f: string)
  {
    f != [] && forall x :: x in f ==> !IsSeparator(x)
  }

  /** Joining plain fields with commas and splitting the line gives the
      fields back. */
  lemma {:induction false} FieldsOfJoin(fs: seq<string>)
    requires |fs| >= 1 && forall k :: 0 <= k < |fs| ==> PlainField(fs[k])
    ensures Fields(JoinWith(fs, ',')) == fs
  {
    if |fs| == 1 {
      FieldsOfPlain(fs[0], []);
      assert fs[0] + [] == fs[0];
      assert fs == [fs[0]];
    } else {
      var tail := JoinWith(fs[1..], ',');
      FieldsOfJoin(fs[1..]);
      assert fs[1..][0] == fs[1];
      assert tail[0] == fs[1][0] by { JoinHead(fs[1..]); }
      assert fs[1][0] in fs[1];
      assert !IsSeparator(tail[0]);
      assert Fields([','] + tail) == [""] + fs[1..] by {
        assert ([','] + tail)[1..] == tail;
      }
      FieldsOfPlain(fs[0], [','] + tail);
      assert JoinWith(fs, ',') == fs[0] + ([','] + tail);
      assert fs[0] + "" == fs[0];
      assert ([""] + fs[1..])[1..] == fs[1..];
      assert [fs[0]] + fs[1..] == fs;
    }
  }

  /** A joined line starts with the first character of its first field. */
  lemma {:induction false} JoinHead(fs: seq<string>)
    requires |fs| >= 1 && fs[0] != []
    ensures JoinWith(fs, ',') != [] && JoinWith(fs, ',')[0] == fs[0][0]
  {
  }

  /** A plain field in front of a line glues onto the line's first field. */
  lemma {:induction false} FieldsOfPlain(f: string, rest: string)
    requires forall x :: x in f ==> !IsSeparator(x)
    requires rest == [] || IsSeparator(rest[0])
    ensures var r := Fields(rest); Fields(f + rest) == [f + r[0]] + r[1..]
  {
    if f == [] {
      assert f + rest == rest;
      assert f + Fields(rest)[0] == Fields(rest)[0];
      assert [Fields(rest)[0]] + Fields(rest)[1..] == Fields(rest);
    } else {
      FieldsOfPlain(f[1..], rest);
      assert (f + rest)[1..] == f[1..] + rest;
      if f[1..] == [] {
        assert f[1..] + rest == rest;
      } else {
        assert (f[1..] + rest)[0] == f[1];
      }
      assert [f[0]] + (f[1..] + Fields(rest)[0]) == f + Fields(rest)[0];
    }
  }

  // Case and search

  /** `toLowerCase` on one character; outside A..Z the character is kept. */
  function LowerChar(c: char): (r: char)
    ensures 'A' <= c <= 'Z' ==> 'a' <= r <= 'z' && r as int - c as int == 32
    ensures !('A' <= c <= 'Z') ==> r == c
  {
    if 'A' <= c <= 'Z' then (c as int + 32) as char else c
  }

  function Lower(s: string): (r: string)
    ensures |r| == |s| && forall k :: 0 <= k < |s| ==> r[k] == LowerChar(s[k])
  {
    seq(|s|, k requires 0 <= k < |s| => LowerChar(s[k]))
  }

  /** w occurs in s starting at position i. */
  predicate OccursAt(s: string, w: string, i: int)
  {
    0 <= i && i + |w| <= |s| && s[i..i + |w|] == w
  }

  /** `s.includes(w)`. */
  predicate Contains(s: string, w: string)
  {
    exists i | 0 <= i <= |s| :: OccursAt(s, w, i)
  }

  /** A word that starts with a letter occurs in no lower-cased string made
      of digits, dashes and commas. */
  lemma NoWordInDigits(s: string, w: string)
    requires forall x :: x in s ==> IsDecimalDigit(x) || x == '-' || x == ','
    requires w != [] && 'a' <= w[0] <= 'z'
    ensures !Contains(Lower(s), w)
  {
    forall i | 0 <= i < |s| ensures !('a' <= Lower(s)[i] <= 'z') {
      assert s[i] in s;
    }
    forall i | 0 <= i && i + |w| <= |s| ensures !OccursAt(Lower(s), w, i) {
      assert Lower(s)[i..i + |w|][0] == Lower(s)[i];
    }
  }

  // parseInt

  predicate IsDecimalDigit(c: char)
  {
    '0' <= c <= '9'
  }

  /** The digits `parseInt` accepts in radix 10 or 16. */
  predicate IsDigitIn(c: char, radix: nat)
  {
    IsDecimalDigit(c) || (radix == 16 && ('a' <= c <= 'f' || 'A' <= c <= 'F'))
  }

  function DigitValue(c: char): (v: nat)
    ensures IsDecimalDigit(c) ==> v == c as int - '0' as int && v < 10
    ensures !IsDecimalDigit(c) && IsDigitIn(c, 16) ==> 10 <= v < 16
  {
    if IsDecimalDigit(c) then c as int - '0' as int
    else if 'a' <= c <= 'f' then c as int - 'a' as int + 10
    else if 'A' <= c <= 'F' then c as int - 'A' as int + 10
    else 0
  }

  /** The longest prefix of s made of digits of the radix. */
  function DigitRun(s: string, radix: nat): (r: string)
    ensures r <= s
    ensures forall k :: 0 <= k < |r| ==> IsDigitIn(r[k], radix)
    ensures |r| < |s| ==> !IsDigitIn(s[|r|], radix)
  {
    if s == [] || !IsDigitIn(s[0], radix) then [] else [s[0]] + DigitRun(s[1..], radix)
  }

  /** The value of a run of digits, most significant first. */
  function ValueOf(ds: string, radix: nat): nat
  {
    if ds == [] then 0
    else
      var high := ValueOf(ds[..|ds| - 1], radix);
      (if radix == 16 then high * 16 else high * 10) + DigitValue(ds[|ds| - 1])
  }

  /** The longest run of digits of the radix at the start of v, as a
      number; None (NaN) when there is none. */
  function DigitsValue(v: string, radix: nat): (r: Option<nat>)
    ensures r.None? <==> v == [] || !IsDigitIn(v[0], radix)
  {
    var ds := DigitRun(v, radix);
    if ds == [] then None else Some(ValueOf(ds, radix))
  }

  /** A `0x` or `0X` prefix, which switches `parseInt` to radix 16. */
  predicate HexPrefix(u: string)
  {
    |u| >= 2 && u[0] == '0' && (u[1] == 'x' || u[1] == 'X')
  }

  /** The unsigned part: hexadecimal after a `0x` prefix, decimal otherwise. */
  function UnsignedValue(u: string): Option<nat>
  {
    if HexPrefix(u) then DigitsValue(u[2..], 16) else DigitsValue(u, 10)
  }

  /** `parseInt` once the leading white space is gone: one optional sign,
      then the unsigned part. */
  function SignedValue(t: string): Option<int>
  {
    var negative := t != [] && t[0] == '-';
    var u := if t != [] && (t[0] == '-' || t[0] == '+') then t[1..] else t;
    match UnsignedValue(u)
    case Some(v) => var w: int := v; Some(if negative then -w else w)
    case None => None
  }

  /** `parseInt(s)` with no radix: leading white space skipped, one optional
      sign, a `0x` or `0X` prefix switching to radix 16, then the longest
      run of digits; no digit at all is NaN (None). */
  function ParseInt(s: string): Option<int>
  {
    SignedValue(TrimStart(s))
  }

  /** The decimal digits of n, as `String(n)` writes them. */
  function Decimal(n: nat): (r: string)
    ensures r != [] && forall k :: 0 <= k < |r| ==> IsDecimalDigit(r[k])
    ensures |r| > 1 ==> r[0] != '0'
  {
    if n < 10 then [('0' as int + n) as char]
    else Decimal(n / 10) + [('0' as int + n % 10) as char]
  }

  lemma {:induction false} DigitRunOfDigits(s: string)
    requires forall k :: 0 <= k < |s| ==> IsDecimalDigit(s[k])
    ensures DigitRun(s, 10) == s
  {
    if s != [] {
      DigitRunOfDigits(s[1..]);
    }
  }

  lemma {:induction false} ValueOfDecimal(n: nat)
    ensures ValueOf(Decimal(n), 10) == n
  {
    if n >= 10 {
      ValueOfDecimal(n / 10);
      var d := Decimal(n);
      assert d[..|d| - 1] == Decimal(n / 10);
    }
  }

  /** Decimal digits read as a decimal number. */
  lemma UnsignedOfDigits(digits: string)
    requires digits != [] && forall k :: 0 <= k < |digits| ==> IsDecimalDigit(digits[k])
    ensures UnsignedValue(digits) == Some(ValueOf(digits, 10))
  {
    assert |digits| >= 2 ==> IsDecimalDigit(digits[1]);
    DigitRunOfDigits(digits);
  }

  /** `parseInt` of text that, once its leading white space is skipped,
      is decimal digits only. */
  lemma ParseIntOfDigits(s: string, digits: string)
    requires digits != [] && forall k :: 0 <= k < |digits| ==> IsDecimalDigit(digits[k])
    requires TrimStart(s) == digits
    ensures ParseInt(s) == Some(ValueOf(digits, 10))
  {
    UnsignedOfDigits(digits);
    SignedOfPlain(digits);
  }

  /** Text starting with a digit carries no sign. */
  lemma SignedOfPlain(t: string)
    requires t != [] && IsDecimalDigit(t[0])
    ensures UnsignedValue(t).Some? ==> SignedValue(t) == Some(UnsignedValue(t).value)
  {
  }

  /** `parseInt` reads back what `String(n)` writes, after any leading
      white space. */
  lemma ParseIntDecimal(n: nat, spaces: string)
    requires forall k :: 0 <= k < |spaces| ==> IsSpace(spaces[k])
    ensures ParseInt(spaces + Decimal(n)) == Some(n)
  {
    SkipSpaces(spaces, Decimal(n));
    ParseIntOfDigits(spaces + Decimal(n), Decimal(n));
    ValueOfDecimal(n);
  }

  lemma {:induction false} SkipSpaces(spaces: string, s: string)
    requires forall k :: 0 <= k < |spaces| ==> IsSpace(spaces[k])
    requires s != [] && !IsSpace(s[0])
    ensures TrimStart(spaces + s) == s
  {
    var t := spaces + s;
    if spaces == [] {
      assert t == s;
    } else {
      assert t[0] == spaces[0] && t[1..] == spaces[1..] + s;
      SkipSpaces(spaces[1..], s);
    }
  }
}
