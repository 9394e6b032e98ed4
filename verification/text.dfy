/** The handful of Python string operations the glossary builder, the
    transcript normaliser and the emotion labeller rely on: `strip`,
    `in`, `endswith`, `replace`, `capitalize` and integer formatting.
    Strings are sequences of Unicode scalar values, as Python's `str` is. */
module Text {

  /** Python's `str.isspace()` on one character: the ASCII tab, line feed,
      vertical tab, form feed and carriage return, the four information
      separators, space, next line, no-break space, and the Unicode space
      and line/paragraph separators. */
  predicate IsSpace(c: char) {
    || c == ' '
    || '\t' <= c <= '\r'
    || '\U{1C}' <= c <= '\U{1F}'
    || c == '\U{85}' || c == '\U{A0}' || c == '\U{1680}'
    || '\U{2000}' <= c <= '\U{200A}'
    || c == '\U{2028}' || c == '\U{2029}' || c == '\U{202F}' || c == '\U{205F}'
    || c == '\U{3000}'
  }

  /** The characters a `strip` call removes: Python whitespace when it is
      called without argument, or the characters of its argument. */
  datatype StripSet = Whitespace | Chars(chars: set<char>) {
    predicate Has(c: char) {
      match this
      case Whitespace => IsSpace(c)
      case Chars(cs) => c in cs
    }
  }

  /** Every character of `s` belongs to `cs`. */
  predicate AllIn(s: string, cs: StripSet) {
    forall i :: 0 <= i < |s| ==> cs.Has(s[i])
  }

  /** Neither end of `s` is a character of `cs`. */
  predicate IsStrippedOf(s: string, cs: StripSet) {
    s == [] || (!cs.Has(s[0]) && !cs.Has(s[|s| - 1]))
  }

  /** `s` is unchanged by Python's `s.strip()`. */
  predicate IsStripped(s: string) {
    IsStrippedOf(s, Whitespace)
  }

  /** Drops the longest prefix made of characters in `cs`. */
  function StripLeft(s: string, cs: StripSet): string {
    if |s| > 0 && cs.Has(s[0]) then StripLeft(s[1..], cs) else s
  }

  /** `StripLeft` keeps a suffix, removes only characters of `cs`, and
      stops at the first character outside `cs`. */
  lemma {:induction false} StripLeftSpec(s: string, cs: StripSet)
    ensures var r := StripLeft(s, cs);
            |r| <= |s| && r == s[|s| - |r|..] && AllIn(s[..|s| - |r|], cs) &&
            (r == [] || !cs.Has(r[0]))
  {
    if |s| > 0 && cs.Has(s[0]) {
      StripLeftSpec(s[1..], cs);
      var r := StripLeft(s[1..], cs);
      assert s[1..][..|s| - 1 - |r|] == s[1..|s| - |r|];
    }
  }

  /** Drops the longest suffix made of characters in `cs`. */
  function StripRight(s: string, cs: StripSet): string {
    if |s| > 0 && cs.Has(s[|s| - 1]) then StripRight(s[..|s| - 1], cs) else s
  }

  /** `StripRight` keeps a prefix, removes only characters of `cs`, and
      stops at the last character outside `cs`. */
  lemma {:induction false} StripRightSpec(s: string, cs: StripSet)
    ensures var r := StripRight(s, cs);
            |r| <= |s| && r == s[..|r|] && AllIn(s[|r|..], cs) &&
            (r == [] || !cs.Has(r[|r| - 1]))
  {
    if |s| > 0 && cs.Has(s[|s| - 1]) {
      StripRightSpec(s[..|s| - 1], cs);
      var r := StripRight(s[..|s| - 1], cs);
      assert s[..|s| - 1][|r|..] + [s[|s| - 1]] == s[|r|..];
    }
  }

  /** Python's `s.strip(chars)` with the characters of `cs`. */
  function StripChars(s: string, cs: StripSet): string {
    StripRight(StripLeft(s, cs), cs)
  }

  /** What `strip` promises: the result is a middle slice of `s` with no
      character of `cs` at either end and only such characters around it. */
  lemma StripCharsIsSlice(s: string, cs: StripSet)
    ensures IsStrippedOf(StripChars(s, cs), cs)
    ensures var r := StripChars(s, cs);
            exists i :: 0 <= i && i + |r| <= |s| && r == s[i..i + |r|]
                        && AllIn(s[..i], cs) && AllIn(s[i + |r|..], cs)
  {
    var l := StripLeft(s, cs);
    var r := StripRight(l, cs);
    StripLeftSpec(s, cs);
    StripRightSpec(l, cs);
    var i := |s| - |l|;
    assert s[i..i + |r|] == r;
    assert s[i + |r|..] == l[|r|..];
  }

  /** The result of `strip` is empty exactly when `s` consists of removable
      characters only. */
  lemma StripCharsEmpty(s: string, cs: StripSet)
    ensures StripChars(s, cs) == [] <==> AllIn(s, cs)
  {
    var l := StripLeft(s, cs);
    var r := StripRight(l, cs);
    StripLeftSpec(s, cs);
    StripRightSpec(l, cs);
    var i := |s| - |l|;
    assert r == [] ==> l == [] by { assert r == [] ==> l[|r|..] == l; }
    assert l == [] ==> s[..i] == s;
    assert AllIn(s, cs) ==> l == [] by {
      if l != [] { assert l[0] == s[i] && !cs.Has(l[0]); }
    }
  }

  /** A string already stripped is returned unchanged. */
  lemma StripCharsStripped(s: string, cs: StripSet)
    requires IsStrippedOf(s, cs)
    ensures StripChars(s, cs) == s
  {
  }

  /** Python's `s.strip()`. */
  function Strip(s: string): string {
    StripChars(s, Whitespace)
  }

  /** `s.strip()` has no whitespace at either end, is empty exactly when
      `s` is blank, and leaves a stripped string unchanged. */
  lemma StripSpec(s: string)
    ensures IsStripped(Strip(s))
    ensures Strip(s) == [] <==> AllIn(s, Whitespace)
    ensures IsStripped(s) ==> Strip(s) == s
  {
    StripCharsIsSlice(s, Whitespace);
    StripCharsEmpty(s, Whitespace);
    if IsStripped(s) { StripCharsStripped(s, Whitespace); }
  }

  /** A string with a non-whitespace character at either end is not blank. */
  lemma NotBlank(s: string)
    requires s != [] && (!IsSpace(s[0]) || !IsSpace(s[|s| - 1]))
    ensures Strip(s) != []
  {
    StripSpec(s);
  }

  /** Joining a string that starts with non-whitespace to one that ends
      with non-whitespace gives a string `strip` leaves alone. */
  lemma StripJoin(a: string, b: string)
    requires a != [] && !IsSpace(a[0])
    requires b != [] && !IsSpace(b[|b| - 1])
    ensures Strip(a + b) == a + b
  {
    var c := a + b;
    assert c[0] == a[0] && c[|c| - 1] == b[|b| - 1];
    StripSpec(c);
  }

  /** `pat` occurs in `s` starting at index `i`. */
  predicate OccursAt(s: string, pat: string, i: int) {
    0 <= i <= |s| - |pat| && s[i..i + |pat|] == pat
  }

  /** An occurrence in `s[1..]` is an occurrence in `s`, one place later. */
  lemma OccursAtTail(s: string, pat: string, j: int)
    requires |s| > 0 && 0 <= j
    ensures OccursAt(s[1..], pat, j) <==> OccursAt(s, pat, j + 1)
  {
    if 0 <= j <= |s| - 1 - |pat| {
      assert s[1..][j..j + |pat|] == s[j + 1..j + 1 + |pat|];
    }
  }

  /** Python's `pat in s` on two strings, by a left-to-right scan. */
  predicate Contains(s: string, pat: string)
    decreases |s|
  {
    if |pat| > |s| then false
    else if s[..|pat|] == pat then true
    else Contains(s[1..], pat)
  }

  /** The scan finds `pat` exactly when it occurs as a contiguous slice. */
  lemma {:induction false} ContainsSpec(s: string, pat: string)
    ensures Contains(s, pat) <==> exists i :: OccursAt(s, pat, i)
    decreases |s|
  {
    if |pat| > |s| {
    } else if s[..|pat|] == pat {
      assert OccursAt(s, pat, 0);
    } else {
      ContainsSpec(s[1..], pat);
      if Contains(s[1..], pat) {
        var j :| OccursAt(s[1..], pat, j);
        OccursAtTail(s, pat, j);
      }
      if i :| OccursAt(s, pat, i) {
        assert i != 0;
        OccursAtTail(s, pat, i - 1);
      }
    }
  }

  /** Python's `s.endswith(suffix)`. */
  predicate EndsWith(s: string, suffix: string) {
    |suffix| <= |s| && s[|s| - |suffix|..] == suffix
  }

  /** Python's `s.replace(pat, rep)`: scanning left to right, every
      non-overlapping occurrence of `pat` is replaced by `rep`; an empty
      `pat` matches before every character and once more at the end. */
  function ReplaceAll(s: string, pat: string, rep: string): string
    decreases |s|
  {
    if pat == [] then
      (if s == [] then rep else rep + [s[0]] + ReplaceAll(s[1..], pat, rep))
    else if |s| < |pat| then s
    else if s[..|pat|] == pat then rep + ReplaceAll(s[|pat|..], pat, rep)
    else [s[0]] + ReplaceAll(s[1..], pat, rep)
  }

  /** Where the pattern occurs, the replacement shows up in the result. */
  lemma {:induction false} ReplaceAllHasRep(s: string, pat: string, rep: string)
    requires pat != [] && rep != [] && Contains(s, pat)
    ensures rep[0] in ReplaceAll(s, pat, rep)
    decreases |s|
  {
    if s[..|pat|] != pat {
      ReplaceAllHasRep(s[1..], pat, rep);
    }
  }

  /** A string with a character outside the whitespace set is not blank. */
  lemma HasNonSpace(s: string, c: char)
    requires c in s && !IsSpace(c)
    ensures Strip(s) != []
  {
    StripSpec(s);
  }

  /** A string in which the pattern does not occur is left unchanged. */
  lemma {:induction false} ReplaceAllAbsent(s: string, pat: string, rep: string)
    requires pat != [] && !Contains(s, pat)
    ensures ReplaceAll(s, pat, rep) == s
    decreases |s|
  {
    if |s| >= |pat| {
      ReplaceAllAbsent(s[1..], pat, rep);
    }
  }

  /** Replacing a pattern by itself changes nothing. */
  lemma {:induction false} ReplaceAllSame(s: string, pat: string)
    ensures ReplaceAll(s, pat, pat) == s
    decreases |s|
  {
    if pat == [] {
      if s != [] {
        ReplaceAllSame(s[1..], pat);
        assert [s[0]] + s[1..] == s;
      }
    } else if |s| >= |pat| {
      if s[..|pat|] == pat {
        ReplaceAllSame(s[|pat|..], pat);
        assert s[..|pat|] + s[|pat|..] == s;
      } else {
        ReplaceAllSame(s[1..], pat);
        assert [s[0]] + s[1..] == s;
      }
    }
  }

  /** With a non-empty pattern and replacement, `replace` on a non-empty
      string yields a non-empty string that starts with the first character
      of `s` or of `rep`, and ends with the last character of `s` or of `rep`. */
  lemma {:induction false} ReplaceAllEnds(s: string, pat: string, rep: string)
    requires s != [] && pat != [] && rep != []
    ensures ReplaceAll(s, pat, rep) != []
    ensures ReplaceAll(s, pat, rep)[0] == s[0] || ReplaceAll(s, pat, rep)[0] == rep[0]
    ensures Last(ReplaceAll(s, pat, rep)) == Last(s) || Last(ReplaceAll(s, pat, rep)) == Last(rep)
    decreases |s|
  {
    if |s| < |pat| {
    } else if s[..|pat|] == pat {
      var rest := s[|pat|..];
      if rest != [] {
        ReplaceAllEnds(rest, pat, rep);
        assert Last(rep + ReplaceAll(rest, pat, rep)) == Last(ReplaceAll(rest, pat, rep));
      }
    } else {
      var rest := s[1..];
      if rest != [] {
        ReplaceAllEnds(rest, pat, rep);
        assert Last([s[0]] + ReplaceAll(rest, pat, rep)) == Last(ReplaceAll(rest, pat, rep));
      }
    }
  }

  /** When neither `s` nor `rep` ends in whitespace, neither does `s.replace(pat, rep)`. */
  lemma ReplaceAllLastNotSpace(s: string, pat: string, rep: string)
    requires s != [] && pat != [] && rep != []
    requires !IsSpace(Last(s)) && !IsSpace(Last(rep))
    ensures ReplaceAll(s, pat, rep) != [] && !IsSpace(Last(ReplaceAll(s, pat, rep)))
  {
    ReplaceAllEnds(s, pat, rep);
  }

  /** The last character of a non-empty string. */
  function Last(s: string): char
    requires s != []
  {
    s[|s| - 1]
  }

  /** ASCII upper-casing of one character; other characters are unchanged. */
  function ToUpper(c: char): char {
    if 'a' <= c <= 'z' then (c as int - 32) as char else c
  }

  /** ASCII lower-casing of one character; other characters are unchanged. */
  function ToLower(c: char): char {
    if 'A' <= c <= 'Z' then (c as int + 32) as char else c
  }

  function LowerAll(s: string): (r: string)
    ensures |r| == |s|
    ensures forall i :: 0 <= i < |s| ==> r[i] == ToLower(s[i])
  {
    if s == [] then [] else [ToLower(s[0])] + LowerAll(s[1..])
  }

  /** Python's `s.capitalize()` on ASCII letters: the first character
      upper-cased, every other character lower-cased. */
  function Capitalize(s: string): (r: string)
    ensures |r| == |s|
    ensures |s| > 0 ==> r[0] == ToUpper(s[0])
    ensures forall i :: 1 <= i < |s| ==> r[i] == ToLower(s[i])
  {
    if s == [] then [] else [ToUpper(s[0])] + LowerAll(s[1..])
  }

  predicate IsDigit(c: char) {
    '0' <= c <= '9'
  }

  predicate AllDigits(s: string) {
    forall i :: 0 <= i < |s| ==> IsDigit(s[i])
  }

  function DigitChar(d: nat): (c: char)
    requires d < 10
    ensures IsDigit(c)
  {
    ('0' as int + d) as char
  }

  function DigitValue(c: char): nat
    requires IsDigit(c)
  {
    c as int - '0' as int
  }

  /** The number a string of decimal digits denotes (leading zeros allowed). */
  function DecimalValue(s: string): nat
    requires AllDigits(s)
  {
    if s == [] then 0 else 10 * DecimalValue(s[..|s| - 1]) + DigitValue(s[|s| - 1])
  }

  /** Python's `str(n)` for a non-negative integer: its decimal digits,
      without leading zeros. */
  function NatToDecimal(n: nat): (r: string)
    ensures 1 <= |r|
    ensures AllDigits(r)
    ensures |r| > 1 ==> r[0] != '0'
    ensures DecimalValue(r) == n
    decreases n
  {
    if n < 10 then [DigitChar(n)]
    else
      var p := NatToDecimal(n / 10);
      assert (p + [DigitChar(n % 10)])[..|p|] == p;
      p + [DigitChar(n % 10)]
  }

  function Repeat(c: char, k: nat): (r: string)
    ensures |r| == k
    ensures forall i :: 0 <= i < k ==> r[i] == c
  {
    if k == 0 then [] else [c] + Repeat(c, k - 1)
  }

  /** Leading zeros do not change the value of a digit string. */
  lemma {:induction false} LeadingZeros(k: nat, d: string)
    requires AllDigits(d)
    ensures AllDigits(Repeat('0', k) + d)
    ensures DecimalValue(Repeat('0', k) + d) == DecimalValue(d)
    decreases |d|
  {
    var z := Repeat('0', k);
    if d == [] {
      assert z + d == z;
      ZerosValue(k);
    } else {
      var d' := d[..|d| - 1];
      LeadingZeros(k, d');
      assert (z + d)[..|z + d| - 1] == z + d';
    }
  }

  lemma {:induction false} ZerosValue(k: nat)
    ensures AllDigits(Repeat('0', k))
    ensures DecimalValue(Repeat('0', k)) == 0
  {
    if k > 0 {
      ZerosValue(k - 1);
      var z := Repeat('0', k);
      assert z == Repeat('0', k - 1) + ['0'] by {
        assert forall i :: 0 <= i < k ==> z[i] == (Repeat('0', k - 1) + ['0'])[i];
      }
      assert z[..k - 1] == Repeat('0', k - 1);
    }
  }

  /** Zero-padding `n` to `width` digits, as the `0<width>d` format does for
      a non-negative integer: never truncates, and keeps the value. */
  function ZeroPad(n: nat, width: nat): (r: string)
    ensures |r| == if |NatToDecimal(n)| < width then width else |NatToDecimal(n)|
    ensures AllDigits(r) && DecimalValue(r) == n
  {
    var d := NatToDecimal(n);
    if |d| < width then
      LeadingZeros(width - |d|, d);
      Repeat('0', width - |d|) + d
    else
      d
  }

  function Pow10(k: nat): nat {
    if k == 0 then 1 else 10 * Pow10(k - 1)
  }

  /** A number below 10^k is written with at most k digits. */
  lemma {:induction false} DecimalLengthBound(n: nat, k: nat)
    requires 1 <= k && n < Pow10(k)
    ensures |NatToDecimal(n)| <= k
  {
    if n >= 10 {
      assert k >= 2;
      assert n / 10 < Pow10(k - 1);
      DecimalLengthBound(n / 10, k - 1);
    }
  }

  /** Python's `f"{n:04d}"`: zero-padded to a total width of four, the
      minus sign counting towards the width; longer numbers are not cut. */
  function FormatWidth4(n: int): (r: string)
    ensures |r| >= 4
    ensures 0 <= n ==> AllDigits(r) && DecimalValue(r) == n
    ensures 0 <= n < 10000 ==> |r| == 4
    ensures n < 0 ==> r[0] == '-' && AllDigits(r[1..]) && DecimalValue(r[1..]) == -n
    ensures -1000 < n < 0 ==> |r| == 4
    ensures 0 <= n ==> |r| == if |NatToDecimal(n)| < 4 then 4 else |NatToDecimal(n)|
    ensures n < 0 ==> |r| == 1 + if |NatToDecimal(-n)| < 3 then 3 else |NatToDecimal(-n)|
  {
    if n < 0 then
      var p := ZeroPad(-n, 3);
      assert -n < 1000 ==> |NatToDecimal(-n)| <= 3 by {
        if -n < 1000 { DecimalLengthBound(-n, 3); }
      }
      assert ("-" + p)[1..] == p;
      "-" + p
    else
      assert n < 10000 ==> |NatToDecimal(n)| <= 4 by {
        if n < 10000 { DecimalLengthBound(n, 4); }
      }
      ZeroPad(n, 4)
  }

  /** Different integers are formatted differently. */
  lemma FormatWidth4Injective(a: int, b: int)
    requires FormatWidth4(a) == FormatWidth4(b)
    ensures a == b
  {
    assert a >= 0 <==> IsDigit(FormatWidth4(a)[0]);
    assert b >= 0 <==> IsDigit(FormatWidth4(b)[0]);
  }
}
