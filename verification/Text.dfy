/** The parts of Python's `str` and `int` that reading and writing `server.properties` relies on. */
module Text {
  import opened Common

  // ------------------------------------------------------------------
  // Lines
  // ------------------------------------------------------------------

  /** The characters `str.splitlines()` breaks at. */
  predicate IsBreak(c: char) {
    var n := c as int;
    0x0A <= n <= 0x0D || 0x1C <= n <= 0x1E || n == 0x85 || n == 0x2028 || n == 0x2029
  }

  predicate IsOneLine(s: string) {
    forall i :: 0 <= i < |s| ==> !IsBreak(s[i])
  }

  /** Splitting `s` when `line` has been read of the current line; an empty last line is no line. */
  function LinesFrom(s: string, line: string): seq<string>
    decreases |s|
  {
    if s == "" then (if line == "" then [] else [line])
    else if !IsBreak(s[0]) then LinesFrom(s[1..], line + [s[0]])
    else if s[0] == '\r' && |s| > 1 && s[1] == '\n' then [line] + LinesFrom(s[2..], "")
    else [line] + LinesFrom(s[1..], "")
  }

  /** `s.splitlines()` */
  function SplitLines(s: string): seq<string> {
    LinesFrom(s, "")
  }

  /** `"\n".join(lines) + "\n"` for at least one line. */
  function JoinLines(lines: seq<string>): string {
    if lines == [] then "" else lines[0] + "\n" + JoinLines(lines[1..])
  }

  predicate AllOneLine(lines: seq<string>) {
    forall i :: 0 <= i < |lines| ==> IsOneLine(lines[i])
  }

  lemma {:induction false} LinesFromHaveNoBreak(s: string, line: string)
    requires IsOneLine(line)
    ensures AllOneLine(LinesFrom(s, line))
    decreases |s|
  {
    if s == "" {
    } else if !IsBreak(s[0]) {
      LinesFromHaveNoBreak(s[1..], line + [s[0]]);
    } else if s[0] == '\r' && |s| > 1 && s[1] == '\n' {
      LinesFromHaveNoBreak(s[2..], "");
    } else {
      LinesFromHaveNoBreak(s[1..], "");
    }
  }

  lemma LinesHaveNoBreak(s: string)
    ensures AllOneLine(SplitLines(s))
  {
    LinesFromHaveNoBreak(s, "");
  }

  /** A written line breaks by itself, whatever is in it: it does not run into what comes after. */
  lemma {:induction false} LineEnds(u: string, rest: string, line: string)
    ensures LinesFrom(u + "\n" + rest, line) == LinesFrom(u + "\n", line) + LinesFrom(rest, "")
    decreases |u|
  {
    var whole, one := u + "\n" + rest, u + "\n";
    if u == "" {
      assert whole[1..] == rest && one[1..] == "";
    } else {
      assert whole[0] == one[0] == u[0];
      assert whole[1] == one[1];
      assert whole[1..] == u[1..] + "\n" + rest && one[1..] == u[1..] + "\n";
      if !IsBreak(u[0]) {
        LineEnds(u[1..], rest, line + [u[0]]);
      } else if u[0] == '\r' && one[1] == '\n' {
        CarriageReturn(u, rest, line);
        if |u| > 1 {
          LineEnds(u[2..], rest, "");
        }
      } else {
        LineEnds(u[1..], rest, "");
      }
    }
  }

  lemma CarriageReturn(u: string, rest: string, line: string)
    requires u != "" && u[0] == '\r' && (u + "\n")[1] == '\n'
    ensures LinesFrom(u + "\n" + rest, line) ==
            [line] + (if |u| > 1 then LinesFrom(u[2..] + "\n" + rest, "") else LinesFrom(rest, ""))
    ensures LinesFrom(u + "\n", line) == [line] + (if |u| > 1 then LinesFrom(u[2..] + "\n", "") else [])
  {
    var whole, one := u + "\n" + rest, u + "\n";
    if |u| > 1 {
      assert whole[2..] == u[2..] + "\n" + rest && one[2..] == u[2..] + "\n";
    } else {
      assert whole[2..] == rest && one[2..] == "";
    }
  }

  lemma {:induction false} CleanLineFrom(s: string, line: string)
    requires IsOneLine(s)
    ensures LinesFrom(s + "\n", line) == [line + s]
    decreases |s|
  {
    if s == "" {
      assert (s + "\n")[1..] == "" && line + s == line;
    } else {
      assert (s + "\n")[0] == s[0] && (s + "\n")[1..] == s[1..] + "\n";
      assert line + s == line + [s[0]] + s[1..];
      CleanLineFrom(s[1..], line + [s[0]]);
    }
  }

  lemma SplitOne(line: string, rest: string)
    requires IsOneLine(line)
    ensures SplitLines(line + "\n" + rest) == [line] + SplitLines(rest)
  {
    LineEnds(line, rest, "");
    CleanLineFrom(line, "");
    assert "" + line == line;
  }

  lemma JoinFront(a: seq<string>, rest: string)
    requires a != []
    ensures JoinLines(a) + rest == a[0] + "\n" + (JoinLines(a[1..]) + rest)
  {
  }

  /** Clean lines at the front come back as they are. */
  lemma {:induction false} SplitFront(a: seq<string>, rest: string)
    requires AllOneLine(a)
    ensures SplitLines(JoinLines(a) + rest) == a + SplitLines(rest)
    decreases |a|
  {
    if a == [] {
      assert JoinLines(a) + rest == rest;
    } else {
      JoinFront(a, rest);
      SplitOne(a[0], JoinLines(a[1..]) + rest);
      assert forall i :: 0 <= i < |a[1..]| ==> a[1..][i] == a[i + 1];
      SplitFront(a[1..], rest);
      assert [a[0]] + (a[1..] + SplitLines(rest)) == a + SplitLines(rest);
    }
  }

  /** Lines that are written come back as the same lines. */
  lemma SplitJoin(lines: seq<string>)
    requires AllOneLine(lines)
    ensures SplitLines(JoinLines(lines)) == lines
  {
    SplitFront(lines, "");
    assert JoinLines(lines) + "" == JoinLines(lines);
  }

  lemma {:induction false} JoinConcat(a: seq<string>, b: seq<string>)
    ensures JoinLines(a + b) == JoinLines(a) + JoinLines(b)
  {
    if a == [] {
      assert a + b == b;
    } else {
      assert (a + b)[1..] == a[1..] + b;
      JoinConcat(a[1..], b);
    }
  }

  /** Clean lines around an unclean one: only that one falls apart. */
  lemma SplitAround(a: seq<string>, z: string, b: seq<string>)
    requires AllOneLine(a) && AllOneLine(b)
    ensures SplitLines(JoinLines(a + [z] + b)) == a + SplitLines(z + "\n") + b
  {
    assert a + [z] + b == a + ([z] + b);
    JoinConcat(a, [z] + b);
    assert ([z] + b)[1..] == b;
    SplitFront(a, z + "\n" + JoinLines(b));
    LineEnds(z, JoinLines(b), "");
    SplitJoin(b);
  }

  // ------------------------------------------------------------------
  // strip, lower
  // ------------------------------------------------------------------

  /** The characters `str.strip()` removes. */
  predicate IsSpace(c: char) {
    var n := c as int;
    || 0x09 <= n <= 0x0D || 0x1C <= n <= 0x20 || n == 0x85 || n == 0xA0 || n == 0x1680
    || 0x2000 <= n <= 0x200A || n == 0x2028 || n == 0x2029 || n == 0x202F || n == 0x205F || n == 0x3000
  }

  function StripLeft(s: string): string {
    if s != "" && IsSpace(s[0]) then StripLeft(s[1..]) else s
  }

  function StripRight(s: string): string {
    if s != "" && IsSpace(s[|s| - 1]) then StripRight(s[..|s| - 1]) else s
  }

  function Strip(s: string): string {
    StripRight(StripLeft(s))
  }

  predicate IsTrimmed(s: string) {
    s == "" || (!IsSpace(s[0]) && !IsSpace(s[|s| - 1]))
  }

  lemma {:induction false} StripLeftShape(s: string)
    ensures StripLeft(s) == "" || !IsSpace(StripLeft(s)[0])
    ensures |StripLeft(s)| <= |s| && (IsOneLine(s) ==> IsOneLine(StripLeft(s)))
  {
    if s != "" && IsSpace(s[0]) {
      StripLeftShape(s[1..]);
    }
  }

  lemma {:induction false} StripRightShape(s: string)
    ensures StripRight(s) == "" || !IsSpace(StripRight(s)[|StripRight(s)| - 1])
    ensures StripRight(s) <= s
  {
    if s != "" && IsSpace(s[|s| - 1]) {
      StripRightShape(s[..|s| - 1]);
    }
  }

  /** What `strip` returns is trimmed and on one line if its argument is; on trimmed text it does nothing. */
  lemma StripTrims(s: string)
    ensures IsTrimmed(Strip(s)) && |Strip(s)| <= |s|
    ensures IsOneLine(s) ==> IsOneLine(Strip(s))
    ensures IsTrimmed(s) ==> Strip(s) == s
  {
    StripLeftShape(s);
    StripRightShape(StripLeft(s));
  }

  predicate AllSpaces(s: string) {
    forall i :: 0 <= i < |s| ==> IsSpace(s[i])
  }

  lemma {:induction false} StripLeftMeans(s: string) returns (n: nat)
    ensures n <= |s| && AllSpaces(s[..n]) && StripLeft(s) == s[n..]
  {
    if s != "" && IsSpace(s[0]) {
      n := StripLeftMeans(s[1..]);
      n := n + 1;
      assert forall i :: 0 < i < n ==> s[..n][i] == s[1..][..n - 1][i - 1];
    } else {
      n := 0;
    }
  }

  lemma {:induction false} StripRightMeans(s: string)
    ensures StripRight(s) <= s && AllSpaces(s[|StripRight(s)|..])
  {
    if s != "" && IsSpace(s[|s| - 1]) {
      StripRightMeans(s[..|s| - 1]);
      var n := |StripRight(s)|;
      assert forall i :: n <= i < |s| - 1 ==> s[..|s| - 1][n..][i - n] == s[i];
    }
  }

  /** Stripping takes away spaces from both ends, and nothing else. */
  lemma StripMeans(s: string) returns (n: nat)
    ensures n + |Strip(s)| <= |s| && s[n..n + |Strip(s)|] == Strip(s)
    ensures AllSpaces(s[..n]) && AllSpaces(s[n + |Strip(s)|..]) && IsTrimmed(Strip(s))
  {
    StripTrims(s);
    n := StripLeftMeans(s);
    StripRightMeans(s[n..]);
    var m := |Strip(s)|;
    assert s[n..][..m] == s[n..n + m] && s[n..][m..] == s[n + m..];
  }

  /** The same letters in upper or lower case, for a `word` in lower case. */
  predicate IsWord(s: string, word: string) {
    |s| == |word| &&
    forall i :: 0 <= i < |s| ==> s[i] == word[i] || ('A' <= s[i] <= 'Z' && s[i] as int + 32 == word[i] as int)
  }

  lemma {:induction false} LowerMeans(s: string, word: string)
    requires NoCapitals(word)
    ensures Lower(s) == word <==> IsWord(s, word)
  {
    if s != "" && word != "" {
      assert forall i :: 0 <= i < |word[1..]| ==> word[1..][i] == word[i + 1];
      assert forall i :: 0 <= i < |s[1..]| ==> s[1..][i] == s[i + 1];
      LowerMeans(s[1..], word[1..]);
      assert Lower(s) == word <==> LowerChar(s[0]) == word[0] && Lower(s[1..]) == word[1..] by {
        assert word == [word[0]] + word[1..];
        assert Lower(s)[0] == LowerChar(s[0]) && Lower(s)[1..] == Lower(s[1..]);
      }
      if IsWord(s, word) {
        assert IsWord(s[1..], word[1..]);
      }
      if IsWord(s[1..], word[1..]) && LowerChar(s[0]) == word[0] {
        forall i | 0 <= i < |s|
          ensures s[i] == word[i] || ('A' <= s[i] <= 'Z' && s[i] as int + 32 == word[i] as int)
        {
          if i > 0 {
            assert s[i] == s[1..][i - 1] && word[i] == word[1..][i - 1];
          }
        }
      }
    }
  }

  function LowerChar(c: char): char {
    if 'A' <= c <= 'Z' then (c as int + 32) as char else c
  }

  /** `s.lower()`, as far as it can yield the lower-case words it is compared with. */
  function Lower(s: string): string {
    if s == "" then "" else [LowerChar(s[0])] + Lower(s[1..])
  }

  predicate NoCapitals(s: string) {
    forall i :: 0 <= i < |s| ==> !('A' <= s[i] <= 'Z')
  }

  lemma {:induction false} LowerIsIdentity(s: string)
    requires NoCapitals(s)
    ensures Lower(s) == s
  {
    if s != "" {
      assert forall i :: 0 <= i < |s[1..]| ==> s[1..][i] == s[i + 1];
      LowerIsIdentity(s[1..]);
    }
  }

  function IndexOf(s: string, c: char): (k: nat)
    ensures k <= |s| && (k < |s| ==> s[k] == c) && (k == |s| <==> c !in s)
    ensures forall i :: 0 <= i < k ==> s[i] != c
  {
    if s == "" then 0 else if s[0] == c then 0 else 1 + IndexOf(s[1..], c)
  }

  // ------------------------------------------------------------------
  // Decimal numbers
  // ------------------------------------------------------------------

  predicate IsDigit(c: char) {
    '0' <= c <= '9'
  }

  /** `str(n)` */
  function ShowNat(n: nat): string {
    if n < 10 then [(n + '0' as int) as char] else ShowNat(n / 10) + [(n % 10 + '0' as int) as char]
  }

  /** The longest digit string `int` converts. */
  const MAX_DIGITS := 4300

  function DigitCount(s: string): nat {
    if s == "" then 0 else (if IsDigit(s[0]) then 1 else 0) + DigitCount(s[1..])
  }

  /** Digits with single underscores between them; `after` says whether a digit came just before. */
  function ParseDigits(s: string, before: nat, after: bool): Option<nat> {
    if s == "" then (if after then Some(before) else None)
    else if IsDigit(s[0]) then ParseDigits(s[1..], 10 * before + (s[0] as int - '0' as int), true)
    else if s[0] == '_' && after then ParseDigits(s[1..], before, false)
    else None
  }

  /** `int(s)` on stripped text; None for ValueError. */
  function ParseInt(s: string): Option<int> {
    if DigitCount(s) > MAX_DIGITS || s == "" then None
    else if s[0] == '-' then
      match ParseDigits(s[1..], 0, false)
      case None => None
      case Some(n) => (var v: int := -(n as int); Some(v))
    else
      match ParseDigits(if s[0] == '+' then s[1..] else s, 0, false)
      case None => None
      case Some(n) => Some(n)
  }

  lemma {:induction false} ParseShown(n: nat, rest: string)
    ensures ParseDigits(ShowNat(n) + rest, 0, false) == ParseDigits(rest, n, true)
    ensures ShowNat(n) != "" && forall i :: 0 <= i < |ShowNat(n)| ==> IsDigit(ShowNat(n)[i])
    decreases n
  {
    if n < 10 {
      var s := ShowNat(n) + rest;
      assert IsDigit(s[0]) && s[1..] == rest;
    } else {
      var d: char := (n % 10 + '0' as int) as char;
      ParseShown(n / 10, [d] + rest);
      assert ShowNat(n) + rest == ShowNat(n / 10) + ([d] + rest);
      assert ([d] + rest)[1..] == rest;
    }
  }

  /** Digits, with single underscores only between them. */
  predicate IsNumeral(s: string) {
    s != "" && IsDigit(s[|s| - 1]) && forall i :: 0 <= i < |s| ==> IsPlaced(s, i)
  }

  predicate IsPlaced(s: string, i: nat)
    requires i < |s|
  {
    IsDigit(s[i]) || (s[i] == '_' && i > 0 && IsDigit(s[i - 1]))
  }

  function NumeralValue(s: string): nat {
    if s == "" then 0
    else
      var front, last := s[..|s| - 1], s[|s| - 1];
      if IsDigit(last) then 10 * NumeralValue(front) + (last as int - '0' as int) else NumeralValue(front)
  }

  lemma {:induction false} ParseFrom(done: string, rest: string)
    requires forall i :: 0 <= i < |done| ==> IsPlaced(done, i)
    ensures ParseDigits(rest, NumeralValue(done), done != "" && IsDigit(done[|done| - 1])) ==
            if IsNumeral(done + rest) then Some(NumeralValue(done + rest)) else None
    decreases |rest|
  {
    var whole := done + rest;
    if rest == "" {
      assert whole == done;
    } else {
      var more := done + [rest[0]];
      assert more + rest[1..] == whole && more[..|more| - 1] == done;
      assert whole[|done|] == rest[0] && (done != "" ==> whole[|done| - 1] == done[|done| - 1]);
      if IsPlaced(whole, |done|) {
        forall i | 0 <= i < |more| ensures IsPlaced(more, i) {
          if i < |done| {
            assert IsPlaced(done, i);
          }
        }
        ParseFrom(more, rest[1..]);
      }
    }
  }

  lemma ParseDigitsMeans(s: string)
    ensures ParseDigits(s, 0, false) == if IsNumeral(s) then Some(NumeralValue(s)) else None
  {
    ParseFrom("", s);
    assert "" + s == s;
  }

  /** What stands after the sign, if there is one. */
  function Unsigned(s: string): string {
    if s != "" && s[0] in {'-', '+'} then s[1..] else s
  }

  /** Which texts are read as numbers, and as which: an optional sign and a numeral of at most 4300 digits. */
  lemma ParseIntMeans(s: string)
    ensures ParseInt(s) ==
            if s == "" || DigitCount(s) > 4300 || !IsNumeral(Unsigned(s)) then None
            else if s[0] == '-' then Some(-(NumeralValue(Unsigned(s)) as int))
            else Some(NumeralValue(Unsigned(s)))
  {
    ParseDigitsMeans(Unsigned(s));
  }

  lemma {:induction false} DigitCountBound(s: string)
    ensures DigitCount(s) <= |s|
  {
    if s != "" {
      DigitCountBound(s[1..]);
    }
  }

  /** Printing a number of reasonable length and reading it back gives the number. */
  lemma ParseIntOfShow(n: nat)
    requires |ShowNat(n)| <= MAX_DIGITS
    ensures ParseInt(ShowNat(n)) == Some(n)
  {
    ParseShown(n, "");
    assert ShowNat(n) + "" == ShowNat(n);
    DigitCountBound(ShowNat(n));
    assert IsDigit(ShowNat(n)[0]);
  }

  /** Different numbers print differently. */
  lemma ShowNatInjective(m: nat, n: nat)
    requires ShowNat(m) == ShowNat(n)
    ensures m == n
  {
    ParseShown(m, "");
    ParseShown(n, "");
  }
}
