/**
  The string operations of Python's `str` that the command pipeline relies on:
  `strip()`, `lower()`, `startswith`, the `in` substring test, `split('\n')`
  and `'\n'.join`, plus the truthiness of optional strings.
 */
module Text {
  import opened Wrappers

  /** The characters for which Python's `str.isspace()` holds; `strip()` and the
      regular-expression class `\s` both use this set. */
  predicate IsSpace(c: char) {
    || c == ' '
    || '\t' <= c <= '\r'
    || '\U{1C}' <= c <= '\U{1F}'
    || c == '\U{85}' || c == '\U{A0}' || c == '\U{1680}'
    || '\U{2000}' <= c <= '\U{200A}'
    || c == '\U{2028}' || c == '\U{2029}' || c == '\U{202F}' || c == '\U{205F}' || c == '\U{3000}'
  }

  predicate IsUpper(c: char) {
    'A' <= c <= 'Z'
  }

  /** No ASCII capital letter occurs in `s`. */
  predicate NoUpper(s: string) {
    forall k :: 0 <= k < |s| ==> !IsUpper(s[k])
  }

  /** `t` occurs in `s` starting at index `i`. */
  predicate OccursAt(s: string, i: int, t: string) {
    0 <= i && i + |t| <= |s| && s[i..i + |t|] == t
  }

  /** Python's `t in s` for strings. */
  predicate Contains(s: string, t: string) {
    exists i | 0 <= i <= |s| - |t| :: OccursAt(s, i, t)
  }

  /** Python's `s.startswith(p)`. */
  predicate StartsWith(s: string, p: string) {
    OccursAt(s, 0, p)
  }

  /** Python's `s.endswith(p)`. */
  predicate EndsWith(s: string, p: string) {
    |p| <= |s| && s[|s| - |p|..] == p
  }

  /** The middle part of a concatenation occurs in it. */
  lemma ContainsMiddle(a: string, b: string, c: string)
    ensures OccursAt(a + b + c, |a|, b) && Contains(a + b + c, b)
  {
    var s := a + b + c;
    assert s[|a|..|a| + |b|] == b;
    assert OccursAt(s, |a|, b);
  }

  lemma StartsWithConcat(a: string, b: string)
    ensures StartsWith(a + b, a) && Contains(a + b, a)
  {
    assert (a + b)[0..|a|] == a;
    assert OccursAt(a + b, 0, a);
  }

  /** Prefixing text keeps every occurrence, shifted. */
  lemma ContainsAfter(head: string, s: string, t: string)
    requires Contains(s, t)
    ensures Contains(head + s, t)
  {
    var k :| 0 <= k <= |s| - |t| && OccursAt(s, k, t);
    assert (head + s)[|head| + k..|head| + k + |t|] == s[k..k + |t|];
    assert OccursAt(head + s, |head| + k, t);
  }

  /** Leading whitespace removed (Python's `lstrip()`). */
  function TrimStart(s: string): (r: string)
    ensures |r| <= |s| && r == s[|s| - |r|..]
    ensures forall k :: 0 <= k < |s| - |r| ==> IsSpace(s[k])
    ensures r == [] || !IsSpace(r[0])
    decreases |s|
  {
    if s != [] && IsSpace(s[0]) then TrimStart(s[1..]) else s
  }

  /** Trailing whitespace removed (Python's `rstrip()`). */
  function TrimEnd(s: string): (r: string)
    ensures |r| <= |s| && r == s[..|r|]
    ensures forall k :: |r| <= k < |s| ==> IsSpace(s[k])
    ensures r == [] || !IsSpace(r[|r| - 1])
    decreases |s|
  {
    if s != [] && IsSpace(s[|s| - 1]) then TrimEnd(s[..|s| - 1]) else s
  }

  /** Python's `s.strip()`: the maximal slice of `s` that neither starts nor
      ends with whitespace, everything cut away being whitespace. */
  function Strip(s: string): (r: string)
    ensures r == [] || (!IsSpace(r[0]) && !IsSpace(r[|r| - 1]))
    ensures exists i :: StrippedAt(s, i, r)
  {
    var t := TrimStart(s);
    var r := TrimEnd(t);
    TrimmedAt(s, t, r);
    r
  }

  /** The trailing-trimmed rest of a leading-trimmed string sits in it with
      only whitespace around. */
  lemma TrimmedAt(s: string, t: string, r: string)
    requires |t| <= |s| && t == s[|s| - |t|..]
    requires forall k :: 0 <= k < |s| - |t| ==> IsSpace(s[k])
    requires |r| <= |t| && r == t[..|r|]
    requires forall k :: |r| <= k < |t| ==> IsSpace(t[k])
    ensures StrippedAt(s, |s| - |t|, r)
  {
    var i := |s| - |t|;
    forall k | i + |r| <= k < |s| ensures IsSpace(s[k]) {
      assert s[k] == t[k - i];
    }
  }

  /** `r` sits in `s` at offset `i` with only whitespace around it. */
  predicate StrippedAt(s: string, i: int, r: string) {
    && 0 <= i && i + |r| <= |s| && s[i..i + |r|] == r
    && (forall k :: 0 <= k < i ==> IsSpace(s[k]))
    && (forall k :: i + |r| <= k < |s| ==> IsSpace(s[k]))
  }

  /** Stripping keeps a prefix that neither starts nor ends with whitespace. */
  lemma StripKeepsPrefix(s: string, p: string)
    requires StartsWith(s, p) && p != []
    requires !IsSpace(p[0]) && !IsSpace(p[|p| - 1])
    ensures StartsWith(Strip(s), p)
  {
    var r := Strip(s);
    var i :| StrippedAt(s, i, r);
    StrippedKeepsPrefix(s, p, i, r);
  }

  /** A slice cut out of `s` with only whitespace around it keeps every
      prefix of `s` that neither starts nor ends with whitespace. */
  lemma StrippedKeepsPrefix(s: string, p: string, i: int, r: string)
    requires StrippedAt(s, i, r)
    requires StartsWith(s, p) && p != []
    requires !IsSpace(p[0]) && !IsSpace(p[|p| - 1])
    ensures StartsWith(r, p)
  {
    assert s[0] == p[0] by { assert s[0..|p|][0] == s[0]; }
    assert i == 0;
    assert s[|p| - 1] == p[|p| - 1] by { assert s[0..|p|][|p| - 1] == s[|p| - 1]; }
    assert |p| <= |r|;
    assert r[0..|p|] == p by {
      forall k | 0 <= k < |p| ensures r[k] == p[k] {
        assert r[k] == s[0..|r|][k] == s[k];
        assert p[k] == s[0..|p|][k];
      }
    }
  }

  /** A string with no whitespace at either end is its own `strip()`. */
  lemma StripIdentity(s: string)
    requires s == [] || (!IsSpace(s[0]) && !IsSpace(s[|s| - 1]))
    ensures Strip(s) == s
  {
  }

  function LowerChar(c: char): (d: char)
    ensures !IsUpper(d)
    ensures d == c <==> !IsUpper(c)
  {
    if IsUpper(c) then (c as int + 32) as char else c
  }

  /** Python's `s.lower()` restricted to ASCII: every capital letter becomes
      its small letter and every other character is kept. */
  function Lower(s: string): (r: string)
    ensures |r| == |s|
    ensures forall k :: 0 <= k < |s| ==> r[k] == LowerChar(s[k])
    ensures NoUpper(r)
  {
    if s == [] then [] else [LowerChar(s[0])] + Lower(s[1..])
  }

  /** Python's `'\n'.join(lines)`. */
  function Join(lines: seq<string>): string {
    if |lines| == 0 then ""
    else if |lines| == 1 then lines[0]
    else lines[0] + "\n" + Join(lines[1..])
  }

  /** No line contains a newline character. */
  predicate SingleLines(lines: seq<string>) {
    forall k :: 0 <= k < |lines| ==> '\n' !in lines[k]
  }

  /** Python's `s.split('\n')`: at least one piece, none holding a newline,
      and joining the pieces back gives `s`. */
  function Split(s: string): (lines: seq<string>)
    ensures |lines| >= 1
    ensures SingleLines(lines)
    ensures Join(lines) == s
  {
    if s == [] then [""]
    else
      var rest := Split(s[1..]);
      if s[0] == '\n' then
        [""] + rest
      else
        var lines := [[s[0]] + rest[0]] + rest[1..];
        assert Join(lines) == [s[0]] + Join(rest) by {
          if |rest| > 1 {
            assert lines[1..] == rest[1..];
          }
        }
        assert s == [s[0]] + s[1..];
        lines
  }

  /** Splitting a joined list of single lines gives the list back: `Split` is
      the only decomposition `Join` inverts. */
  lemma {:induction false} SplitJoin(lines: seq<string>)
    requires |lines| >= 1 && SingleLines(lines)
    ensures Split(Join(lines)) == lines
    decreases |lines|
  {
    if |lines| == 1 {
      SplitSingle(lines[0]);
    } else {
      SplitJoin(lines[1..]);
      SplitPrefix(lines[0], Join(lines[1..]));
      assert lines == [lines[0]] + lines[1..];
    }
  }

  /** A newline-free string splits into itself. */
  lemma {:induction false} SplitSingle(line: string)
    requires '\n' !in line
    ensures Split(line) == [line]
    decreases |line|
  {
    if line != [] {
      assert '\n' !in line[1..] by {
        forall k | 0 <= k < |line[1..]| ensures line[1..][k] != '\n' {
          assert line[1..][k] == line[k + 1];
        }
      }
      SplitSingle(line[1..]);
      assert [line[0]] + line[1..] == line;
    }
  }

  /** A newline-free first line followed by a newline splits off as one piece. */
  lemma {:induction false} SplitPrefix(line: string, rest: string)
    requires '\n' !in line
    ensures Split(line + "\n" + rest) == [line] + Split(rest)
    decreases |line|
  {
    if line == [] {
      var s := "\n" + rest;
      assert s[0] == '\n' && s[1..] == rest;
    } else {
      assert '\n' !in line[1..] by {
        forall k | 0 <= k < |line[1..]| ensures line[1..][k] != '\n' {
          assert line[1..][k] == line[k + 1];
        }
      }
      var t := line[1..] + "\n" + rest;
      SplitPrefix(line[1..], rest);
      SplitCons(line[0], t);
      assert line + "\n" + rest == [line[0]] + t;
      assert [line[0]] + line[1..] == line;
    }
  }

  /** A character other than a newline joins the first piece. */
  lemma SplitCons(c: char, t: string)
    requires c != '\n'
    ensures var tail := Split(t); Split([c] + t) == [[c] + tail[0]] + tail[1..]
  {
    assert ([c] + t)[0] == c && ([c] + t)[1..] == t;
  }

  /** An occurrence of a newline-free text in a joined string lies inside one
      of the joined lines. */
  lemma {:induction false} JoinContains(lines: seq<string>, t: string)
    requires |lines| >= 1
    requires '\n' !in t
    requires Contains(Join(lines), t)
    ensures exists k :: 0 <= k < |lines| && Contains(lines[k], t)
    decreases |lines|
  {
    var s := Join(lines);
    var i :| 0 <= i <= |s| - |t| && OccursAt(s, i, t);
    assert 0 <= i && i + |t| <= |s| && s[i..i + |t|] == t;
    if |lines| == 1 {
      assert Contains(lines[0], t);
    } else {
      var head := lines[0];
      var tail := Join(lines[1..]);
      assert s == head + "\n" + tail;
      if i + |t| <= |head| {
        assert head[i..i + |t|] == t by {
          forall k | 0 <= k < |t| ensures head[i + k] == t[k] {
            assert s[i + k] == s[i..i + |t|][k];
          }
        }
        assert OccursAt(head, i, t);
      } else if i > |head| {
        var j := i - |head| - 1;
        assert tail[j..j + |t|] == t by {
          forall k | 0 <= k < |t| ensures tail[j + k] == t[k] {
            assert s[i + k] == s[i..i + |t|][k];
          }
        }
        assert OccursAt(tail, j, t);
        JoinContains(lines[1..], t);
        var k :| 0 <= k < |lines[1..]| && Contains(lines[1..][k], t);
        assert lines[1..][k] == lines[k + 1];
      } else {
        OccurrenceCovers(s, i, t, |head|);
        assert false;
      }
    }
  }

  /** A text occurring in `s` contains every character of `s` it covers. */
  lemma OccurrenceCovers(s: string, i: int, t: string, p: int)
    requires OccursAt(s, i, t) && i <= p < i + |t|
    ensures s[p] in t
  {
    assert t[p - i] == s[i..i + |t|][p - i];
  }

  /** Python truthiness of an `Optional[str]`: present and non-empty. */
  predicate Truthy(o: Option<string>) {
    o.Some? && o.value != ""
  }

  /** Python's `a or b` on two `Optional[str]` values. */
  function Or(a: Option<string>, b: Option<string>): Option<string> {
    if Truthy(a) then a else b
  }

  /** How an f-string renders an `Optional[str]`: `None` prints as "None". */
  function Render(o: Option<string>): string {
    match o
    case None => "None"
    case Some(v) => v
  }
  function DigitChar(d: int): (c: char)
    requires 0 <= d < 10
    ensures '0' <= c <= '9' && c as int - '0' as int == d
  {
    (d + '0' as int) as char
  }

  /** The decimal digits of a natural number, most significant first. */
  function Digits(n: nat): (r: string)
    ensures |r| >= 1
    ensures forall k | 0 <= k < |r| :: '0' <= r[k] <= '9'
  {
    if n < 10 then [DigitChar(n)] else Digits(n / 10) + [DigitChar(n % 10)]
  }

  /** The number a string of decimal digits denotes. */
  function DigitsValue(s: string): nat
    requires forall k | 0 <= k < |s| :: '0' <= s[k] <= '9'
  {
    if s == [] then 0 else DigitsValue(s[..|s| - 1]) * 10 + (s[|s| - 1] as int - '0' as int)
  }

  /** Python's `str(n)` for an integer: a minus sign for negative numbers,
      then the digits of the magnitude. */
  function Decimal(n: int): (r: string)
    ensures |r| >= 1
    ensures (r[0] == '-') <==> n < 0
    ensures '0' <= r[|r| - 1] <= '9'
  {
    if n < 0 then "-" + Digits(-n) else Digits(n)
  }

  /** Reading the digits back gives the number: `Digits` loses nothing. */
  lemma {:induction false} DigitsRoundTrip(n: nat)
    ensures DigitsValue(Digits(n)) == n
  {
    var r := Digits(n);
    if n >= 10 {
      DigitsRoundTrip(n / 10);
      assert r[..|r| - 1] == Digits(n / 10);
    }
  }

  lemma DigitsInjective(a: nat, b: nat)
    requires Digits(a) == Digits(b)
    ensures a == b
  {
    DigitsRoundTrip(a);
    DigitsRoundTrip(b);
  }

  /** `str` is injective on integers. */
  lemma DecimalInjective(m: int, n: int)
    requires Decimal(m) == Decimal(n)
    ensures m == n
  {
    assert (m < 0) == (n < 0);
    if m < 0 {
      assert Digits(-m) == Decimal(m)[1..];
      assert Digits(-n) == Decimal(n)[1..];
      DigitsInjective(-m, -n);
    } else {
      DigitsInjective(m, n);
    }
  }


}
