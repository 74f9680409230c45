/**
 * The few Python string built-ins that the three tools rely on, written out over
 * `seq<char>`: `str.isspace`/`str.strip`, `str.split(sep)`, `str.split()` on white space,
 * the `in` substring test, `str.lower` (ASCII letters), `str(int)` and `int(str)`.
 */
module PyText {
  import opened Wrappers

  /** Python's `str.isspace` for one code point (the Unicode white-space set Python uses). */
  predicate IsSpace(c: char) {
    var n := c as int;
    (9 <= n <= 13) || (28 <= n <= 32) || n == 0x85 || n == 0xA0 || n == 0x1680 ||
    (0x2000 <= n <= 0x200A) || n == 0x2028 || n == 0x2029 || n == 0x202F || n == 0x205F ||
    n == 0x3000
  }

  predicate AllSpace(s: string) {
    forall k :: 0 <= k < |s| ==> IsSpace(s[k])
  }

  /** `s.lstrip()`: the suffix left after dropping leading white space. */
  function TrimLeft(s: string): (r: string)
    ensures |r| <= |s| && r == s[|s| - |r|..]
    ensures AllSpace(s[..|s| - |r|])
    ensures r == [] || !IsSpace(r[0])
  {
    if s != [] && IsSpace(s[0]) then
      var r := TrimLeft(s[1..]);
      assert s[..|s| - |r|] == [s[0]] + s[1..][..|s| - 1 - |r|];
      r
    else s
  }

  /** `s.rstrip()`: the prefix left after dropping trailing white space. */
  function TrimRight(s: string): (r: string)
    ensures |r| <= |s| && r == s[..|r|]
    ensures AllSpace(s[|r|..])
    ensures r == [] || !IsSpace(r[|r| - 1])
  {
    if s != [] && IsSpace(s[|s| - 1]) then
      var r := TrimRight(s[..|s| - 1]);
      assert s[|r|..] == s[..|s| - 1][|r|..] + [s[|s| - 1]];
      r
    else s
  }

  /** `s.strip()`. */
  function Strip(s: string): string {
    TrimRight(TrimLeft(s))
  }

  /** Text is empty after `strip()` exactly when it is made of white space only. */
  lemma StripEmptyIff(s: string)
    ensures Strip(s) == [] <==> AllSpace(s)
  {
    if AllSpace(s) {
      TrimLeftAllSpace(s);
    } else {
      var l := TrimLeft(s);
      assert s[..|s|] == s;
      assert l != [] && !IsSpace(l[0]);
      assert l[0..] == l;
      assert TrimRight(l) != [];
    }
  }

  lemma {:induction false} TrimLeftAllSpace(s: string)
    requires AllSpace(s)
    ensures TrimLeft(s) == []
  {
    if s != [] {
      assert AllSpace(s[1..]) by {
        forall k | 0 <= k < |s| - 1 ensures IsSpace(s[1..][k]) { assert s[1..][k] == s[k + 1]; }
      }
      TrimLeftAllSpace(s[1..]);
    }
  }

  /** A string that neither starts nor ends with white space is its own `strip()`. */
  lemma StripUnchanged(s: string)
    requires s == [] || (!IsSpace(s[0]) && !IsSpace(s[|s| - 1]))
    ensures Strip(s) == s
  {
  }

  /** `sep.join(parts)`. */
  function Join(parts: seq<string>, sep: char): string {
    if parts == [] then []
    else if |parts| == 1 then parts[0]
    else parts[0] + [sep] + Join(parts[1..], sep)
  }

  /**
   * `s.split(sep)` for a one-character separator: always at least one piece, and no piece
   * contains the separator.
   */
  function Split(s: string, sep: char): (r: seq<string>)
    ensures |r| >= 1
    ensures forall k :: 0 <= k < |r| ==> sep !in r[k]
  {
    if s == [] then [[]]
    else
      var rest := Split(s[1..], sep);
      if s[0] == sep then [[]] + rest
      else [[s[0]] + rest[0]] + rest[1..]
  }

  /** Splitting and joining again on the same separator gives back the text. */
  lemma {:induction false} SplitJoin(s: string, sep: char)
    ensures Join(Split(s, sep), sep) == s
  {
    if s != [] {
      var rest := Split(s[1..], sep);
      SplitJoin(s[1..], sep);
      if s[0] == sep {
        assert Split(s, sep) == [[]] + rest;
        assert ([[]] + rest)[1..] == rest;
      } else {
        var r := Split(s, sep);
        assert r == [[s[0]] + rest[0]] + rest[1..];
        if |rest| == 1 {
          assert Join(rest, sep) == rest[0];
        } else {
          assert Join(rest, sep) == rest[0] + [sep] + Join(rest[1..], sep);
          assert r[1..] == rest[1..];
        }
      }
    }
  }

  /** Text free of the separator splits into itself alone. */
  lemma {:induction false} SplitNoSep(s: string, sep: char)
    requires sep !in s
    ensures Split(s, sep) == [s]
  {
    if s != [] {
      SplitNoSep(s[1..], sep);
      assert [s[0]] + s[1..] == s;
    }
  }

  /** A separator-free head is the first piece; the pieces of the tail follow it. */
  lemma {:induction false} SplitAfter(a: string, b: string, sep: char)
    requires sep !in a
    ensures Split(a + [sep] + b, sep) == [a] + Split(b, sep)
  {
    if a == [] {
      assert a + [sep] + b == [sep] + b;
      assert ([sep] + b)[1..] == b;
    } else {
      var s := a + [sep] + b;
      assert s[0] == a[0] && s[1..] == a[1..] + [sep] + b;
      SplitAfter(a[1..], b, sep);
      assert [a[0]] + a[1..] == a;
    }
  }

  /** Python's `sub in s`. */
  predicate Contains(s: string, sub: string) {
    exists i :: 0 <= i <= |s| - |sub| && OccursAt(s, sub, i)
  }

  predicate OccursAt(s: string, sub: string, i: int)
    requires 0 <= i <= |s| - |sub|
  {
    s[i..i + |sub|] == sub
  }

  /** The prefix of `s` before the first `sep` (`s.split(sep)[0]`). */
  function Before(s: string, sep: char): (r: string)
    ensures sep !in r
    ensures |r| <= |s| && r == s[..|r|]
    ensures |r| == |s| || s[|r|] == sep
  {
    if s == [] || s[0] == sep then [] else [s[0]] + Before(s[1..], sep)
  }

  /** The leading run of non-white-space characters of `s`. */
  function Token(s: string): (r: string)
    ensures |r| <= |s| && r == s[..|r|]
    ensures forall k :: 0 <= k < |r| ==> !IsSpace(r[k])
    ensures |r| == |s| || IsSpace(s[|r|])
  {
    if s == [] || IsSpace(s[0]) then [] else [s[0]] + Token(s[1..])
  }

  /** `s.split()`: the maximal runs of non-white-space characters, in order. */
  function Words(s: string): (r: seq<string>)
    ensures forall k :: 0 <= k < |r| ==> r[k] != [] && forall j :: 0 <= j < |r[k]| ==> !IsSpace(r[k][j])
    decreases |s|
  {
    if s == [] then []
    else if IsSpace(s[0]) then Words(s[1..])
    else
      var t := Token(s);
      [t] + Words(s[|t|..])
  }

  /** Index `k` starts a run of non-white-space characters of `s`. */
  predicate RunStart(s: string, k: int) {
    0 <= k < |s| && !IsSpace(s[k]) && (k == 0 || IsSpace(s[k - 1]))
  }

  /** Every index at or after `from` where a run starts, in increasing order. */
  function RunStarts(s: string, from: nat): (r: seq<nat>)
    ensures forall k :: k in r <==> from <= k && RunStart(s, k)
    ensures forall i :: 0 <= i < |r| ==> from <= r[i] < |s|
    ensures forall i, j :: 0 <= i < j < |r| ==> r[i] < r[j]
    decreases |s| - from
  {
    if from >= |s| then []
    else if RunStart(s, from) then [from] + RunStarts(s, from + 1)
    else RunStarts(s, from + 1)
  }

  /** No run starts in `[a, b)`, so the starts from `a` on are the starts from `b` on. */
  lemma {:induction false} RunStartsSkip(s: string, a: nat, b: nat)
    requires a <= b <= |s|
    requires forall k :: a <= k < b ==> !RunStart(s, k)
    ensures RunStarts(s, a) == RunStarts(s, b)
    decreases b - a
  {
    if a < b {
      RunStartsSkip(s, a + 1, b);
    }
  }

  /** `w` holds, field by field, the runs of `s` that start at the indices `p`. */
  predicate RunsAt(s: string, w: seq<string>, p: seq<nat>) {
    |w| == |p| &&
    (w != [] ==> p[0] <= |s| && w[0] == Token(s[p[0]..]) && RunsAt(s, w[1..], p[1..]))
  }

  /** `RunsAt`, index by index. */
  lemma {:induction false} RunsAtIndex(s: string, w: seq<string>, p: seq<nat>)
    requires RunsAt(s, w, p)
    ensures |w| == |p| && forall i :: 0 <= i < |w| ==> p[i] <= |s| && w[i] == Token(s[p[i]..])
  {
    if w != [] {
      RunsAtIndex(s, w[1..], p[1..]);
      forall i | 1 <= i < |w| ensures p[i] <= |s| && w[i] == Token(s[p[i]..]) {
        assert w[i] == w[1..][i - 1] && p[i] == p[1..][i - 1];
      }
    }
  }

  lemma RunsAtCons(s: string, w: seq<string>, p: seq<nat>, from: nat)
    requires from <= |s| && RunsAt(s, w, p)
    ensures RunsAt(s, [Token(s[from..])] + w, [from] + p)
  {
    assert ([Token(s[from..])] + w)[1..] == w && ([from] + p)[1..] == p;
  }

  /**
   * `split()` of a suffix that does not begin in the middle of a run: one field per run start
   * in the suffix, and that field is the run starting there.
   */
  lemma {:induction false} WordsFrom(s: string, from: nat)
    requires from <= |s|
    requires from == 0 || from == |s| || IsSpace(s[from - 1]) || IsSpace(s[from])
    ensures RunsAt(s, Words(s[from..]), RunStarts(s, from))
    decreases |s| - from
  {
    if from < |s| {
      if IsSpace(s[from]) {
        assert s[from..][1..] == s[from + 1..];
        assert Words(s[from..]) == Words(s[from + 1..]);
        assert !RunStart(s, from);
        assert RunStarts(s, from) == RunStarts(s, from + 1);
        WordsFrom(s, from + 1);
      } else {
        var n := TokenStep(s, from);
        RunStartsSkip(s, from + 1, n);
        WordsFrom(s, n);
        assert RunStart(s, from);
        assert RunStarts(s, from) == [from] + RunStarts(s, n);
        RunsAtCons(s, Words(s[n..]), RunStarts(s, n), from);
      }
    }
  }

  /** A run starting at `from` is the first field of the suffix; no run starts inside it. */
  lemma TokenStep(s: string, from: nat) returns (n: nat)
    requires from < |s| && !IsSpace(s[from])
    ensures n == from + |Token(s[from..])| && from < n <= |s|
    ensures n == |s| || IsSpace(s[n])
    ensures forall k :: from + 1 <= k < n ==> !RunStart(s, k)
    ensures Words(s[from..]) == [Token(s[from..])] + Words(s[n..])
  {
    var u := s[from..];
    var t := Token(u);
    n := from + |t|;
    assert t != [];
    assert u[|t|..] == s[n..];
    forall k | from + 1 <= k < n ensures !RunStart(s, k) {
      assert s[k] == t[k - from] && s[k - 1] == t[k - 1 - from];
    }
  }

  /** `s.split()` has one field per run of non-white-space characters, in order, and each field is its run. */
  lemma WordsAreRuns(s: string)
    ensures var w, p := Words(s), RunStarts(s, 0);
      |w| == |p| && forall i :: 0 <= i < |w| ==> w[i] == Token(s[p[i]..])
  {
    WordsFrom(s, 0);
    assert s[0..] == s;
    RunsAtIndex(s, Words(s), RunStarts(s, 0));
  }

  function LowerChar(c: char): char {
    if 'A' <= c <= 'Z' then (c as int + 32) as char else c
  }

  /** `s.lower()` restricted to the ASCII letters (see README for why this is enough here). */
  function Lower(s: string): (r: string)
    ensures |r| == |s|
    ensures forall k :: 0 <= k < |s| ==> r[k] == LowerChar(s[k])
  {
    seq(|s|, k requires 0 <= k < |s| => LowerChar(s[k]))
  }

  predicate IsDigit(c: char) {
    '0' <= c <= '9'
  }

  function DigitChar(d: nat): char
    requires d < 10
  {
    ('0' as int + d) as char
  }

  function DigitValue(c: char): nat
    requires IsDigit(c)
  {
    c as int - '0' as int
  }

  /** Decimal value of a run of ASCII digits, most significant first. */
  function DigitsValue(s: string): nat
    requires forall k :: 0 <= k < |s| ==> IsDigit(s[k])
  {
    if s == [] then 0
    else DigitsValue(s[..|s| - 1]) * 10 + DigitValue(s[|s| - 1])
  }

  /** `str(n)` for a natural number. */
  function NatToString(n: nat): (r: string)
    ensures r != []
    ensures forall k :: 0 <= k < |r| ==> IsDigit(r[k])
  {
    if n < 10 then [DigitChar(n)] else NatToString(n / 10) + [DigitChar(n % 10)]
  }

  /** `str(i)` for any integer. */
  function IntToString(i: int): (r: string)
    ensures r != [] && !IsSpace(r[0]) && !IsSpace(r[|r| - 1])
    ensures '\n' !in r
  {
    var r := if i < 0 then "-" + NatToString(-i) else NatToString(i);
    assert IsDigit(r[|r| - 1]);
    assert forall k :: 0 <= k < |r| ==> r[k] == '-' || IsDigit(r[k]);
    r
  }

  /** Reading the digits of `str(n)` gives back `n`. */
  lemma {:induction false} NatToStringValue(n: nat)
    ensures DigitsValue(NatToString(n)) == n
  {
    var r := NatToString(n);
    if n >= 10 {
      NatToStringValue(n / 10);
      assert r[..|r| - 1] == NatToString(n / 10);
    }
  }

  /** Sign and digits of a stripped number text (`int` after its `strip()`). */
  function ParseSigned(t: string): Option<int> {
    if t != [] && (t[0] == '-' || t[0] == '+') then
      var digits := t[1..];
      if digits != [] && forall k :: 0 <= k < |digits| ==> IsDigit(digits[k]) then
        var n: int := DigitsValue(digits);
        Some(if t[0] == '-' then -n else n)
      else None
    else if t != [] && forall k :: 0 <= k < |t| ==> IsDigit(t[k]) then Some(DigitsValue(t))
    else None
  }

  /** Python's `int(s)` on text: `None` stands for the `ValueError` it raises. */
  function PyInt(s: string): Option<int> {
    ParseSigned(Strip(s))
  }

  lemma ParseDigits(d: string)
    requires d != [] && forall k :: 0 <= k < |d| ==> IsDigit(d[k])
    ensures ParseSigned(d) == Some(DigitsValue(d))
  {
    assert IsDigit(d[0]);
  }

  lemma ParseNegative(d: string)
    requires d != [] && forall k :: 0 <= k < |d| ==> IsDigit(d[k])
    ensures var n: int := DigitsValue(d); ParseSigned("-" + d) == Some(-n)
  {
    var t := "-" + d;
    assert t[0] == '-' && t[1..] == d;
  }

  lemma SignedRoundTrip(i: int)
    ensures ParseSigned(IntToString(i)) == Some(i)
  {
    var r := IntToString(i);
    if i < 0 {
      var d := NatToString(-i);
      assert r == "-" + d;
      NatToStringValue(-i);
      ParseNegative(d);
    } else {
      var d := NatToString(i);
      assert r == d;
      NatToStringValue(i);
      ParseDigits(d);
    }
  }

  /** `int(str(i)) == i`. */
  lemma IntRoundTrip(i: int)
    ensures PyInt(IntToString(i)) == Some(i)
  {
    PyIntOfStripped(IntToString(i));
    SignedRoundTrip(i);
  }

  /** `int()` of text with no white space at either end reads the text as it is. */
  lemma PyIntOfStripped(t: string)
    requires t == [] || (!IsSpace(t[0]) && !IsSpace(t[|t| - 1]))
    ensures PyInt(t) == ParseSigned(t)
  {
    StripUnchanged(t);
  }
}
