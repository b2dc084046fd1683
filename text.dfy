// String helpers with the meaning JavaScript gives them: whitespace and
// trimming, lower-casing, `includes`, `indexOf`, `join`, and the decimal
// rendering and parsing of integers.

module Text {
  import opened Types

  /** A character `\s` matches and `trim` removes: WhiteSpace or LineTerminator. */
  predicate IsSpace(c: char) {
    c == '\t' || c == '\n' || c == '\U{B}' || c == '\U{C}' || c == '\r' || c == ' '
    || c == '\U{A0}' || c == '\U{1680}' || ('\U{2000}' <= c <= '\U{200A}')
    || c == '\U{2028}' || c == '\U{2029}' || c == '\U{202F}' || c == '\U{205F}'
    || c == '\U{3000}' || c == '\U{FEFF}'
  }

  /** A character the regular-expression `.` does not match. */
  predicate IsLineTerminator(c: char) {
    c == '\n' || c == '\r' || c == '\U{2028}' || c == '\U{2029}'
  }

  predicate AllSpace(s: string) {
    forall i :: 0 <= i < |s| ==> IsSpace(s[i])
  }

  /** Index of the first non-space character at or after `i` (|s| if none). */
  function SkipSpace(s: string, i: nat): (r: nat)
    requires i <= |s|
    ensures i <= r <= |s|
    ensures forall k :: i <= k < r ==> IsSpace(s[k])
    ensures r < |s| ==> !IsSpace(s[r])
    decreases |s| - i
  {
    if i < |s| && IsSpace(s[i]) then SkipSpace(s, i + 1) else i
  }

  /** Index just after the last non-space character before `j` (0 if none). */
  function SkipSpaceBack(s: string, j: nat): (r: nat)
    requires j <= |s|
    ensures r <= j
    ensures forall k :: r <= k < j ==> IsSpace(s[k])
    ensures r > 0 ==> !IsSpace(s[r - 1])
  {
    if j > 0 && IsSpace(s[j - 1]) then SkipSpaceBack(s, j - 1) else j
  }

  /** `s.trim()`: the text between the first and the last non-space character. */
  function Trim(s: string): (r: string)
    ensures |r| <= |s|
    ensures r == "" <==> AllSpace(s)
    ensures r != "" ==> !IsSpace(r[0]) && !IsSpace(r[|r| - 1])
    ensures exists i, j :: 0 <= i <= j <= |s| && r == s[i..j] && AllSpace(s[..i]) && AllSpace(s[j..])
  {
    var i := SkipSpace(s, 0);
    if i == |s| then
      assert s[..0] == "" && s[0..] == s;
      ""
    else
      var j := SkipSpaceBack(s, |s|);
      assert AllSpace(s[..i]) && AllSpace(s[j..]);
      s[i..j]
  }

  /** `c.toLowerCase()` for the ASCII letters. */
  function LowerChar(c: char): char {
    if 'A' <= c <= 'Z' then (c as int + 32) as char else c
  }

  /** `s.toLowerCase()` */
  function ToLower(s: string): (r: string)
    ensures |r| == |s|
    ensures forall i :: 0 <= i < |s| ==> r[i] == LowerChar(s[i])
  {
    seq(|s|, i requires 0 <= i < |s| => LowerChar(s[i]))
  }

  lemma ToLowerIdempotent(s: string)
    ensures ToLower(ToLower(s)) == ToLower(s)
  {
  }

  /** `t` occurs in `s` at index `i`. */
  predicate StartsAt(s: string, i: int, t: string) {
    0 <= i && i + |t| <= |s| && s[i..i + |t|] == t
  }

  /** `s.includes(t)` */
  predicate Contains(s: string, t: string) {
    exists i :: 0 <= i <= |s| - |t| && StartsAt(s, i, t)
  }

  /** First occurrence of `t` in `s` at or after `from`, as `s.indexOf(t, from)`. */
  function IndexOfFrom(s: string, t: string, from: nat): (r: Option<nat>)
    requires from <= |s|
    ensures r.Some? ==> from <= r.value && StartsAt(s, r.value, t)
    ensures r.Some? ==> forall k :: from <= k < r.value ==> !StartsAt(s, k, t)
    ensures r.None? ==> forall k :: from <= k ==> !StartsAt(s, k, t)
    decreases |s| - from
  {
    if StartsAt(s, from, t) then Some(from)
    else if from + |t| >= |s| then None
    else IndexOfFrom(s, t, from + 1)
  }

  function IndexOf(s: string, t: string): (r: Option<nat>)
    ensures r.Some? <==> Contains(s, t)
    ensures r.Some? ==> StartsAt(s, r.value, t) && forall k :: 0 <= k < r.value ==> !StartsAt(s, k, t)
  {
    IndexOfFrom(s, t, 0)
  }

  /** `s.replace(t, "")` with a string pattern: the first occurrence is removed. */
  function RemoveFirst(s: string, t: string): (r: string)
    ensures IndexOf(s, t).None? ==> r == s
    ensures IndexOf(s, t).Some? ==> r == s[..IndexOf(s, t).value] + s[IndexOf(s, t).value + |t|..]
  {
    match IndexOf(s, t)
    case None => s
    case Some(i) => s[..i] + s[i + |t|..]
  }

  /** The first occurrence is the one with no occurrence before it. */
  lemma IndexOfIs(s: string, t: string, i: nat)
    requires StartsAt(s, i, t)
    requires forall k :: 0 <= k < i ==> !StartsAt(s, k, t)
    ensures IndexOf(s, t) == Some(i)
  {
    assert Contains(s, t);
  }

  /** `xs.join(sep)` */
  function Join(xs: seq<string>, sep: string): string {
    if |xs| == 0 then ""
    else if |xs| == 1 then xs[0]
    else xs[0] + sep + Join(xs[1..], sep)
  }

  /** Splits `s` at every occurrence of the character `sep`: the inverse of `Join`. */
  function Split(s: string, sep: char): (r: seq<string>)
    ensures |r| >= 1
    decreases |s|
  {
    if |s| == 0 then [""]
    else
      var rest := Split(s[1..], sep);
      if s[0] == sep then [""] + rest
      else [[s[0]] + rest[0]] + rest[1..]
  }

  /** Joining lines that do not contain `sep` and splitting the result gives the lines back. */
  lemma {:induction false} SplitJoin(xs: seq<string>, sep: char)
    requires |xs| >= 1
    requires forall i, k :: 0 <= i < |xs| && 0 <= k < |xs[i]| ==> xs[i][k] != sep
    ensures Split(Join(xs, [sep]), sep) == xs
  {
    if |xs| == 1 {
      SplitNoSep(xs[0], sep);
    } else {
      SplitJoin(xs[1..], sep);
      SplitAfter(xs[0], [sep] + Join(xs[1..], [sep]), sep);
      assert Split([sep] + Join(xs[1..], [sep]), sep) == [""] + xs[1..] by {
        assert ([sep] + Join(xs[1..], [sep]))[1..] == Join(xs[1..], [sep]);
      }
      assert xs[0] + [sep] + Join(xs[1..], [sep]) == xs[0] + ([sep] + Join(xs[1..], [sep]));
      assert xs[0] + "" == xs[0];
      assert [xs[0]] + xs[1..] == xs;
    }
  }

  lemma {:induction false} SplitNoSep(s: string, sep: char)
    requires forall k :: 0 <= k < |s| ==> s[k] != sep
    ensures Split(s, sep) == [s]
    decreases |s|
  {
    if |s| > 0 {
      SplitNoSep(s[1..], sep);
      assert [s[0]] + s[1..] == s;
    }
  }

  /** A prefix without `sep` glues onto the first piece of what follows. */
  lemma {:induction false} SplitAfter(a: string, b: string, sep: char)
    requires forall k :: 0 <= k < |a| ==> a[k] != sep
    ensures Split(a + b, sep) == [a + Split(b, sep)[0]] + Split(b, sep)[1..]
    decreases |a|
  {
    if |a| == 0 {
      assert a + b == b;
      assert a + Split(b, sep)[0] == Split(b, sep)[0];
      assert Split(b, sep) == [Split(b, sep)[0]] + Split(b, sep)[1..];
    } else {
      SplitAfter(a[1..], b, sep);
      assert (a + b)[1..] == a[1..] + b;
      assert [a[0]] + (a[1..] + Split(b, sep)[0]) == a + Split(b, sep)[0];
    }
  }

  predicate IsDigit(c: char) {
    '0' <= c <= '9'
  }

  predicate AllDigits(s: string) {
    forall i :: 0 <= i < |s| ==> IsDigit(s[i])
  }

  function DigitChar(d: nat): (c: char)
    requires d < 10
    ensures IsDigit(c)
  {
    ('0' as int + d) as char
  }

  /** `String(n)` for a natural number: decimal, no leading zeros. */
  function NatToString(n: nat): (r: string)
    ensures |r| >= 1 && AllDigits(r)
    ensures |r| > 1 ==> r[0] != '0'
  {
    if n < 10 then [DigitChar(n)]
    else NatToString(n / 10) + [DigitChar(n % 10)]
  }

  /** `String(i)` for an integer. */
  function IntToString(i: int): string {
    if i < 0 then "-" + NatToString(-i) else NatToString(i)
  }

  /** `parseInt(s, 10)` of a run of decimal digits. */
  function ParseDigits(s: string): (n: nat)
    requires AllDigits(s)
  {
    if |s| == 0 then 0
    else ParseDigits(s[..|s| - 1]) * 10 + (s[|s| - 1] as int - '0' as int)
  }

  /** Rendering a number in decimal and parsing it back gives the number. */
  lemma {:induction false} ParseNatToString(n: nat)
    ensures ParseDigits(NatToString(n)) == n
  {
    if n >= 10 {
      ParseNatToString(n / 10);
      var s := NatToString(n);
      assert s[..|s| - 1] == NatToString(n / 10);
    }
  }
}
