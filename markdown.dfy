// `renderMarkdown` of src/components/GameInterface.tsx: the text is split on
// /\*\*(.*?)\*\*/g, odd pieces become bold, and each even piece is split again
// on /\*(.*?)\*/g with odd pieces in italics. The elements are modelled as a
// small tree; rendering them back with their markers gives the text again.

module Markdown {
  import opened Types
  import opened Text

  /**
   * The lazy `(.*?)` followed by the delimiter `d`: the first `k >= from` where
   * `d` starts, provided no line terminator comes before it (`.` does not match one).
   */
  function CloseAt(s: string, d: string, from: nat): (r: Option<nat>)
    requires from <= |s| && |d| > 0
    ensures r.Some? ==> from <= r.value && r.value + |d| <= |s| && StartsAt(s, r.value, d)
    ensures r.Some? ==> forall j :: from <= j < r.value ==> !IsLineTerminator(s[j]) && !StartsAt(s, j, d)
    ensures r.None? ==> forall k :: from <= k <= |s| && StartsAt(s, k, d) ==>
      exists j :: from <= j < k && IsLineTerminator(s[j])
    decreases |s| - from
  {
    if StartsAt(s, from, d) then Some(from)
    else if from == |s| || IsLineTerminator(s[from]) then None
    else CloseAt(s, d, from + 1)
  }

  /**
   * The pattern `d(.*?)d` matches at `q`; the result is where the closing `d`
   * starts: the first `d` after the opening one, with no line terminator
   * between. There is no match exactly when `d` does not start at `q` or
   * every later `d` lies past a line terminator.
   */
  function MatchAt(s: string, d: string, q: nat): (r: Option<nat>)
    requires q <= |s| && |d| > 0
    ensures r.Some? ==> StartsAt(s, q, d) && q + |d| <= r.value && r.value + |d| <= |s| && StartsAt(s, r.value, d)
    ensures r.Some? ==> forall j :: q + |d| <= j < r.value ==> !IsLineTerminator(s[j]) && !StartsAt(s, j, d)
    ensures r.None? && StartsAt(s, q, d) ==>
      forall k :: q + |d| <= k <= |s| && StartsAt(s, k, d) ==> exists j :: q + |d| <= j < k && IsLineTerminator(s[j])
  {
    if StartsAt(s, q, d) then CloseAt(s, d, q + |d|) else None
  }

  /**
   * `String.prototype.split` with that pattern, from the last match end `p`
   * and the search position `q`: the text between matches and the captured
   * groups, alternately.
   */
  function SplitFrom(s: string, d: string, p: nat, q: nat): (r: seq<string>)
    requires p <= q <= |s| && |d| > 0
    ensures |r| % 2 == 1
    decreases |s| - q
  {
    if q == |s| then [s[p..]]
    else match MatchAt(s, d, q)
      case None => SplitFrom(s, d, p, q + 1)
      case Some(k) =>
        var rest := SplitFrom(s, d, k + |d|, k + |d|);
        [s[p..q], s[q + |d|..k]] + rest
  }

  /** The captured groups, at the odd indices, never span a line: `.` does not match a line terminator. */
  lemma {:induction false} CapturesStayOnOneLine(s: string, d: string, p: nat, q: nat)
    requires p <= q <= |s| && |d| > 0
    ensures OddPiecesOneLine(SplitFrom(s, d, p, q))
    decreases |s| - q
  {
    if q < |s| {
      match MatchAt(s, d, q)
      case None =>
        assert SplitFrom(s, d, p, q) == SplitFrom(s, d, p, q + 1);
        CapturesStayOnOneLine(s, d, p, q + 1);
      case Some(k) =>
        CapturesStayOnOneLine(s, d, k + |d|, k + |d|);
        CaptureOnOneLine(s, d, q, k);
        SplitAtMatch(s, d, p, q, k);
    }
  }

  /** A match at `q` contributes its two pieces in front of the pieces after it. */
  lemma SplitAtMatch(s: string, d: string, p: nat, q: nat, k: nat)
    requires p <= q < |s| && |d| > 0 && MatchAt(s, d, q) == Some(k)
    requires NoLineTerminator(s[q + |d|..k]) && OddPiecesOneLine(SplitFrom(s, d, k + |d|, k + |d|))
    ensures OddPiecesOneLine(SplitFrom(s, d, p, q))
  {
    var rest := SplitFrom(s, d, k + |d|, k + |d|);
    assert SplitFrom(s, d, p, q) == [s[p..q], s[q + |d|..k]] + rest;
    ConsKeepsOneLine(s[p..q], s[q + |d|..k], rest);
  }

  predicate OddPiecesOneLine(r: seq<string>) {
    forall i :: 0 <= i < |r| && i % 2 == 1 ==> NoLineTerminator(r[i])
  }

  lemma ConsKeepsOneLine(a: string, b: string, rest: seq<string>)
    requires NoLineTerminator(b) && OddPiecesOneLine(rest)
    ensures OddPiecesOneLine([a, b] + rest)
  {
    var r := [a, b] + rest;
    forall i | 0 <= i < |r| && i % 2 == 1 ensures NoLineTerminator(r[i]) {
      if i > 1 {
        assert r[i] == rest[i - 2];
      }
    }
  }

  lemma CaptureOnOneLine(s: string, d: string, q: nat, k: nat)
    requires q <= |s| && |d| > 0 && MatchAt(s, d, q) == Some(k)
    ensures NoLineTerminator(s[q + |d|..k])
  {
    var c := CloseAt(s, d, q + |d|);
    assert c == Some(k);
    var t := s[q + |d|..k];
    forall j | 0 <= j < |t| ensures !IsLineTerminator(t[j]) {
      assert t[j] == s[q + |d| + j];
    }
  }

  predicate NoLineTerminator(t: string) {
    forall j :: 0 <= j < |t| ==> !IsLineTerminator(t[j])
  }

  function SplitOn(s: string, d: string): (r: seq<string>)
    requires |d| > 0
    ensures |r| % 2 == 1
  {
    SplitFrom(s, d, 0, 0)
  }

  /** Joining the pieces with the delimiter puts the markers back: the split loses nothing. */
  lemma {:induction false} SplitFromJoin(s: string, d: string, p: nat, q: nat)
    requires p <= q <= |s| && |d| > 0
    ensures Join(SplitFrom(s, d, p, q), d) == s[p..]
    decreases |s| - q
  {
    if q < |s| {
      match MatchAt(s, d, q)
      case None =>
        SplitFromJoin(s, d, p, q + 1);
      case Some(k) =>
        var e := k + |d|;
        var rest := SplitFrom(s, d, e, e);
        assert SplitFrom(s, d, p, q) == [s[p..q], s[q + |d|..k]] + rest;
        SplitFromJoin(s, d, e, e);
        JoinCons2(s[p..q], s[q + |d|..k], rest, d);
        PiecesAroundMatch(s, d, p, q, k);
    }
  }

  lemma PiecesAroundMatch(s: string, d: string, p: nat, q: nat, k: nat)
    requires p <= q && q + |d| <= k && k + |d| <= |s|
    requires StartsAt(s, q, d) && StartsAt(s, k, d)
    ensures s[p..] == s[p..q] + d + s[q + |d|..k] + d + s[k + |d|..]
  {
    assert s[p..] == s[p..q] + s[q..q + |d|] + s[q + |d|..k] + s[k..k + |d|] + s[k + |d|..];
  }

  lemma JoinCons2(a: string, b: string, rest: seq<string>, d: string)
    requires |rest| >= 1
    ensures Join([a, b] + rest, d) == a + d + b + d + Join(rest, d)
  {
    var x := [a, b] + rest;
    var y := [b] + rest;
    assert x[1..] == y;
    assert Join(x, d) == a + d + Join(y, d);
    assert y[1..] == rest;
    assert Join(y, d) == b + d + Join(rest, d);
  }

  lemma SplitOnJoin(s: string, d: string)
    requires |d| > 0
    ensures Join(SplitOn(s, d), d) == s
  {
    SplitFromJoin(s, d, 0, 0);
  }

  /** Text without the delimiter is one plain piece. */
  lemma {:induction false} SplitFromNoMarker(s: string, d: string, p: nat, q: nat)
    requires p <= q <= |s| && |d| > 0
    requires forall j :: q <= j < |s| ==> !StartsAt(s, j, d)
    ensures SplitFrom(s, d, p, q) == [s[p..]]
    decreases |s| - q
  {
    if q < |s| {
      SplitFromNoMarker(s, d, p, q + 1);
    }
  }

  /** No `d(.*?)d` match starts anywhere in `t`. */
  predicate NoMatchIn(t: string, d: string)
    requires |d| > 0
  {
    forall j :: 0 <= j <= |t| ==> MatchAt(t, d, j).None?
  }

  /** `d` occurs nowhere in `t`. */
  predicate NoDelimiterIn(t: string, d: string) {
    forall j :: 0 <= j <= |t| ==> !StartsAt(t, j, d)
  }

  /**
   * Each piece read on its own: no match starts inside a text piece (even
   * index), and no delimiter occurs inside a captured piece (odd index).
   * Where the pieces sit in the text is stated by `SplitFromAtFirstMatch`.
   */
  predicate LeftmostPieces(r: seq<string>, d: string)
    requires |d| > 0
  {
    && (forall i :: 0 <= i < |r| && i % 2 == 0 ==> NoMatchIn(r[i], d))
    && (forall i :: 0 <= i < |r| && i % 2 == 1 ==> NoDelimiterIn(r[i], d))
  }

  /**
   * No piece of the split, read on its own, holds a match (text pieces) or a
   * delimiter (captured pieces).
   */
  lemma {:induction false} SplitFromLeftmost(s: string, d: string, p: nat, q: nat)
    requires p <= q <= |s| && |d| > 0
    requires forall j :: p <= j < q ==> MatchAt(s, d, j).None?
    ensures LeftmostPieces(SplitFrom(s, d, p, q), d)
    decreases |s| - q
  {
    if q == |s| {
      TextPieceHasNoMatch(s, d, p, |s|);
      assert s[p..|s|] == s[p..];
    } else {
      match MatchAt(s, d, q)
      case None =>
        assert SplitFrom(s, d, p, q) == SplitFrom(s, d, p, q + 1);
        SplitFromLeftmost(s, d, p, q + 1);
      case Some(k) =>
        var rest := SplitFrom(s, d, k + |d|, k + |d|);
        SplitFromLeftmost(s, d, k + |d|, k + |d|);
        TextPieceHasNoMatch(s, d, p, q);
        GroupHasNoDelimiter(s, d, q, k);
        assert SplitFrom(s, d, p, q) == [s[p..q], s[q + |d|..k]] + rest;
        ConsKeepsLeftmost(s[p..q], s[q + |d|..k], rest, d);
    }
  }

  lemma SplitOnLeftmost(s: string, d: string)
    requires |d| > 0
    ensures LeftmostPieces(SplitOn(s, d), d)
  {
    SplitFromLeftmost(s, d, 0, 0);
  }

  /**
   * The split at its position in the text: when `j` is the first position at
   * or after `q` where a match starts, and it closes at `k`, the next two
   * pieces are the text from `p` up to `j` and the group between the
   * delimiters, and splitting goes on after the closing delimiter.
   */
  lemma SplitFromAtFirstMatch(s: string, d: string, p: nat, q: nat, j: nat, k: nat)
    requires p <= q <= j <= |s| && |d| > 0
    requires MatchAt(s, d, j) == Some(k)
    requires forall i :: q <= i < j ==> MatchAt(s, d, i).None?
    ensures SplitFrom(s, d, p, q) == [s[p..j], s[j + |d|..k]] + SplitFrom(s, d, k + |d|, k + |d|)
  {
    SplitFromSkipTo(s, d, p, q, j);
    SplitFromAtMatch(s, d, p, j, k);
  }

  /** Positions where no match starts are passed over without a new piece. */
  lemma {:induction false} SplitFromSkipTo(s: string, d: string, p: nat, q: nat, j: nat)
    requires p <= q <= j <= |s| && |d| > 0
    requires forall i :: q <= i < j ==> MatchAt(s, d, i).None?
    ensures SplitFrom(s, d, p, q) == SplitFrom(s, d, p, j)
    decreases j - q
  {
    if q < j {
      SplitFromSkip(s, d, p, q);
      SplitFromSkipTo(s, d, p, q + 1, j);
    }
  }

  /** No match at `q`: the search moves one position on. */
  lemma SplitFromSkip(s: string, d: string, p: nat, q: nat)
    requires p <= q < |s| && |d| > 0 && MatchAt(s, d, q).None?
    ensures SplitFrom(s, d, p, q) == SplitFrom(s, d, p, q + 1)
  {
  }

  /** A match at `q` closing at `k` gives the next two pieces. */
  lemma SplitFromAtMatch(s: string, d: string, p: nat, q: nat, k: nat)
    requires p <= q <= |s| && |d| > 0 && MatchAt(s, d, q) == Some(k)
    ensures SplitFrom(s, d, p, q) == [s[p..q], s[q + |d|..k]] + SplitFrom(s, d, k + |d|, k + |d|)
  {
    assert q < |s|;
    var rest := SplitFrom(s, d, k + |d|, k + |d|);
    calc {
      SplitFrom(s, d, p, q);
      match MatchAt(s, d, q)
        case None => []
        case Some(k') => [s[p..q], s[q + |d|..k']] + SplitFrom(s, d, k' + |d|, k' + |d|);
      [s[p..q], s[q + |d|..k]] + rest;
    }
  }

  /** With no match starting at or after `q`, the rest of the text from `p` is the last piece. */
  lemma SplitFromNoMatch(s: string, d: string, p: nat, q: nat)
    requires p <= q <= |s| && |d| > 0
    requires forall i :: q <= i < |s| ==> MatchAt(s, d, i).None?
    ensures SplitFrom(s, d, p, q) == [s[p..]]
  {
    SplitFromSkipTo(s, d, p, q, |s|);
  }

  /** The first match of the whole text decides the first two pieces. */
  lemma SplitOnAtFirstMatch(s: string, d: string, j: nat, k: nat)
    requires j <= |s| && |d| > 0
    requires MatchAt(s, d, j) == Some(k)
    requires forall i :: 0 <= i < j ==> MatchAt(s, d, i).None?
    ensures SplitOn(s, d) == [s[..j], s[j + |d|..k]] + SplitFrom(s, d, k + |d|, k + |d|)
  {
    SplitFromAtFirstMatch(s, d, 0, 0, j, k);
    assert s[0..j] == s[..j];
  }

  /** A text in which no match starts is one piece. */
  lemma SplitOnNoMatch(s: string, d: string)
    requires |d| > 0
    requires forall i :: 0 <= i < |s| ==> MatchAt(s, d, i).None?
    ensures SplitOn(s, d) == [s]
  {
    SplitFromNoMatch(s, d, 0, 0);
    assert s[0..] == s;
  }

  /** The italic split of `*a**b*`: two runs, with empty text around and between them. */
  lemma TwoItalicRunsSplit()
    ensures SplitOn("*a**b*", Italic) == ["", "a", "", "b", ""]
  {
    var s := "*a**b*";
    ItalicRunAt(s, 0, 'a');
    ItalicRunAt(s, 3, 'b');
    SplitOnAtFirstMatch(s, Italic, 0, 2);
    SplitFromAtFirstMatch(s, Italic, 3, 3, 3, 5);
    SplitFromNoMatch(s, Italic, 6, 6);
    assert s[..0] == "" && s[1..2] == "a" && s[3..3] == "" && s[4..5] == "b" && s[6..] == "";
  }

  /** `*c*` at position `q` is an italic match closing at `q + 2`. */
  lemma ItalicRunAt(s: string, q: nat, c: char)
    requires q + 3 <= |s| && s[q] == '*' && s[q + 1] == c && s[q + 2] == '*'
    requires c != '*' && !IsLineTerminator(c)
    ensures MatchAt(s, Italic, q) == Some(q + 2)
  {
    assert s[q..q + 1][0] == s[q] && s[q + 1..q + 2][0] == s[q + 1] && s[q + 2..q + 3][0] == s[q + 2];
    assert StartsAt(s, q, Italic) && !StartsAt(s, q + 1, Italic) && StartsAt(s, q + 2, Italic);
    assert CloseAt(s, Italic, q + 2) == Some(q + 2);
    assert CloseAt(s, Italic, q + 1) == Some(q + 2);
  }

  lemma ConsKeepsLeftmost(a: string, b: string, rest: seq<string>, d: string)
    requires |d| > 0 && NoMatchIn(a, d) && NoDelimiterIn(b, d) && LeftmostPieces(rest, d)
    ensures LeftmostPieces([a, b] + rest, d)
  {
    var r := [a, b] + rest;
    forall i | 2 <= i < |r| ensures r[i] == rest[i - 2] && i % 2 == (i - 2) % 2 {
      ParityShift(i - 2);
    }
  }

  /** Text scanned without finding a match holds no match of its own. */
  lemma TextPieceHasNoMatch(s: string, d: string, p: nat, e: nat)
    requires p <= e <= |s| && |d| > 0
    requires forall j :: p <= j < e ==> MatchAt(s, d, j).None?
    ensures NoMatchIn(s[p..e], d)
  {
    var t := s[p..e];
    forall j | 0 <= j <= |t| ensures MatchAt(t, d, j).None? {
      if j < |t| && MatchAt(t, d, j).Some? {
        MatchLifts(s, d, p, e, j);
      }
    }
  }

  /** A match inside `s[p..e]` is a match in `s` at the same place. */
  lemma MatchLifts(s: string, d: string, p: nat, e: nat, j: nat)
    requires p <= e <= |s| && |d| > 0 && j <= e - p
    requires MatchAt(s[p..e], d, j).Some?
    ensures MatchAt(s, d, p + j).Some?
  {
    var t := s[p..e];
    var k := MatchAt(t, d, j).value;
    SubSlice(s, p, e, j, j + |d|);
    SubSlice(s, p, e, k, k + |d|);
    assert StartsAt(s, p + j, d) && StartsAt(s, p + k, d);
    forall i | p + j + |d| <= i < p + k ensures !IsLineTerminator(s[i]) {
      assert s[i] == t[i - p];
    }
    assert CloseAt(s, d, p + j + |d|).Some?;
  }

  /** The captured group of a match holds no delimiter: `(.*?)` stops at the first one. */
  lemma GroupHasNoDelimiter(s: string, d: string, q: nat, k: nat)
    requires q <= |s| && |d| > 0 && MatchAt(s, d, q) == Some(k)
    ensures NoDelimiterIn(s[q + |d|..k], d)
  {
    var t := s[q + |d|..k];
    forall j | 0 <= j <= |t| ensures !StartsAt(t, j, d) {
      if j + |d| <= |t| {
        SubSlice(s, q + |d|, k, j, j + |d|);
        assert !StartsAt(s, q + |d| + j, d);
      }
    }
  }

  lemma SubSlice(s: string, p: nat, e: nat, a: nat, b: nat)
    requires p <= e <= |s| && a <= b <= e - p
    ensures s[p..e][a..b] == s[p + a..p + b]
  {
    forall i | 0 <= i < b - a ensures s[p..e][a..b][i] == s[p + a..p + b][i] {
      assert s[p..e][a..b][i] == s[p..e][a + i];
    }
  }

  // ---------------------------------------------------------------- elements

  datatype Inline = Plain(text: string) | Em(text: string)

  /** A `<strong>` piece, or a `<span>` holding plain text and `<em>` pieces. */
  datatype Node = Strong(text: string) | Span(inlines: seq<Inline>)

  const Bold: string := "**"
  const Italic: string := "*"

  /** The inner `split(/\*(.*?)\*\/g).map(...)`: odd indices in italics. */
  function RenderItalics(part: string): (r: seq<Inline>)
    ensures |r| % 2 == 1
    ensures forall i :: 0 <= i < |r| ==> (r[i].Em? <==> i % 2 == 1)
  {
    var pieces := SplitOn(part, Italic);
    seq(|pieces|, i requires 0 <= i < |pieces| => if i % 2 == 1 then Em(pieces[i]) else Plain(pieces[i]))
  }

  /** `renderMarkdown`: odd indices of the bold split are bold, even ones are spans. */
  function RenderMarkdown(text: string): (r: seq<Node>)
    ensures |r| % 2 == 1
    ensures forall i :: 0 <= i < |r| ==> (r[i].Strong? <==> i % 2 == 1)
  {
    var parts := SplitOn(text, Bold);
    seq(|parts|, i requires 0 <= i < |parts| => if i % 2 == 1 then Strong(parts[i]) else Span(RenderItalics(parts[i])))
  }

  // ---------------------------------------------------------------- back to text

  function Concat(xs: seq<string>): string {
    if |xs| == 0 then "" else xs[0] + Concat(xs[1..])
  }

  function InlineText(x: Inline): string {
    match x
    case Plain(t) => t
    case Em(t) => Italic + t + Italic
  }

  function NodeText(n: Node): string {
    match n
    case Strong(t) => Bold + t + Bold
    case Span(xs) => Concat(seq(|xs|, i requires 0 <= i < |xs| => InlineText(xs[i])))
  }

  /** The markup an element list stands for. */
  function ToMarkdown(nodes: seq<Node>): string {
    Concat(seq(|nodes|, i requires 0 <= i < |nodes| => NodeText(nodes[i])))
  }

  /** Odd pieces wrapped in the delimiter, even ones as they are. */
  function Wrapped(pieces: seq<string>, d: string): (r: seq<string>)
    ensures |r| == |pieces|
  {
    seq(|pieces|, i requires 0 <= i < |pieces| => if i % 2 == 1 then d + pieces[i] + d else pieces[i])
  }

  lemma {:induction false} ConcatWrapped(pieces: seq<string>, d: string)
    requires |pieces| % 2 == 1
    ensures Concat(Wrapped(pieces, d)) == Join(pieces, d)
    decreases |pieces|
  {
    var w := Wrapped(pieces, d);
    if |pieces| == 1 {
      assert Concat(w) == pieces[0] + Concat([]);
    } else {
      var rest := Join(pieces[2..], d);
      ConcatWrapped(pieces[2..], d);
      WrappedTail(pieces, d);
      assert w[0] == pieces[0] && w[1] == d + pieces[1] + d;
      ConcatTwo(w);
      assert Concat(w) == pieces[0] + ((d + pieces[1] + d) + rest);
      JoinCons2(pieces[0], pieces[1], pieces[2..], d);
      assert [pieces[0], pieces[1]] + pieces[2..] == pieces;
      Regroup(pieces[0], d, pieces[1], rest);
    }
  }

  lemma Regroup(a: string, d: string, b: string, c: string)
    ensures a + ((d + b + d) + c) == a + d + b + d + c
  {
  }

  lemma WrappedTail(pieces: seq<string>, d: string)
    requires |pieces| >= 2
    ensures Wrapped(pieces, d)[2..] == Wrapped(pieces[2..], d)
  {
    var w := Wrapped(pieces, d);
    var v := Wrapped(pieces[2..], d);
    forall k | 0 <= k < |pieces| - 2 ensures w[2..][k] == v[k] {
      ParityShift(k);
      assert w[2..][k] == w[k + 2];
      assert pieces[2..][k] == pieces[k + 2];
    }
  }

  lemma ParityShift(k: nat)
    ensures (k + 2) % 2 == k % 2
  {
  }

  lemma ConcatTwo(w: seq<string>)
    requires |w| >= 2
    ensures Concat(w) == w[0] + (w[1] + Concat(w[2..]))
  {
    assert w[1..][1..] == w[2..];
  }

  lemma ItalicsRoundTrip(part: string)
    ensures NodeText(Span(RenderItalics(part))) == part
  {
    var xs := RenderItalics(part);
    var pieces := SplitOn(part, Italic);
    assert seq(|xs|, i requires 0 <= i < |xs| => InlineText(xs[i])) == Wrapped(pieces, Italic);
    ConcatWrapped(pieces, Italic);
    SplitOnJoin(part, Italic);
  }

  /** Rendering the elements back with their markers gives the original text. */
  lemma RenderRoundTrip(text: string)
    ensures ToMarkdown(RenderMarkdown(text)) == text
  {
    var nodes := RenderMarkdown(text);
    var parts := SplitOn(text, Bold);
    forall i | 0 <= i < |nodes| ensures NodeText(nodes[i]) == Wrapped(parts, Bold)[i] {
      if i % 2 == 0 {
        ItalicsRoundTrip(parts[i]);
      }
    }
    assert seq(|nodes|, i requires 0 <= i < |nodes| => NodeText(nodes[i])) == Wrapped(parts, Bold);
    ConcatWrapped(parts, Bold);
    SplitOnJoin(text, Bold);
  }

  /** Text without asterisks renders as one span with one plain piece. */
  lemma PlainTextIsOneSpan(text: string)
    requires forall j :: 0 <= j < |text| ==> text[j] != '*'
    ensures RenderMarkdown(text) == [Span([Plain(text)])]
  {
    forall j | 0 <= j < |text| ensures !StartsAt(text, j, Bold) && !StartsAt(text, j, Italic) {
      if j + 1 <= |text| {
        assert text[j..j + 1][0] == text[j];
      }
    }
    SplitFromNoMarker(text, Bold, 0, 0);
    SplitFromNoMarker(text, Italic, 0, 0);
    assert text[0..] == text;
    assert RenderItalics(text) == [Plain(text)];
  }

  /** A text on one line with no asterisk, between two delimiters, is split into its one captured group. */
  lemma PairSplits(x: string, d: string)
    requires |d| > 0 && forall i :: 0 <= i < |d| ==> d[i] == '*'
    requires NoLineTerminator(x) && forall i :: 0 <= i < |x| ==> x[i] != '*'
    ensures SplitOn(d + x + d, d) == ["", x, ""]
  {
    var s := d + x + d;
    var e := |d| + |x|;
    assert s[..|d|] == d && s[|d|..e] == x && s[e..] == d;
    assert StartsAt(s, 0, d) && StartsAt(s, e, d);
    forall j | |d| <= j < e ensures !IsLineTerminator(s[j]) && !StartsAt(s, j, d) {
      assert s[j] == x[j - |d|];
      if j + |d| <= |s| {
        assert s[j..j + |d|][0] == s[j];
      }
    }
    var k := CloseAt(s, d, |d|).value;
    assert k == e;
    assert MatchAt(s, d, 0) == Some(e);
    assert s[|s|..] == "";
    assert SplitFrom(s, d, |s|, |s|) == [s[|s|..]];
    assert SplitFrom(s, d, 0, 0) == [s[0..0], s[|d|..e]] + SplitFrom(s, d, |s|, |s|);
  }

  /** `**x**` renders as one bold element between two empty spans. */
  lemma BoldPairRenders(x: string)
    requires NoLineTerminator(x) && forall i :: 0 <= i < |x| ==> x[i] != '*'
    ensures RenderMarkdown(Bold + x + Bold) == [Span([Plain("")]), Strong(x), Span([Plain("")])]
  {
    PairSplits(x, Bold);
    assert SplitOn("", Italic) == [""];
    assert RenderItalics("") == [Plain("")];
    var r := RenderMarkdown(Bold + x + Bold);
    assert |r| == 3 && r[0] == Span([Plain("")]) && r[1] == Strong(x) && r[2] == Span([Plain("")]);
  }

  /** `*x*` renders as one span holding an italic element between two empty texts. */
  lemma ItalicPairRenders(x: string)
    requires NoLineTerminator(x) && forall i :: 0 <= i < |x| ==> x[i] != '*'
    ensures RenderItalics(Italic + x + Italic) == [Plain(""), Em(x), Plain("")]
  {
    PairSplits(x, Italic);
    var r := RenderItalics(Italic + x + Italic);
    assert |r| == 3 && r[0] == Plain("") && r[1] == Em(x) && r[2] == Plain("");
  }
}
