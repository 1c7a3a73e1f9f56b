/**
 Substrings, whitespace-separated words and UTF-8 lengths of strings.

 Splitting lists the longest stretches without whitespace; a length in bytes counts one for each
 character and more for wide ones; replacing goes from left to right and keeps everything around the
 occurrences.
 */
module Text {

  /** Lower-casing and the whitespace class come from the platform's Unicode tables. */
  datatype Unicode = Unicode(lower: string -> string, isSpace: char -> bool)

  predicate OccursAt(s: string, p: string, i: int) {
    0 <= i <= |s| - |p| && s[i..i + |p|] == p
  }

  predicate Contains(s: string, p: string) {
    exists i | 0 <= i <= |s| - |p| :: OccursAt(s, p, i)
  }

  lemma Occurrence(s: string, p: string) returns (i: nat)
    requires Contains(s, p)
    ensures OccursAt(s, p, i)
  {
    i :| 0 <= i <= |s| - |p| && OccursAt(s, p, i);
  }

  lemma OccursInside(s: string, p: string, from: nat, to: nat, i: nat)
    requires from <= to <= |s| && from <= i && i + |p| <= to
    ensures OccursAt(s, p, i) <==> OccursAt(s[from..to], p, i - from)
  {
    var outer, inner := s[i..i + |p|], s[from..to][i - from..i - from + |p|];
    assert forall k :: 0 <= k < |p| ==> outer[k] == inner[k];
    assert outer == inner;
  }

  // ------------------------------------------------------------------ words

  /** `t[i..j]` is a longest stretch of characters that are not whitespace. */
  ghost predicate IsRun(t: string, isSpace: char -> bool, i: int, j: int) {
    && 0 <= i < j <= |t|
    && (forall k :: i <= k < j ==> !isSpace(t[k]))
    && (i == 0 || isSpace(t[i - 1]))
    && (j == |t| || isSpace(t[j]))
  }

  ghost predicate IsWord(t: string, isSpace: char -> bool, w: string) {
    exists i, j :: IsRun(t, isSpace, i, j) && w == t[i..j]
  }

  function RunLength(t: string, isSpace: char -> bool): (n: nat)
    ensures n <= |t|
    ensures forall k :: 0 <= k < n ==> !isSpace(t[k])
    ensures n == |t| || isSpace(t[n])
  {
    if t == [] || isSpace(t[0]) then 0 else 1 + RunLength(t[1..], isSpace)
  }

  function SplitWhitespace(t: string, isSpace: char -> bool): seq<string>
    decreases |t|
  {
    if t == [] then []
    else if isSpace(t[0]) then SplitWhitespace(t[1..], isSpace)
    else var n := RunLength(t, isSpace); [t[..n]] + SplitWhitespace(t[n..], isSpace)
  }

  /** The words past a cut next to whitespace are the words that begin past the cut. */
  lemma RunsPastCut(t: string, isSpace: char -> bool, n: nat, i: int, j: int)
    requires 0 < n <= |t| && (isSpace(t[n - 1]) || n == |t| || isSpace(t[n]))
    requires n <= i
    ensures IsRun(t, isSpace, i, j) <==> IsRun(t[n..], isSpace, i - n, j - n)
    ensures IsRun(t, isSpace, i, j) ==> t[i..j] == t[n..][i - n..j - n]
  {
  }

  /** Where the first word ends, or the first whitespace character if there is none in front. */
  function FirstCut(t: string, isSpace: char -> bool): (n: nat)
    requires t != []
    ensures 0 < n <= |t| && (isSpace(t[n - 1]) || n == |t| || isSpace(t[n]))
  {
    if isSpace(t[0]) then 1 else RunLength(t, isSpace)
  }

  datatype Span = Span(from: int, to: int)

  /** Words and where they stand: each span is a run that holds its word, and they go from left to right. */
  ghost predicate RunsInOrder(runs: seq<Span>, words: seq<string>, t: string, isSpace: char -> bool) {
    && |runs| == |words|
    && (forall k :: 0 <= k < |runs| ==> HoldsWord(runs[k], words[k], t, isSpace))
    && (forall k :: 0 < k < |runs| ==> runs[k - 1].to <= runs[k].from)
  }

  ghost predicate HoldsWord(s: Span, w: string, t: string, isSpace: char -> bool) {
    IsRun(t, isSpace, s.from, s.to) && w == t[s.from..s.to]
  }

  ghost predicate HasAllRuns(runs: seq<Span>, t: string, isSpace: char -> bool) {
    forall i, j :: IsRun(t, isSpace, i, j) ==> Span(i, j) in runs
  }

  function Shifted(runs: seq<Span>, n: nat): seq<Span> {
    seq(|runs|, k requires 0 <= k < |runs| => Span(runs[k].from + n, runs[k].to + n))
  }

  lemma ShiftedInOrder(runs: seq<Span>, words: seq<string>, t: string, isSpace: char -> bool, n: nat)
    requires 0 < n <= |t| && (isSpace(t[n - 1]) || n == |t| || isSpace(t[n]))
    requires RunsInOrder(runs, words, t[n..], isSpace)
    ensures RunsInOrder(Shifted(runs, n), words, t, isSpace)
    ensures runs != [] ==> n <= Shifted(runs, n)[0].from
  {
    forall k | 0 <= k < |runs| ensures HoldsWord(Shifted(runs, n)[k], words[k], t, isSpace) {
      assert HoldsWord(runs[k], words[k], t[n..], isSpace);
      RunsPastCut(t, isSpace, n, runs[k].from + n, runs[k].to + n);
    }
    if runs != [] {
      assert HoldsWord(runs[0], words[0], t[n..], isSpace);
    }
  }

  lemma RunsInFront(t: string, isSpace: char -> bool, i: int, j: int)
    requires t != [] && IsRun(t, isSpace, i, j)
    ensures FirstCut(t, isSpace) <= i || (!isSpace(t[0]) && i == 0 && j == FirstCut(t, isSpace))
  {
  }

  lemma ShiftedHasAll(runs: seq<Span>, t: string, isSpace: char -> bool)
    requires t != [] && HasAllRuns(runs, t[FirstCut(t, isSpace)..], isSpace)
    ensures var n := FirstCut(t, isSpace);
            HasAllRuns((if isSpace(t[0]) then [] else [Span(0, n)]) + Shifted(runs, n), t, isSpace)
  {
    var n := FirstCut(t, isSpace);
    var front := if isSpace(t[0]) then [] else [Span(0, n)];
    forall i, j | IsRun(t, isSpace, i, j) ensures Span(i, j) in front + Shifted(runs, n) {
      RunsInFront(t, isSpace, i, j);
      if n <= i {
        RunsPastCut(t, isSpace, n, i, j);
        var k :| 0 <= k < |runs| && runs[k] == Span(i - n, j - n);
        assert Shifted(runs, n)[k] == Span(i, j);
      } else {
        assert front[0] == Span(i, j);
      }
    }
  }

  lemma RunsCons(first: Span, w: string, rest: seq<Span>, words: seq<string>, t: string, isSpace: char -> bool)
    requires HoldsWord(first, w, t, isSpace) && RunsInOrder(rest, words, t, isSpace)
    requires rest != [] ==> first.to <= rest[0].from
    ensures RunsInOrder([first] + rest, [w] + words, t, isSpace)
  {
    var runs, all := [first] + rest, [w] + words;
    forall k | 0 <= k < |runs| ensures HoldsWord(runs[k], all[k], t, isSpace) {
      if k > 0 {
        assert runs[k] == rest[k - 1] && all[k] == words[k - 1];
      }
    }
    forall k | 0 < k < |runs| ensures runs[k - 1].to <= runs[k].from {
      assert runs[k] == rest[k - 1];
      if k > 1 {
        assert runs[k - 1] == rest[k - 2];
      }
    }
  }

  /** Where the words stand. */
  function Spans(t: string, isSpace: char -> bool): seq<Span>
    decreases |t|
  {
    if t == [] then []
    else
      var n := FirstCut(t, isSpace);
      (if isSpace(t[0]) then [] else [Span(0, n)]) + Shifted(Spans(t[n..], isSpace), n)
  }

  /** Splitting lists every longest stretch once, from left to right. */
  lemma {:induction false} SplitListsRuns(t: string, isSpace: char -> bool)
    ensures RunsInOrder(Spans(t, isSpace), SplitWhitespace(t, isSpace), t, isSpace)
    ensures HasAllRuns(Spans(t, isSpace), t, isSpace)
    decreases |t|
  {
    if t == [] {
    } else {
      var n := FirstCut(t, isSpace);
      var rest, words := Spans(t[n..], isSpace), SplitWhitespace(t[n..], isSpace);
      SplitListsRuns(t[n..], isSpace);
      ShiftedInOrder(rest, words, t, isSpace, n);
      ShiftedHasAll(rest, t, isSpace);
      if isSpace(t[0]) {
        assert [] + Shifted(rest, n) == Shifted(rest, n);
      } else {
        assert t[0..n] == t[..n];
        RunsCons(Span(0, n), t[..n], Shifted(rest, n), words, t, isSpace);
      }
    }
  }

  lemma SplitWhitespaceYieldsWords(t: string, isSpace: char -> bool, w: string)
    ensures w in SplitWhitespace(t, isSpace) <==> IsWord(t, isSpace, w)
  {
    var runs := Spans(t, isSpace);
    SplitListsRuns(t, isSpace);
    var words := SplitWhitespace(t, isSpace);
    if w in words {
      var k :| 0 <= k < |words| && words[k] == w;
      assert HoldsWord(runs[k], words[k], t, isSpace);
    }
    if IsWord(t, isSpace, w) {
      var i, j :| IsRun(t, isSpace, i, j) && w == t[i..j];
      var k :| 0 <= k < |runs| && runs[k] == Span(i, j);
      assert HoldsWord(runs[k], words[k], t, isSpace);
    }
  }

  // ----------------------------------------------------------- UTF-8 lengths

  function Utf8Width(c: char): nat {
    if c as int < 0x80 then 1
    else if c as int < 0x800 then 2
    else if c as int < 0x10000 then 3
    else 4
  }

  /** The length of a string in bytes. */
  function ByteLen(s: string): nat {
    if s == [] then 0 else Utf8Width(s[0]) + ByteLen(s[1..])
  }

  lemma {:induction false} ByteLenBound(s: string)
    ensures |s| <= ByteLen(s)
    decreases |s|
  {
    if s == [] {
    } else {
      ByteLenBound(s[1..]);
    }
  }

  /** The characters from `least` on. */
  function Wide(s: string, least: int): set<int> {
    set i | 0 <= i < |s| && s[i] as int >= least
  }

  lemma WideOneMore(s: string, c: char, least: int)
    ensures |Wide(s + [c], least)| == |Wide(s, least)| + if c as int >= least then 1 else 0
  {
    var t := s + [c];
    assert t[|s|] == c && forall i :: 0 <= i < |s| ==> t[i] == s[i];
    assert Wide(t, least) == Wide(s, least) + (if c as int >= least then {|s|} else {});
  }

  lemma {:induction false} ByteLenSplit(s: string, t: string)
    ensures ByteLen(s + t) == ByteLen(s) + ByteLen(t)
    decreases |s|
  {
    if s == [] {
      assert s + t == t;
    } else {
      assert (s + t)[1..] == s[1..] + t;
      ByteLenSplit(s[1..], t);
    }
  }

  /** One byte for each character, one more from U+0080, one more from U+0800 and one more from U+10000 on. */
  lemma {:induction false} ByteLenCounts(s: string)
    ensures ByteLen(s) == |s| + |Wide(s, 0x80)| + |Wide(s, 0x800)| + |Wide(s, 0x10000)|
    decreases |s|
  {
    if s == [] {
    } else {
      var n := |s| - 1;
      var c := s[n];
      assert s == s[..n] + [c];
      ByteLenCounts(s[..n]);
      ByteLenSplit(s[..n], [c]);
      assert [c][1..] == [];
      WideOneMore(s[..n], c, 0x80);
      WideOneMore(s[..n], c, 0x800);
      WideOneMore(s[..n], c, 0x10000);
    }
  }

  lemma {:induction false} AsciiByteLen(s: string)
    requires forall i :: 0 <= i < |s| ==> s[i] as int < 0x80
    ensures ByteLen(s) == |s|
    decreases |s|
  {
    if s == [] {
    } else {
      AsciiByteLen(s[1..]);
    }
  }

  // -------------------------------------------------------------- replacing

  function Find(s: string, p: string, from: nat): (i: int)
    requires from <= |s|
    ensures i == -1 || (from <= i && OccursAt(s, p, i))
    ensures forall k :: from <= k && (i == -1 || k < i) ==> !OccursAt(s, p, k)
    decreases |s| - from
  {
    if OccursAt(s, p, from) then from
    else if from == |s| then -1
    else Find(s, p, from + 1)
  }

  /** Leftmost, non-overlapping replacement of `p` by `r`. */
  function Replace(s: string, p: string, r: string): string
    requires p != []
    decreases |s|
  {
    var i := Find(s, p, 0);
    if i == -1 then s else s[..i] + r + Replace(s[i + |p|..], p, r)
  }

  lemma ReplaceAbsent(s: string, p: string, r: string)
    requires p != [] && !Contains(s, p)
    ensures Replace(s, p, r) == s
  {
  }

  // ------------------------------------------------ what replacing means

  /** The pieces with `sep` between each two of them. */
  function Glue(pieces: seq<string>, sep: string): string {
    if pieces == [] then ""
    else if |pieces| == 1 then pieces[0]
    else pieces[0] + sep + Glue(pieces[1..], sep)
  }

  /** `p` occurs first at the end of the piece, where it stands, and not in the last piece. */
  ghost predicate CutLeftmost(pieces: seq<string>, p: string) {
    && pieces != [] && !Contains(pieces[|pieces| - 1], p)
    && forall k :: 0 <= k < |pieces| - 1 ==> EndsFirst(pieces[k], p)
  }

  ghost predicate EndsFirst(piece: string, p: string) {
    forall i :: 0 <= i < |piece| ==> !OccursAt(piece + p, p, i)
  }

  function Pieces(s: string, p: string): seq<string>
    requires p != []
    decreases |s|
  {
    var i := Find(s, p, 0);
    if i == -1 then [s] else [s[..i]] + Pieces(s[i + |p|..], p)
  }

  lemma GlueCons(piece: string, pieces: seq<string>, sep: string)
    requires pieces != []
    ensures Glue([piece] + pieces, sep) == piece + sep + Glue(pieces, sep)
  {
    assert ([piece] + pieces)[1..] == pieces;
  }

  lemma FirstEnds(s: string, p: string, i: nat)
    requires p != [] && Find(s, p, 0) == i
    ensures EndsFirst(s[..i], p) && s == s[..i] + p + s[i + |p|..]
  {
    assert s[i..i + |p|] == p;
    assert s[..i] + p == s[0..i + |p|];
    forall k | 0 <= k < i ensures !OccursAt(s[..i] + p, p, k) {
      OccursInside(s, p, 0, i + |p|, k);
    }
  }

  /**
   Replacing keeps everything around the occurrences: cut at the occurrences found from left to right,
   the text is the pieces with `p` between them, and the result the same pieces with `r` between them.
   */
  lemma {:induction false} ReplaceKeepsPieces(s: string, p: string, r: string)
    requires p != []
    ensures var pieces := Pieces(s, p);
            CutLeftmost(pieces, p) && s == Glue(pieces, p) && Replace(s, p, r) == Glue(pieces, r)
    decreases |s|
  {
    var i := Find(s, p, 0);
    if i == -1 {
    } else {
      var rest := s[i + |p|..];
      ReplaceKeepsPieces(rest, p, r);
      FirstEnds(s, p, i);
      GlueCons(s[..i], Pieces(rest, p), p);
      GlueCons(s[..i], Pieces(rest, p), r);
      CutCons(s[..i], Pieces(rest, p), p);
    }
  }

  lemma CutCons(piece: string, pieces: seq<string>, p: string)
    requires EndsFirst(piece, p) && CutLeftmost(pieces, p)
    ensures CutLeftmost([piece] + pieces, p)
  {
    var all := [piece] + pieces;
    forall k | 0 <= k < |all| - 1 ensures EndsFirst(all[k], p) {
      if k > 0 {
        assert all[k] == pieces[k - 1];
      }
    }
  }
}
