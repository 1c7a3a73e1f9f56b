/** What the phrase lists of the fast decision layer mean for the text as it was typed, in lower case. */
module Phrases {
  import opened Collections
  import opened Text
  import opened Reflex

  // Phrases are looked for in the normalized text, where words stand one space apart and no space
  // stands before the first or after the last.

  type Spaces = char -> bool

  // ------------------------------------- normalizing, character by character

  /** What follows a character of a word: more of the word, or one space and the words after it. */
  function Continued(t: string, isSpace: Spaces): string
    decreases |t|, 1
  {
    if t == [] then []
    else if !isSpace(t[0]) then [t[0]] + Continued(t[1..], isSpace)
    else
      var rest := Normal(t[1..], isSpace);
      if rest == [] then [] else " " + rest
  }

  /** The words of `t`, one space apart. */
  function Normal(t: string, isSpace: Spaces): string
    decreases |t|, 0
  {
    if t == [] then []
    else if isSpace(t[0]) then Normal(t[1..], isSpace)
    else [t[0]] + Continued(t[1..], isSpace)
  }

  lemma JoinLonger(c: char, w: string, words: seq<string>)
    ensures Join([[c] + w] + words) == [c] + Join([w] + words)
  {
    var longer, shorter := [[c] + w] + words, [w] + words;
    assert longer[1..] == words && shorter[1..] == words;
    if words != [] {
      assert [c] + w + " " + Join(words) == [c] + (w + " " + Join(words));
    }
  }

  lemma RunLengthTail(t: string, isSpace: Spaces)
    requires t != [] && !isSpace(t[0])
    ensures RunLength(t, isSpace) == 1 + RunLength(t[1..], isSpace)
  {
  }

  /** A word of one character. */
  lemma SplitShort(t: string, isSpace: Spaces)
    requires t != [] && !isSpace(t[0]) && (|t| == 1 || isSpace(t[1]))
    ensures SplitWhitespace(t, isSpace) == [[t[0]]] + SplitWhitespace(t[1..], isSpace)
  {
    RunLengthTail(t, isSpace);
    assert RunLength(t[1..], isSpace) == 0;
    assert t[..1] == [t[0]];
  }

  /** The first character of a longer word in front of the rest of the word. */
  lemma SplitLong(t: string, isSpace: Spaces)
    requires |t| > 1 && !isSpace(t[0]) && !isSpace(t[1])
    ensures var words := SplitWhitespace(t[1..], isSpace);
            words != [] && SplitWhitespace(t, isSpace) == [[t[0]] + words[0]] + words[1..]
  {
    var n, tail := RunLength(t, isSpace), t[1..];
    RunLengthTail(t, isSpace);
    assert t[..n] == [t[0]] + tail[..n - 1];
    assert t[n..] == tail[n - 1..];
    var words := [tail[..n - 1]] + SplitWhitespace(tail[n - 1..], isSpace);
    assert SplitWhitespace(tail, isSpace) == words;
    assert words[1..] == SplitWhitespace(t[n..], isSpace);
  }

  lemma JoinFirst(c: char, words: seq<string>)
    ensures Join([[c]] + words) == [c] + if words == [] then [] else " " + Join(words)
  {
    var all := [[c]] + words;
    assert all[1..] == words;
    if words != [] {
      assert [c] + " " + Join(words) == [c] + (" " + Join(words));
    }
  }

  /** Splitting and joining is `Normal`. */
  lemma {:induction false} JoinedIsNormal(t: string, isSpace: Spaces)
    ensures Join(SplitWhitespace(t, isSpace)) == Normal(t, isSpace)
    ensures Normal(t, isSpace) == [] <==> SplitWhitespace(t, isSpace) == []
    decreases |t|
  {
    if t == [] {
    } else {
      var words := SplitWhitespace(t[1..], isSpace);
      JoinedIsNormal(t[1..], isSpace);
      if !isSpace(t[0]) {
        if |t| == 1 || isSpace(t[1]) {
          SplitShort(t, isSpace);
          JoinFirst(t[0], words);
          ContinuedAfterWord(t[1..], isSpace);
        } else {
          SplitLong(t, isSpace);
          JoinLonger(t[0], words[0], words[1..]);
          assert [words[0]] + words[1..] == words;
        }
      }
    }
  }

  lemma ContinuedAfterWord(t: string, isSpace: Spaces)
    requires t == [] || isSpace(t[0])
    ensures Continued(t, isSpace) == if Normal(t, isSpace) == [] then [] else " " + Normal(t, isSpace)
  {
  }

  // -------------------------------------------------- phrases in a typed text

  function Trim(t: string, isSpace: Spaces): (r: string)
    ensures |r| <= |t| && (r == [] || !isSpace(r[0]))
    ensures r == t[|t| - |r|..] && forall k :: 0 <= k < |t| - |r| ==> isSpace(t[k])
  {
    if t == [] || !isSpace(t[0]) then t else Trim(t[1..], isSpace)
  }

  /**
   `p` is spelled out from the start of `t`: its letters as they are, and for each of its spaces any
   amount of whitespace with another word behind it.
   */
  predicate Fits(t: string, p: string, isSpace: Spaces)
    decreases |p|
  {
    if p == [] then true
    else if isSpace(p[0]) then
      t != [] && isSpace(t[0]) && Trim(t, isSpace) != [] && Fits(Trim(t, isSpace), p[1..], isSpace)
    else t != [] && t[0] == p[0] && Fits(t[1..], p[1..], isSpace)
  }

  ghost predicate Spelled(t: string, p: string, isSpace: Spaces) {
    exists i :: 0 <= i <= |t| && Fits(t[i..], p, isSpace)
  }

  /** Phrases that begin with a letter and are spaced by the plain space. */
  predicate Plain(p: string, isSpace: Spaces) {
    isSpace(' ') && p != [] && !isSpace(p[0]) && PlainSpaces(p, isSpace)
  }

  predicate PlainSpaces(p: string, isSpace: Spaces) {
    forall k | 0 <= k < |p| :: isSpace(p[k]) ==> p[k] == ' '
  }

  lemma {:induction false} NormalTrims(t: string, isSpace: Spaces)
    ensures Normal(t, isSpace) == Continued(Trim(t, isSpace), isSpace)
    ensures Normal(t, isSpace) == [] <==> Trim(t, isSpace) == []
    decreases |t|
  {
    if t == [] || !isSpace(t[0]) {
    } else {
      NormalTrims(t[1..], isSpace);
    }
  }

  lemma PrefixCons(p: string, c: char, s: string)
    requires p != []
    ensures p <= [c] + s <==> p[0] == c && p[1..] <= s
  {
    var whole := [c] + s;
    assert whole[1..] == s;
    if p <= whole {
      assert p == whole[..|p|] && p[1..] == s[..|p| - 1];
    }
    if p[0] == c && p[1..] <= s {
      assert p == [p[0]] + p[1..];
      assert p == whole[..|p|];
    }
  }

  lemma {:induction false} FitsIsPrefix(t: string, p: string, isSpace: Spaces)
    requires isSpace(' ') && PlainSpaces(p, isSpace)
    ensures Fits(t, p, isSpace) <==> p <= Continued(t, isSpace)
    decreases |p|
  {
    if p == [] || t == [] {
    } else if !isSpace(t[0]) {
      PrefixCons(p, t[0], Continued(t[1..], isSpace));
      FitsIsPrefix(t[1..], p[1..], isSpace);
    } else {
      var rest := Trim(t, isSpace);
      NormalTrims(t, isSpace);
      ContinuedAfterWord(t, isSpace);
      if rest != [] {
        PrefixCons(p, ' ', Normal(t, isSpace));
        FitsIsPrefix(rest, p[1..], isSpace);
      }
    }
  }

  lemma ContainsCons(c: char, s: string, p: string)
    requires p != []
    ensures Contains([c] + s, p) <==> p <= [c] + s || Contains(s, p)
  {
    var whole := [c] + s;
    if Contains(whole, p) {
      var i := Occurrence(whole, p);
      if i > 0 {
        OccursInside(whole, p, 1, |whole|, i);
        assert whole[1..|whole|] == s;
      } else {
        assert p == whole[..|p|];
      }
    }
    if Contains(s, p) {
      var i := Occurrence(s, p);
      assert whole[1..|whole|] == s;
      OccursInside(whole, p, 1, |whole|, i + 1);
      assert OccursAt(whole, p, i + 1);
    }
    if p <= whole {
      assert OccursAt(whole, p, 0);
    }
  }

  lemma SpelledCons(t: string, p: string, isSpace: Spaces)
    requires t != []
    ensures Spelled(t, p, isSpace) <==> Fits(t, p, isSpace) || Spelled(t[1..], p, isSpace)
  {
    assert t[0..] == t;
    assert forall i :: 0 <= i < |t| ==> t[1..][i..] == t[i + 1..];
    if Spelled(t, p, isSpace) {
      var i :| 0 <= i <= |t| && Fits(t[i..], p, isSpace);
      if i > 0 {
        assert t[1..][i - 1..] == t[i..];
      }
    }
    if Spelled(t[1..], p, isSpace) {
      var i :| 0 <= i <= |t[1..]| && Fits(t[1..][i..], p, isSpace);
      assert t[1..][i..] == t[i + 1..];
    }
  }

  lemma {:induction false} SpelledIffContinued(t: string, p: string, isSpace: Spaces)
    requires Plain(p, isSpace)
    ensures Spelled(t, p, isSpace) <==> Contains(Continued(t, isSpace), p)
    decreases |t|
  {
    if t == [] {
    } else {
      SpelledCons(t, p, isSpace);
      SpelledIffContinued(t[1..], p, isSpace);
      FitsIsPrefix(t, p, isSpace);
      if !isSpace(t[0]) {
        ContainsCons(t[0], Continued(t[1..], isSpace), p);
      } else {
        SpaceInFront(t, p, isSpace);
      }
    }
  }

  lemma SpaceInFront(t: string, p: string, isSpace: Spaces)
    requires Plain(p, isSpace) && t != [] && isSpace(t[0])
    ensures Contains(Continued(t, isSpace), p) <==> Contains(Continued(t[1..], isSpace), p)
    ensures Contains(Continued(t, isSpace), p) <==> Contains(Normal(t, isSpace), p)
  {
    var rest := Normal(t, isSpace);
    ContinuedAfterWord(t, isSpace);
    ContainsCons(' ', rest, p);
    if t[1..] != [] && isSpace(t[1]) {
      ContinuedAfterWord(t[1..], isSpace);
    }
  }

  /** A plain phrase is found in the normalized text exactly when it is spelled out in the typed one. */
  lemma NormalizedHasPhraseIff(u: Unicode, text: string, p: string)
    requires Plain(p, u.isSpace)
    ensures Contains(Normalize(u, text), p) <==> Spelled(u.lower(text), p, u.isSpace)
  {
    var t := u.lower(text);
    JoinedIsNormal(t, u.isSpace);
    SpelledIffContinued(t, p, u.isSpace);
    if t != [] && u.isSpace(t[0]) {
      SpaceInFront(t, p, u.isSpace);
    }
  }

  // ------------------------------------------------------- particular phrases

  lemma {:induction false} FitsWord(t: string, p: string, isSpace: Spaces)
    requires forall k :: 0 <= k < |p| ==> !isSpace(p[k])
    ensures Fits(t, p, isSpace) <==> p <= t
    decreases |p|
  {
    if p == [] || t == [] {
    } else {
      assert t == [t[0]] + t[1..];
      PrefixCons(p, t[0], t[1..]);
      FitsWord(t[1..], p[1..], isSpace);
    }
  }

  lemma PrefixIsOccurrence(t: string, p: string, i: nat)
    requires i <= |t|
    ensures p <= t[i..] <==> OccursAt(t, p, i)
  {
    if p <= t[i..] {
      assert p == t[i..][..|p|] == t[i..i + |p|];
    }
    if OccursAt(t, p, i) {
      assert t[i..][..|p|] == t[i..i + |p|];
    }
  }

  /** A phrase of one word is found exactly when the typed text contains it. */
  lemma WordIsSpelledIff(t: string, p: string, isSpace: Spaces)
    requires forall k :: 0 <= k < |p| ==> !isSpace(p[k])
    ensures Spelled(t, p, isSpace) <==> Contains(t, p)
  {
    forall i: nat | i <= |t| ensures Fits(t[i..], p, isSpace) <==> OccursAt(t, p, i) {
      FitsWord(t[i..], p, isSpace);
      PrefixIsOccurrence(t, p, i);
    }
    if Contains(t, p) {
      var i := Occurrence(t, p);
      assert Fits(t[i..], p, isSpace);
    }
  }

  /** Whitespace comes at `i`, and another word some time after it. */
  ghost predicate WordFollows(t: string, i: int, isSpace: Spaces) {
    0 <= i < |t| && isSpace(t[i]) && exists j :: i < j < |t| && !isSpace(t[j])
  }

  lemma TrimLeavesWord(t: string, isSpace: Spaces)
    ensures t != [] && isSpace(t[0]) && Trim(t, isSpace) != [] <==> WordFollows(t, 0, isSpace)
  {
    var n := |t| - |Trim(t, isSpace)|;
    if Trim(t, isSpace) != [] {
      assert t[n..][0] == t[n];
    }
  }

  lemma {:induction false} FitsSpaced(t: string, q: string, isSpace: Spaces)
    requires isSpace(' ') && forall k :: 0 <= k < |q| ==> !isSpace(q[k])
    ensures Fits(t, q + " ", isSpace) <==> q <= t && WordFollows(t[|q|..], 0, isSpace)
    decreases |q|
  {
    var p := q + " ";
    if q == [] {
      assert p[1..] == [] && t[0..] == t;
      TrimLeavesWord(t, isSpace);
    } else if t == [] {
    } else {
      assert p[0] == q[0] && p[1..] == q[1..] + " ";
      assert t == [t[0]] + t[1..];
      PrefixCons(q, t[0], t[1..]);
      FitsSpaced(t[1..], q[1..], isSpace);
      if q <= t {
        assert t[1..][|q| - 1..] == t[|q|..];
      }
    }
  }

  lemma WordFollowsInside(t: string, i: nat, isSpace: Spaces)
    requires i <= |t|
    ensures WordFollows(t[i..], 0, isSpace) <==> WordFollows(t, i, isSpace)
  {
    if WordFollows(t, i, isSpace) {
      var j :| i < j < |t| && !isSpace(t[j]);
      assert t[i..][j - i] == t[j];
    }
  }

  /** A word listed with a space behind it is found exactly when another word follows an occurrence of it. */
  lemma SpacedIsSpelledIff(t: string, q: string, isSpace: Spaces)
    requires isSpace(' ') && forall k :: 0 <= k < |q| ==> !isSpace(q[k])
    ensures Spelled(t, q + " ", isSpace) <==> exists i: nat :: OccursAt(t, q, i) && WordFollows(t, i + |q|, isSpace)
  {
    forall i: nat | i <= |t|
      ensures Fits(t[i..], q + " ", isSpace) <==> OccursAt(t, q, i) && WordFollows(t, i + |q|, isSpace)
    {
      FitsSpaced(t[i..], q, isSpace);
      PrefixIsOccurrence(t, q, i);
      if q <= t[i..] {
        assert t[i..][|q|..] == t[i + |q|..];
        WordFollowsInside(t, i + |q|, isSpace);
      }
    }
    if i: nat :| OccursAt(t, q, i) && WordFollows(t, i + |q|, isSpace) {
      assert Fits(t[i..], q + " ", isSpace);
    }
  }

  /** Normalizing neither hides nor makes a phrase of one word. */
  lemma WordSurvivesNormalizing(u: Unicode, text: string, p: string)
    requires u.isSpace(' ') && p != [] && forall k :: 0 <= k < |p| ==> !u.isSpace(p[k])
    ensures Contains(Normalize(u, text), p) <==> Contains(u.lower(text), p)
  {
    NormalizedHasPhraseIff(u, text, p);
    WordIsSpelledIff(u.lower(text), p, u.isSpace);
  }

  /** A phrase that ends in a space is left exactly where another word follows. */
  lemma SpacedSurvivesIff(u: Unicode, text: string, q: string)
    requires u.isSpace(' ') && q != [] && forall k :: 0 <= k < |q| ==> !u.isSpace(q[k])
    ensures Contains(Normalize(u, text), q + " ") <==>
            exists i: nat :: OccursAt(u.lower(text), q, i) && WordFollows(u.lower(text), i + |q|, u.isSpace)
  {
    NormalizedHasPhraseIff(u, text, q + " ");
    SpacedIsSpelledIff(u.lower(text), q, u.isSpace);
  }

  // ------------------------------------------------------- the program's lists

  /** The space is whitespace; small letters and the hyphen are not. */
  ghost predicate UsualSpaces(isSpace: Spaces) {
    isSpace(' ') && !isSpace('-') && forall c :: 'a' <= c <= 'z' ==> !isSpace(c)
  }

  predicate Listed(lex: Lexicon, p: string) {
    p in lex.destructive || p in lex.externalSend
  }

  predicate SmallLetters(p: string) {
    p != [] && 'a' <= p[0] <= 'z' && forall k | 0 <= k < |p| :: 'a' <= p[k] <= 'z' || p[k] == '-' || p[k] == ' '
  }

  lemma DestructiveIsSmall(p: string)
    requires p in LEXICON.destructive
    ensures SmallLetters(p)
  {
  }

  lemma ExternalIsSmall(p: string)
    requires p in LEXICON.externalSend
    ensures SmallLetters(p)
  {
  }

  lemma SmallIsPlain(p: string, isSpace: Spaces)
    requires UsualSpaces(isSpace) && SmallLetters(p)
    ensures Plain(p, isSpace)
  {
  }

  lemma ApprovalIsRisky(s: Signals)
    ensures DEFAULT_POLICY.Apply(Route(s)).approval <==> s.destructive + s.externalSend > 0
    ensures DEFAULT_POLICY.Apply(Route(s)).approval ==> DEFAULT_POLICY.Apply(Route(s)).requiresReasoning
  {
  }

  lemma ApprovalIffHit(u: Unicode, lex: Lexicon, text: string)
    ensures Decide(u, lex, text).approval <==> exists p :: Listed(lex, p) && Contains(Normalize(u, text), p)
    ensures Decide(u, lex, text).approval ==> Decide(u, lex, text).requiresReasoning
  {
    SignalsMean(lex, Normalize(u, text));
    ApprovalIsRisky(SignalsOf(lex, Normalize(u, text)));
  }

  lemma ApprovalIffPlain(u: Unicode, lex: Lexicon, text: string)
    requires forall p :: Listed(lex, p) ==> Plain(p, u.isSpace)
    ensures Decide(u, lex, text).approval <==> exists p :: Listed(lex, p) && Spelled(u.lower(text), p, u.isSpace)
    ensures Decide(u, lex, text).approval ==> Decide(u, lex, text).requiresReasoning
  {
    ApprovalIffHit(u, lex, text);
    forall p | Listed(lex, p) ensures Contains(Normalize(u, text), p) <==> Spelled(u.lower(text), p, u.isSpace) {
      NormalizedHasPhraseIff(u, text, p);
    }
  }

  /**
   Approval, and with it reasoning, is asked for exactly when the typed text spells out one of the
   phrases listed as destructive or external.
   */
  lemma ApprovalIffSpelled(u: Unicode, text: string)
    requires UsualSpaces(u.isSpace)
    ensures Decide(u, LEXICON, text).approval <==>
            exists p :: Listed(LEXICON, p) && Spelled(u.lower(text), p, u.isSpace)
    ensures Decide(u, LEXICON, text).approval ==> Decide(u, LEXICON, text).requiresReasoning
  {
    forall p | Listed(LEXICON, p) ensures Plain(p, u.isSpace) {
      if p in LEXICON.destructive {
        DestructiveIsSmall(p);
      } else {
        ExternalIsSmall(p);
      }
      SmallIsPlain(p, u.isSpace);
    }
    ApprovalIffPlain(u, LEXICON, text);
  }

  // -------------------------------------------------------- a phrase that is lost

  lemma LacksLetter(s: string, p: string, k: nat)
    requires k < |p| && p[k] !in s
    ensures !Contains(s, p)
  {
    forall i | 0 <= i <= |s| - |p| ensures !OccursAt(s, p, i) {
      var piece := s[i..i + |p|];
      assert piece[k] == s[i + k];
    }
  }

  const ENDS_IN_PAY := "cpu pay "
  const PAY_KEY := "cpu pay"

  lemma PayLosesItsSpace(isSpace: Spaces)
    requires UsualSpaces(isSpace)
    ensures Normal(ENDS_IN_PAY, isSpace) == PAY_KEY
  {
    SpaceAtEnd("y", isSpace);
    assert "cpu pay "[1..] == "pu pay " && "pu pay "[1..] == "u pay " && "u pay "[1..] == " pay ";
    assert " pay "[1..] == "pay " && "pay "[1..] == "ay " && "ay "[1..] == "y ";
    assert Normal("pay ", isSpace) == "pay";
    assert Continued("u pay ", isSpace) == "u pay";
  }

  lemma SpaceAtEnd(w: string, isSpace: Spaces)
    requires UsualSpaces(isSpace) && |w| == 1 && !isSpace(w[0])
    ensures Continued(w + " ", isSpace) == w
  {
    var t := w + " ";
    assert t[1..] == " " && " "[1..] == "";
    assert Normal("", isSpace) == "" && Continued(" ", isSpace) == "";
  }

  lemma PayIsNoLongerThere()
    ensures !Contains(PAY_KEY, "pay ")
  {
    forall i | 0 <= i <= |PAY_KEY| - 4 ensures !OccursAt(PAY_KEY, "pay ", i) {
      var piece := PAY_KEY[i..i + 4];
      assert piece[0] == PAY_KEY[i] && piece[1] == PAY_KEY[i + 1] && piece[3] == PAY_KEY[i + 3];
    }
  }

  lemma NothingDestructiveLeft(p: string)
    requires p in LEXICON.destructive
    ensures !Contains(PAY_KEY, p)
  {
    if p == "pay " {
      PayIsNoLongerThere();
    } else {
      LacksLetter(PAY_KEY, p, 0);
    }
  }

  lemma NothingExternalLeft(p: string)
    requires p in LEXICON.externalSend
    ensures !Contains(PAY_KEY, p)
  {
    LacksLetter(PAY_KEY, p, if p == "post publicly" then 1 else if p == "publish" then 2 else 0);
  }

  lemma NoVerbLeft(p: string)
    requires p in LEXICON.verbs
    ensures !Contains(PAY_KEY, p)
  {
    LacksLetter(PAY_KEY, p, if p == "push" then 2 else if p == "copy to" then 1 else 0);
  }

  /** A key that hits only the status phrases. */
  lemma StatusIsAnsweredAtOnce(u: Unicode, lex: Lexicon, text: string)
    requires var key := Normalize(u, text);
             && (forall p :: Listed(lex, p) ==> !Contains(key, p)) && (forall p :: p in lex.verbs ==> !Contains(key, p))
             && exists p :: p in lex.status && Contains(key, p)
    ensures var d := Decide(u, lex, text);
            !d.approval && !d.requiresReasoning && d.intent.DeviceStatus?
  {
    FastPathIff(u, lex, text);
  }

  lemma CpuIsStatus()
    ensures "cpu" in LEXICON.status && Contains(PAY_KEY, "cpu")
  {
    assert LEXICON.status[1] == "cpu" && OccursAt(PAY_KEY, "cpu", 0);
  }

  lemma PayIsListed()
    ensures "pay " in LEXICON.destructive && Contains(ENDS_IN_PAY, "pay ")
  {
    assert LEXICON.destructive[5] == "pay " && OccursAt(ENDS_IN_PAY, "pay ", 4);
  }

  /**
   The phrase "pay " ends the text, so its space is gone before it is looked for: what is listed as
   destructive is contained in the typed text, and is answered at once and without approval.
   */
  lemma TrailingPhraseIsLost(u: Unicode)
    requires UsualSpaces(u.isSpace) && u.lower(ENDS_IN_PAY) == ENDS_IN_PAY
    ensures "pay " in LEXICON.destructive && Contains(ENDS_IN_PAY, "pay ")
    ensures var d := Decide(u, LEXICON, ENDS_IN_PAY);
            !d.approval && !d.requiresReasoning && d.intent.DeviceStatus?
  {
    PayIsListed();
    PayLosesItsSpace(u.isSpace);
    JoinedIsNormal(ENDS_IN_PAY, u.isSpace);
    forall p | Listed(LEXICON, p) ensures !Contains(PAY_KEY, p) {
      if p in LEXICON.destructive {
        NothingDestructiveLeft(p);
      } else {
        NothingExternalLeft(p);
      }
    }
    forall p | p in LEXICON.verbs ensures !Contains(PAY_KEY, p) {
      NoVerbLeft(p);
    }
    CpuIsStatus();
    StatusIsAnsweredAtOnce(u, LEXICON, ENDS_IN_PAY);
  }
}
