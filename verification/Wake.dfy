/** Wake-word matching on transcripts (crates/igris-voice/src/wake.rs). */
module Wake {
  import opened EditDistance
  import opened Text

  datatype WakeMatcher = WakeMatcher(phrase: string, maxDistance: nat)

  const ARISE := WakeMatcher("arise", 2)

  /** `w` is at most `n` single-character edits away from `p`. */
  ghost predicate WithinEdits(w: string, p: string, n: nat) {
    exists script :: Turns(script, w, p) && |script| <= n
  }

  ghost predicate Hears(m: WakeMatcher, u: Unicode, transcript: string) {
    var t := u.lower(transcript);
    Contains(t, m.phrase) || exists w :: IsWord(t, u.isSpace, w) && WithinEdits(w, m.phrase, m.maxDistance)
  }

  lemma WithinEditsIsDist(w: string, p: string, n: nat)
    ensures WithinEdits(w, p, n) <==> Dist(w, p) <= n
  {
    DistIsMinimum(w, p);
  }

  ghost predicate SomeNear(words: seq<string>, p: string, n: nat) {
    exists k :: 0 <= k < |words| && Dist(words[k], p) <= n
  }

  lemma HearsIsSomeWordNear(m: WakeMatcher, u: Unicode, transcript: string)
    ensures var t := u.lower(transcript);
            Hears(m, u, transcript) <==>
            Contains(t, m.phrase) || SomeNear(SplitWhitespace(t, u.isSpace), m.phrase, m.maxDistance)
  {
    var words := SplitWhitespace(u.lower(transcript), u.isSpace);
    forall w ensures w in words <==> IsWord(u.lower(transcript), u.isSpace, w) {
      SplitWhitespaceYieldsWords(u.lower(transcript), u.isSpace, w);
    }
    forall w ensures WithinEdits(w, m.phrase, m.maxDistance) <==> Dist(w, m.phrase) <= m.maxDistance {
      WithinEditsIsDist(w, m.phrase, m.maxDistance);
    }
  }

  method AnyNear(words: seq<string>, p: string, n: nat) returns (r: bool)
    ensures r <==> SomeNear(words, p, n)
  {
    var i := 0;
    while i < |words|
      invariant 0 <= i <= |words|
      invariant forall k :: 0 <= k < i ==> Dist(words[k], p) > n
    {
      var d := Levenshtein(words[i], p);
      if d <= n {
        return true;
      }
      i := i + 1;
    }
    return false;
  }

  /** True exactly when the phrase occurs or some word is within `maxDistance` edits of it. */
  method Matches(m: WakeMatcher, u: Unicode, transcript: string) returns (r: bool)
    ensures r <==> Hears(m, u, transcript)
  {
    HearsIsSomeWordNear(m, u, transcript);
    var t := u.lower(transcript);
    r := Contains(t, m.phrase);
    if !r {
      r := AnyNear(SplitWhitespace(t, u.isSpace), m.phrase, m.maxDistance);
    }
  }

  /** Some stretch of `t` without whitespace around it is edited into the phrase by `script`. */
  ghost predicate EditedFrom(t: string, isSpace: char -> bool, phrase: string, i: int, j: int, script: seq<Edit>) {
    IsRun(t, isSpace, i, j) && Turns(script, t[i..j], phrase)
  }

  /** Heard: the phrase stands somewhere, or a few edits turn a stretch without whitespace into it. */
  lemma HeardIff(m: WakeMatcher, u: Unicode, transcript: string)
    ensures var t := u.lower(transcript);
            Hears(m, u, transcript) <==>
            || (exists i :: OccursAt(t, m.phrase, i))
            || (exists i, j, script :: EditedFrom(t, u.isSpace, m.phrase, i, j, script) && |script| <= m.maxDistance)
  {
    var t := u.lower(transcript);
    if Contains(t, m.phrase) {
      var i := Occurrence(t, m.phrase);
    } else if Hears(m, u, transcript) {
      var w :| IsWord(t, u.isSpace, w) && WithinEdits(w, m.phrase, m.maxDistance);
      var i, j :| IsRun(t, u.isSpace, i, j) && w == t[i..j];
      var script :| Turns(script, w, m.phrase) && |script| <= m.maxDistance;
      assert EditedFrom(t, u.isSpace, m.phrase, i, j, script);
    }
    forall i, j, script | EditedFrom(t, u.isSpace, m.phrase, i, j, script) && |script| <= m.maxDistance
      ensures Hears(m, u, transcript)
    {
      assert IsWord(t, u.isSpace, t[i..j]) && WithinEdits(t[i..j], m.phrase, m.maxDistance);
    }
  }

  /** The default phrase is heard in the word "arice". */
  lemma AriceIsHeard(u: Unicode, transcript: string, i: int, j: int)
    requires var t := u.lower(transcript); IsRun(t, u.isSpace, i, j) && t[i..j] == "arice"
    ensures Hears(ARISE, u, transcript)
  {
    var script := [Substitute(3, 's')];
    assert ApplyEdit(script[0], "arice") == "arise" && script[1..] == [];
    assert Turns(script, "arice", "arise");
    assert EditedFrom(u.lower(transcript), u.isSpace, "arise", i, j, script);
    HeardIff(ARISE, u, transcript);
  }

  lemma FarLengthIsFar(w: string, p: string, n: nat)
    requires |w| > |p| + n || |p| > |w| + n
    ensures !WithinEdits(w, p, n)
  {
    WithinEditsIsDist(w, p, n);
    LengthBoundsUpTo(w, p, |w|, |p|);
  }

  /**
   A transcript that does not contain the phrase and whose words are all longer or shorter than it
   by more than the tolerance is not heard.
   */
  lemma FarLengthsAreNotHeard(m: WakeMatcher, u: Unicode, transcript: string)
    requires !Contains(u.lower(transcript), m.phrase)
    requires forall w :: IsWord(u.lower(transcript), u.isSpace, w) ==>
               |w| > |m.phrase| + m.maxDistance || |m.phrase| > |w| + m.maxDistance
    ensures !Hears(m, u, transcript)
  {
    forall w | IsWord(u.lower(transcript), u.isSpace, w) ensures !WithinEdits(w, m.phrase, m.maxDistance) {
      FarLengthIsFar(w, m.phrase, m.maxDistance);
    }
  }
}
