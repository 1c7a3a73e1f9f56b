/** The secrets vault and its scrubber (crates/igris-sandbox/src/lib.rs). */
module Redaction {
  import opened Collections
  import opened Text

  const MARKER := "[redacted]"

  // ------------------------------------------------------------ what it does

  function Scrub(text: string, v: string): string {
    if ByteLen(v) >= 4 then Replace(text, v, MARKER) else text
  }

  /** Scrubbing by every value in turn. */
  function ScrubAll(text: string, values: seq<string>): string
    decreases |values|
  {
    if values == [] then text else ScrubAll(Scrub(text, values[0]), values[1..])
  }

  /** `values` is what iterating over the vault and sorting by length may give. */
  ghost predicate Listing(values: seq<string>, secrets: map<string, string>) {
    && Descending(values, ByteLenKey)
    && (forall v :: v in values ==> v in secrets.Values)
    && (forall k :: k in secrets ==> secrets[k] in values)
  }

  function ByteLenKey(v: string): real {
    ByteLen(v) as real
  }

  // --------------------------------------------------- which values are safe

  /** Laid with its start at `k` from the marker's start, `v` agrees with the marker wherever both reach. */
  predicate OverlapsAt(v: string, k: int) {
    && -|MARKER| < k < |v|
    && forall j | 0 <= j < |v| && k <= j < k + |MARKER| :: v[j] == MARKER[j - k]
  }

  /** No part of the marker can be part of an occurrence of `v`. */
  predicate Clear(v: string) {
    v != [] && forall k | -|MARKER| < k < |v| :: !OverlapsAt(v, k)
  }

  lemma PieceOccurs(s: string, v: string, from: nat, to: nat)
    requires from <= to <= |s| && Contains(s[from..to], v)
    ensures exists i: nat :: from <= i <= to - |v| && OccursAt(s, v, i)
    ensures Contains(s, v)
  {
    var i := Occurrence(s[from..to], v);
    OccursInside(s, v, from, to, from + i);
    assert OccursAt(s, v, from + i);
  }

  /** An occurrence of a clear value next to a marker lies on one side of it. */
  lemma OnOneSide(left: string, right: string, v: string)
    requires Clear(v) && Contains(left + MARKER + right, v)
    ensures Contains(left, v) || Contains(right, v)
  {
    var s := left + MARKER + right;
    var i := Occurrence(s, v);
    var k := |left| - i;
    var end := |left| + |MARKER|;
    assert s[0..|left|] == left && s[end..|s|] == right;
    if i + |v| <= |left| {
      OccursInside(s, v, 0, |left|, i);
    } else if i >= end {
      OccursInside(s, v, end, |s|, i);
      assert OccursAt(right, v, i - end);
    } else {
      forall j | 0 <= j < |v| && k <= j < k + |MARKER| ensures v[j] == MARKER[j - k] {
        assert v[j] == s[i..i + |v|][j] == s[i + j];
      }
      assert OverlapsAt(v, k);
    }
  }

  lemma AroundFirst(s: string, w: string, v: string, i: nat)
    requires w != [] && Find(s, w, 0) == i && (v == w || !Contains(s, v))
    ensures !Contains(s[..i], v)
    ensures v == w || !Contains(s[i + |w|..], v)
  {
    assert s[..i] == s[0..i] && s[i + |w|..] == s[i + |w|..|s|];
    if Contains(s[0..i], v) {
      PieceOccurs(s, v, 0, i);
    }
    if Contains(s[i + |w|..|s|], v) {
      PieceOccurs(s, v, i + |w|, |s|);
    }
  }

  /** Replacing `w` removes a clear value if it is `w`, and never creates it otherwise. */
  lemma {:induction false} ReplaceLeavesNone(s: string, w: string, v: string)
    requires Clear(v) && w != [] && (v == w || !Contains(s, v))
    ensures !Contains(Replace(s, w, MARKER), v)
    decreases |s|
  {
    var i := Find(s, w, 0);
    if i == -1 {
    } else {
      var rest := s[i + |w|..];
      AroundFirst(s, w, v, i);
      ReplaceLeavesNone(rest, w, v);
      if Contains(s[..i] + MARKER + Replace(rest, w, MARKER), v) {
        OnOneSide(s[..i], Replace(rest, w, MARKER), v);
      }
    }
  }

  /** Every clear value of the vault is gone, in whatever order the values were scrubbed. */
  lemma {:induction false} ScrubAllRemoves(text: string, values: seq<string>, v: string)
    requires Clear(v) && ByteLen(v) >= 4
    requires v in values || !Contains(text, v)
    ensures !Contains(ScrubAll(text, values), v)
    decreases |values|
  {
    if values == [] {
    } else {
      if ByteLen(values[0]) >= 4 && (v == values[0] || !Contains(text, v)) {
        ReplaceLeavesNone(text, values[0], v);
      }
      ScrubAllRemoves(Scrub(text, values[0]), values[1..], v);
    }
  }

  /** A text without any listed value comes out as it went in. */
  lemma {:induction false} ScrubAllUnchanged(text: string, values: seq<string>)
    requires forall v :: v in values && ByteLen(v) >= 4 ==> !Contains(text, v)
    ensures ScrubAll(text, values) == text
    decreases |values|
  {
    if values == [] {
    } else {
      if ByteLen(values[0]) >= 4 {
        ReplaceAbsent(text, values[0], MARKER);
      }
      ScrubAllUnchanged(text, values[1..]);
    }
  }

  /** Scrubbing twice, even in another order, is scrubbing once. */
  lemma ScrubAllIdempotent(text: string, values: seq<string>, again: seq<string>)
    requires forall v :: v in values && ByteLen(v) >= 4 ==> Clear(v)
    requires forall v :: v in again ==> v in values
    ensures ScrubAll(ScrubAll(text, values), again) == ScrubAll(text, values)
  {
    forall v | v in again && ByteLen(v) >= 4 ensures !Contains(ScrubAll(text, values), v) {
      ScrubAllRemoves(text, values, v);
    }
    ScrubAllUnchanged(ScrubAll(text, values), again);
  }

  /** A value is longer in bytes than any other value it contains. */
  lemma ContainedIsShorter(v: string, w: string)
    requires Contains(v, w) && v != w
    ensures ByteLen(w) < ByteLen(v)
  {
    var i := Occurrence(v, w);
    var pre, post := v[..i], v[i + |w|..];
    assert v[i..i + |w|] == w && v == pre + w + post;
    ByteLenSplit(pre + w, post);
    ByteLenSplit(pre, w);
    ByteLenBound(pre);
    ByteLenBound(post);
    assert |pre| + |post| > 0;
  }

  lemma ReplaceWhole(v: string, r: string)
    requires v != []
    ensures Replace(v, v, r) == r
  {
    assert OccursAt(v, v, 0) && v[|v|..] == [];
    assert forall k :: 0 <= k ==> !OccursAt([], v, k);
    ReplaceAbsent([], v, r);
  }

  /**
   Longest first: whatever shorter values it contains, a secret standing alone is replaced as a whole
   and once, if no value can be found in the marker.
   */
  lemma {:induction false} SecretGoesWhole(v: string, values: seq<string>)
    requires v in values && ByteLen(v) >= 4 && Descending(values, ByteLenKey)
    requires forall w :: w in values && ByteLen(w) >= 4 ==> !Contains(MARKER, w)
    ensures ScrubAll(v, values) == MARKER
    decreases |values|
  {
    var w := values[0];
    if w == v {
      ReplaceWhole(v, MARKER);
      ScrubAllUnchanged(MARKER, values[1..]);
    } else {
      var k :| 0 < k < |values| && values[k] == v;
      assert ByteLenKey(w) >= ByteLenKey(v);
      if Contains(v, w) {
        ContainedIsShorter(v, w);
        assert false;
      }
      if ByteLen(w) >= 4 {
        ReplaceAbsent(v, w, MARKER);
      }
      assert values[1..][k - 1] == v;
      SecretGoesWhole(v, values[1..]);
    }
  }

  lemma InWordOverlaps(v: string)
    requires v != [] && Contains("redacted", v)
    ensures !Clear(v)
  {
    var word := "redacted";
    var i := Occurrence(word, v);
    var k := -(i + 1);
    forall j | 0 <= j < |v| && k <= j < k + |MARKER| ensures v[j] == MARKER[j - k] {
      assert v[j] == word[i..i + |v|][j] == word[i + j] == MARKER[i + j + 1];
    }
    assert OverlapsAt(v, k);
  }

  lemma BracketsAtEnds(v: string, k: int)
    requires OverlapsAt(v, k)
    ensures k >= 0 ==> '[' in v
    ensures k + |MARKER| <= |v| ==> ']' in v
  {
    if k >= 0 {
      assert v[k] == MARKER[0];
    }
    if k + |MARKER| <= |v| {
      assert v[k + |MARKER| - 1] == MARKER[|MARKER| - 1];
    }
  }

  lemma OverlapsInWord(v: string, k: int)
    requires v != [] && OverlapsAt(v, k) && '[' !in v && ']' !in v
    ensures Contains("redacted", v)
  {
    var word := "redacted";
    BracketsAtEnds(v, k);
    var i := -k - 1;
    assert v[0] == MARKER[-k];
    assert forall j :: 0 <= j < |v| ==> v[j] == MARKER[j - k] == word[i + j];
    assert word[i..i + |v|] == v;
    assert OccursAt(word, v, i);
  }

  /** For values without square brackets, being clear is not being part of the word in the marker. */
  lemma ClearWithoutBrackets(v: string)
    requires v != [] && '[' !in v && ']' !in v
    ensures Clear(v) <==> !Contains("redacted", v)
  {
    if Contains("redacted", v) {
      InWordOverlaps(v);
    }
    if !Clear(v) {
      var k :| -|MARKER| < k < |v| && OverlapsAt(v, k);
      OverlapsInWord(v, k);
    }
  }

  // --------------------------------------- a value that is not clear can leak

  ghost predicate LastIs(s: string, c: char) {
    s != [] && s[|s| - 1] == c
  }

  function Run(c: char, n: nat): string {
    seq(n, _ => c)
  }

  lemma FindRun(pre: string, post: string, c: char, n: nat)
    requires n >= |pre| && !LastIs(pre, c)
    ensures Find(pre + Run(c, n) + post, Run(c, n), 0) == |pre|
  {
    var w := Run(c, n);
    var text := pre + w + post;
    assert text[|pre|..|pre| + n] == w;
    assert OccursAt(text, w, |pre|);
    forall i | 0 <= i < |pre| ensures !OccursAt(text, w, i) {
      var last := |pre| - 1;
      assert i + n <= |text| ==> text[i..i + n][last - i] == text[last] == pre[last];
    }
  }

  lemma ReplaceRun(pre: string, post: string, c: char, n: nat)
    requires n > |post| && n >= |pre| && !LastIs(pre, c)
    ensures Replace(pre + Run(c, n) + post, Run(c, n), MARKER) == pre + MARKER + post
  {
    var w := Run(c, n);
    var text := pre + w + post;
    FindRun(pre, post, c, n);
    assert text[..|pre|] == pre && text[|pre| + n..] == post;
    ReplaceAbsent(post, w, MARKER);
  }

  /** Where the marker would start and end in `v`, cut to `v`. */
  function OverlapStart(v: string, k: int): nat {
    if k > 0 then k else 0
  }

  function OverlapEnd(v: string, k: int): int {
    if k + |MARKER| < |v| then k + |MARKER| else |v|
  }

  lemma RunHidesValue(v: string, k: int, c: char, n: nat)
    requires v != [] && OverlapsAt(v, k) && n >= |v| && c !in MARKER
    ensures !Contains(v[..OverlapStart(v, k)] + Run(c, n) + v[OverlapEnd(v, k)..], v)
  {
    var from, to := OverlapStart(v, k), OverlapEnd(v, k);
    var text := v[..from] + Run(c, n) + v[to..];
    assert v[from] == MARKER[from - k];
    forall i | 0 <= i <= |text| - |v| ensures !OccursAt(text, v, i) {
      assert text[i..i + |v|][from] == text[i + from] == c;
    }
  }

  lemma MarkerCompletesValue(v: string, k: int)
    requires OverlapsAt(v, k)
    ensures Contains(v[..OverlapStart(v, k)] + MARKER + v[OverlapEnd(v, k)..], v)
  {
    var from, to := OverlapStart(v, k), OverlapEnd(v, k);
    var out := v[..from] + MARKER + v[to..];
    var p := from - k;
    assert p + |v| <= |out|;
    forall j | 0 <= j < |v| ensures out[p + j] == v[j] {
      if from <= j < to {
        assert v[j] == MARKER[j - k];
      }
    }
    assert out[p..p + |v|] == v;
    assert OccursAt(out, v, p);
  }

  lemma ScrubTwo(text: string, v: string, w: string)
    ensures ScrubAll(text, [v, w]) == Scrub(Scrub(text, v), w)
  {
    var t := Scrub(text, v);
    assert [v, w][1..] == [w] && [w][1..] == [];
    assert ScrubAll(t, [w]) == ScrubAll(Scrub(t, w), []);
  }

  /**
   The other direction: take a value that can overlap the marker.  A second secret, a run of one
   letter standing where the marker would stand in `v`, is scrubbed after `v` and puts `v` together.
   */
  lemma OverlapLeaks(v: string, k: int) returns (w: string, text: string)
    requires OverlapsAt(v, k) && ByteLen(v) >= 4
    ensures 4 <= ByteLen(w) <= ByteLen(v)
    ensures Contains(ScrubAll(text, [v, w]), v)
  {
    var pre, post := v[..OverlapStart(v, k)], v[OverlapEnd(v, k)..];
    var n := if |v| >= 4 then |v| else 4;
    var c := if LastIs(pre, 'x') then 'y' else 'x';
    w := Run(c, n);
    text := pre + w + post;
    ByteLenBound(v);
    AsciiByteLen(w);
    RunHidesValue(v, k, c, n);
    ReplaceAbsent(text, v, MARKER);
    ReplaceRun(pre, post, c, n);
    ScrubTwo(text, v, w);
    MarkerCompletesValue(v, k);
  }

  /** `v` is gone from every text, whatever else the vault holds and however it is iterated. */
  ghost predicate AlwaysRemoved(v: string) {
    forall secrets: map<string, string>, values, text | v in secrets.Values && Listing(values, secrets) ::
      !Contains(ScrubAll(text, values), v)
  }

  /** A value of fewer than four bytes stays: the text that is the value itself is left alone. */
  lemma ShortIsKept(v: string)
    requires ByteLen(v) < 4
    ensures !AlwaysRemoved(v)
  {
    var secrets, values := map["a" := v], [v];
    assert secrets["a"] == v && v in secrets.Values && values[0] == v;
    assert Listing(values, secrets);
    assert values[1..] == [] && ScrubAll(v, values) == v;
    assert OccursAt(v, v, 0);
  }

  lemma UnclearLeaks(v: string)
    requires ByteLen(v) >= 4 && !Clear(v)
    ensures !AlwaysRemoved(v)
  {
    var k :| -|MARKER| < k < |v| && OverlapsAt(v, k);
    var w, text := OverlapLeaks(v, k);
    var secrets, values := map["a" := v, "b" := w], [v, w];
    assert secrets["a"] == v && secrets["b"] == w;
    assert v in secrets.Values && w in secrets.Values;
    assert values[0] == v && values[1] == w;
    assert Listing(values, secrets);
    assert Contains(ScrubAll(text, values), v);
  }

  /** The exact condition under which `redact` keeps its promise for a value. */
  lemma AlwaysRemovedIffClear(v: string)
    ensures AlwaysRemoved(v) <==> ByteLen(v) >= 4 && Clear(v)
  {
    if ByteLen(v) < 4 {
      ShortIsKept(v);
    } else if Clear(v) {
      forall secrets: map<string, string>, values, text | v in secrets.Values && Listing(values, secrets)
        ensures !Contains(ScrubAll(text, values), v)
      {
        ScrubAllRemoves(text, values, v);
      }
    } else {
      UnclearLeaks(v);
    }
  }

  // --------------------------------------------------------------- the vault

  datatype SandboxError = UnknownSecret | DuplicateSecret(key: string)

  /** No value that is scrubbed can be found in the marker. */
  ghost predicate MarkerIsFree(secrets: map<string, string>) {
    forall w :: w in secrets.Values && ByteLen(w) >= 4 ==> !Contains(MARKER, w)
  }

  class SecretsVault {
    var secrets: map<string, string>

    constructor ()
      ensures secrets == map[]
    {
      secrets := map[];
    }

    method Set(key: string, value: string, isSpace: char -> bool) returns (r: Result<(), SandboxError>)
      modifies this
      ensures r.Ok? <==> value != "" && key !in old(secrets) && exists i :: 0 <= i < |key| && !isSpace(key[i])
      ensures secrets == if r.Ok? then old(secrets)[key := value] else old(secrets)
      ensures r == Err(DuplicateSecret(key)) ==> key in old(secrets)
    {
      if (forall i | 0 <= i < |key| :: isSpace(key[i])) || value == "" {
        return Err(UnknownSecret);
      }
      if key in secrets {
        return Err(DuplicateSecret(key));
      }
      secrets := secrets[key := value];
      return Ok(());
    }

    method SortedValues() returns (values: seq<string>)
      ensures Listing(values, secrets)
    {
      var keys := Keys(secrets);
      var unsorted := [];
      var i := 0;
      while i < |keys|
        invariant 0 <= i <= |keys| && |unsorted| == i
        invariant forall j :: 0 <= j < i ==> unsorted[j] == secrets[keys[j]]
      {
        unsorted := unsorted + [secrets[keys[i]]];
        i := i + 1;
      }
      SortSorts(unsorted, ByteLenKey);
      SortKeepsElements(unsorted, ByteLenKey);
      values := Sort(unsorted, ByteLenKey);
    }

    /** Scrubs by the vault's values, longest first. */
    method Redact(text: string) returns (out: string)
      ensures exists values :: Listing(values, secrets) && out == ScrubAll(text, values)
      ensures forall v :: v in secrets.Values && ByteLen(v) >= 4 && Clear(v) ==> !Contains(out, v)
      ensures (forall v :: v in secrets.Values && ByteLen(v) >= 4 ==> !Contains(text, v)) ==> out == text
      ensures text in secrets.Values && ByteLen(text) >= 4 && MarkerIsFree(secrets) ==> out == "[redacted]"
    {
      var values := SortedValues();
      out := text;
      var i := 0;
      while i < |values|
        invariant 0 <= i <= |values|
        invariant ScrubAll(out, values[i..]) == ScrubAll(text, values)
      {
        if ByteLen(values[i]) >= 4 {
          out := Replace(out, values[i], MARKER);
        }
        i := i + 1;
      }
      ListingScrubs(text, values, secrets);
      if text in secrets.Values && ByteLen(text) >= 4 && MarkerIsFree(secrets) {
        SecretGoesWhole(text, values);
      }
    }
  }

  lemma ListingScrubs(text: string, values: seq<string>, secrets: map<string, string>)
    requires Listing(values, secrets)
    ensures forall v :: v in secrets.Values && ByteLen(v) >= 4 && Clear(v) ==> !Contains(ScrubAll(text, values), v)
    ensures (forall v :: v in secrets.Values && ByteLen(v) >= 4 ==> !Contains(text, v)) ==>
              ScrubAll(text, values) == text
  {
    forall v | v in secrets.Values && ByteLen(v) >= 4 && Clear(v) ensures !Contains(ScrubAll(text, values), v) {
      ScrubAllRemoves(text, values, v);
    }
    if forall v :: v in secrets.Values && ByteLen(v) >= 4 ==> !Contains(text, v) {
      ScrubAllUnchanged(text, values);
    }
  }
}
