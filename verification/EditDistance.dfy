/** The edit distance behind the wake-word matcher. */
module EditDistance {

  // `Turns` is the reference notion: a script of single-character insertions, deletions and
  // substitutions, each at any position, run one after the other.  `Dist` is the recurrence the
  // two-row loop tabulates.  `DistIsMinimum` connects the two, so that everything proved of
  // `Levenshtein` is about scripts.

  // ---------------------------------------------------------------- scripts

  datatype Edit =
    | Insert(pos: nat, c: char)
    | Delete(pos: nat)
    | Substitute(pos: nat, c: char)

  predicate Applicable(e: Edit, s: string) {
    match e
    case Insert(pos, _) => pos <= |s|
    case Delete(pos) => pos < |s|
    case Substitute(pos, _) => pos < |s|
  }

  function ApplyEdit(e: Edit, s: string): string
    requires Applicable(e, s)
  {
    match e
    case Insert(pos, c) => s[..pos] + [c] + s[pos..]
    case Delete(pos) => s[..pos] + s[pos + 1..]
    case Substitute(pos, c) => s[..pos] + [c] + s[pos + 1..]
  }

  /** Running `script` from the first edit on turns `a` into `b`. */
  predicate Turns(script: seq<Edit>, a: string, b: string) {
    if script == [] then a == b
    else Applicable(script[0], a) && Turns(script[1..], ApplyEdit(script[0], a), b)
  }

  // ------------------------------------------------------------- recurrence

  function Min(x: nat, y: nat): nat {
    if x <= y then x else y
  }

  function Differ(c: char, d: char): nat {
    if c != d then 1 else 0
  }

  /** The distance between the first `i` characters of `a` and the first `j` of `b`. */
  function DistUpTo(a: string, b: string, i: nat, j: nat): nat
    requires i <= |a| && j <= |b|
    decreases i + j, 1
  {
    if i == 0 then j
    else if j == 0 then i
    else Min(Above(a, b, i, j), Min(Left(a, b, i, j), Diagonal(a, b, i, j)))
  }

  function Above(a: string, b: string, i: nat, j: nat): nat
    requires 0 < i <= |a| && j <= |b|
    decreases i + j, 0
  {
    DistUpTo(a, b, i - 1, j) + 1
  }

  function Left(a: string, b: string, i: nat, j: nat): nat
    requires i <= |a| && 0 < j <= |b|
    decreases i + j, 0
  {
    DistUpTo(a, b, i, j - 1) + 1
  }

  function Diagonal(a: string, b: string, i: nat, j: nat): nat
    requires 0 < i <= |a| && 0 < j <= |b|
    decreases i + j, 0
  {
    DistUpTo(a, b, i - 1, j - 1) + Differ(a[i - 1], b[j - 1])
  }

  function Dist(a: string, b: string): nat {
    DistUpTo(a, b, |a|, |b|)
  }

  // ----------------------------------------------------------------- metric

  lemma {:induction false} LengthBoundsUpTo(a: string, b: string, i: nat, j: nat)
    requires i <= |a| && j <= |b|
    ensures i <= j + DistUpTo(a, b, i, j) && j <= i + DistUpTo(a, b, i, j)
    ensures DistUpTo(a, b, i, j) <= i + j
    decreases i + j
  {
    if i == 0 || j == 0 {
    } else {
      LengthBoundsUpTo(a, b, i - 1, j);
      LengthBoundsUpTo(a, b, i, j - 1);
      LengthBoundsUpTo(a, b, i - 1, j - 1);
    }
  }

  lemma {:induction false} NoDearerReversed(a: string, b: string, i: nat, j: nat)
    requires i <= |a| && j <= |b|
    ensures DistUpTo(b, a, j, i) <= DistUpTo(a, b, i, j)
    decreases i + j
  {
    if i == 0 || j == 0 {
    } else if DistUpTo(a, b, i, j) == Above(a, b, i, j) {
      NoDearerReversed(a, b, i - 1, j);
    } else if DistUpTo(a, b, i, j) == Left(a, b, i, j) {
      NoDearerReversed(a, b, i, j - 1);
    } else {
      NoDearerReversed(a, b, i - 1, j - 1);
    }
  }

  lemma Symmetric(a: string, b: string)
    ensures Dist(a, b) == Dist(b, a)
  {
    NoDearerReversed(a, b, |a|, |b|);
    NoDearerReversed(b, a, |b|, |a|);
  }

  lemma {:induction false} ZeroIffEqualUpTo(a: string, b: string, i: nat, j: nat)
    requires i <= |a| && j <= |b|
    ensures DistUpTo(a, b, i, j) == 0 <==> a[..i] == b[..j]
    decreases i + j
  {
    if i == 0 || j == 0 {
    } else {
      assert a[..i] == a[..i - 1] + [a[i - 1]] && b[..j] == b[..j - 1] + [b[j - 1]];
      ZeroIffEqualUpTo(a, b, i - 1, j - 1);
    }
  }

  lemma ZeroIffEqual(a: string, b: string)
    ensures Dist(a, b) == 0 <==> a == b
  {
    ZeroIffEqualUpTo(a, b, |a|, |b|);
    assert a[..|a|] == a && b[..|b|] == b;
  }

  lemma TriangleAtEdge(a: string, b: string, c: string, i: nat, j: nat, k: nat)
    requires i <= |a| && j <= |b| && k <= |c| && (i == 0 || j == 0 || k == 0)
    ensures DistUpTo(a, c, i, k) <= DistUpTo(a, b, i, j) + DistUpTo(b, c, j, k)
  {
    LengthBoundsUpTo(a, b, i, j);
    LengthBoundsUpTo(b, c, j, k);
    LengthBoundsUpTo(a, c, i, k);
  }

  /** The case analysis is on the last step of the way from `a` to `b` and of the way from `b` to `c`. */
  lemma {:induction false} TriangleUpTo(a: string, b: string, c: string, i: nat, j: nat, k: nat)
    requires i <= |a| && j <= |b| && k <= |c|
    ensures DistUpTo(a, c, i, k) <= DistUpTo(a, b, i, j) + DistUpTo(b, c, j, k)
    decreases i + j + k
  {
    if i == 0 || j == 0 || k == 0 {
      TriangleAtEdge(a, b, c, i, j, k);
    } else if DistUpTo(a, b, i, j) == Above(a, b, i, j) {
      TriangleUpTo(a, b, c, i - 1, j, k);
    } else if DistUpTo(b, c, j, k) == Left(b, c, j, k) {
      TriangleUpTo(a, b, c, i, j, k - 1);
    } else if DistUpTo(a, b, i, j) == Left(a, b, i, j) {
      if DistUpTo(b, c, j, k) == Above(b, c, j, k) {
        TriangleUpTo(a, b, c, i, j - 1, k);
      } else {
        TriangleUpTo(a, b, c, i, j - 1, k - 1);
      }
    } else {
      if DistUpTo(b, c, j, k) == Above(b, c, j, k) {
        TriangleUpTo(a, b, c, i - 1, j - 1, k);
      } else {
        TriangleUpTo(a, b, c, i - 1, j - 1, k - 1);
      }
    }
  }

  lemma Triangle(a: string, b: string, c: string)
    ensures Dist(a, c) <= Dist(a, b) + Dist(b, c)
  {
    TriangleUpTo(a, b, c, |a|, |b|, |c|);
  }

  // ----------------------------------------------------- one edit, one step

  lemma {:induction false} CommonSuffix(a: string, b: string, i: nat, j: nat)
    requires i <= |a| && j <= |b| && a[i..] == b[j..]
    ensures Dist(a, b) <= DistUpTo(a, b, i, j)
    decreases |a| - i
  {
    assert |a| - i == |a[i..]| == |b[j..]| == |b| - j;
    if i == |a| {
    } else {
      assert a[i] == a[i..][0] && b[j] == b[j..][0];
      assert a[i + 1..] == a[i..][1..] && b[j + 1..] == b[j..][1..];
      CommonSuffix(a, b, i + 1, j + 1);
    }
  }

  lemma OneEdit(e: Edit, a: string)
    requires Applicable(e, a)
    ensures Dist(a, ApplyEdit(e, a)) <= 1
  {
    var b, p := ApplyEdit(e, a), e.pos;
    assert a[..p] == b[..p];
    ZeroIffEqualUpTo(a, b, p, p);
    match e {
      case Insert(_, _) => CommonSuffix(a, b, p, p + 1);
      case Delete(_) => CommonSuffix(a, b, p + 1, p);
      case Substitute(_, _) => CommonSuffix(a, b, p + 1, p + 1);
    }
  }

  lemma {:induction false} NoScriptBeatsDist(script: seq<Edit>, a: string, b: string)
    requires Turns(script, a, b)
    ensures Dist(a, b) <= |script|
    decreases |script|
  {
    if script == [] {
      ZeroIffEqual(a, b);
    } else {
      var mid := ApplyEdit(script[0], a);
      OneEdit(script[0], a);
      NoScriptBeatsDist(script[1..], mid, b);
      Triangle(a, mid, b);
    }
  }

  // ----------------------------------------------- a script that attains it

  lemma {:induction false} ThenOne(s: seq<Edit>, e: Edit, a: string, b: string)
    requires Turns(s, a, b) && Applicable(e, b)
    ensures Turns(s + [e], a, ApplyEdit(e, b))
    decreases |s|
  {
    var t := s + [e];
    if s == [] {
      assert t[1..] == [];
    } else {
      assert t[0] == s[0] && t[1..] == s[1..] + [e];
      ThenOne(s[1..], e, ApplyEdit(s[0], a), b);
    }
  }

  lemma EditBeforeSuffix(e: Edit, a: string, z: string)
    requires Applicable(e, a)
    ensures Applicable(e, a + z) && ApplyEdit(e, a + z) == ApplyEdit(e, a) + z
  {
    assert (a + z)[..e.pos] == a[..e.pos];
    match e {
      case Insert(p, _) => assert (a + z)[p..] == a[p..] + z;
      case Delete(p) => assert (a + z)[p + 1..] == a[p + 1..] + z;
      case Substitute(p, _) => assert (a + z)[p + 1..] == a[p + 1..] + z;
    }
  }

  lemma {:induction false} BeforeSuffix(s: seq<Edit>, a: string, b: string, z: string)
    requires Turns(s, a, b)
    ensures Turns(s, a + z, b + z)
    decreases |s|
  {
    if s == [] {
    } else {
      EditBeforeSuffix(s[0], a, z);
      BeforeSuffix(s[1..], ApplyEdit(s[0], a), b, z);
    }
  }

  /** From the cell above: delete the last character, then go on. */
  lemma FromAbove(s: seq<Edit>, a: string, i: nat, y: string)
    requires 0 < i <= |a| && Turns(s, a[..i - 1], y)
    ensures Turns([Delete(i - 1)] + s, a[..i], y)
  {
    var t := [Delete(i - 1)] + s;
    assert t[1..] == s && ApplyEdit(t[0], a[..i]) == a[..i - 1];
  }

  /** From the cell to the left: go there, then append the last character. */
  lemma FromLeft(s: seq<Edit>, x: string, b: string, j: nat)
    requires 0 < j <= |b| && Turns(s, x, b[..j - 1])
    ensures Turns(s + [Insert(j - 1, b[j - 1])], x, b[..j])
  {
    var e := Insert(j - 1, b[j - 1]);
    assert ApplyEdit(e, b[..j - 1]) == b[..j];
    ThenOne(s, e, x, b[..j - 1]);
  }

  /** Along the diagonal: keep or replace the last character. */
  lemma AlongDiagonal(s: seq<Edit>, x: string, y: string, c: char, d: char) returns (t: seq<Edit>)
    requires Turns(s, x, y)
    ensures Turns(t, x + [c], y + [d]) && |t| == |s| + Differ(c, d)
  {
    BeforeSuffix(s, x, y, [c]);
    t := s;
    if c != d {
      var e := Substitute(|y|, d);
      assert ApplyEdit(e, y + [c]) == y + [d];
      ThenOne(s, e, x + [c], y + [c]);
      t := s + [e];
    }
  }

  lemma FromDiagonal(s: seq<Edit>, a: string, b: string, i: nat, j: nat) returns (t: seq<Edit>)
    requires 0 < i <= |a| && 0 < j <= |b| && Turns(s, a[..i - 1], b[..j - 1])
    ensures Turns(t, a[..i], b[..j]) && |t| == |s| + Differ(a[i - 1], b[j - 1])
  {
    assert a[..i - 1] + [a[i - 1]] == a[..i] && b[..j - 1] + [b[j - 1]] == b[..j];
    t := AlongDiagonal(s, a[..i - 1], b[..j - 1], a[i - 1], b[j - 1]);
  }

  predicate Attains(t: seq<Edit>, a: string, b: string, i: nat, j: nat)
    requires i <= |a| && j <= |b|
  {
    Turns(t, a[..i], b[..j]) && |t| == DistUpTo(a, b, i, j)
  }

  lemma AttainFromAbove(s: seq<Edit>, a: string, b: string, i: nat, j: nat)
    requires 0 < i <= |a| && j <= |b| && Attains(s, a, b, i - 1, j)
    requires DistUpTo(a, b, i, j) == Above(a, b, i, j)
    ensures Attains([Delete(i - 1)] + s, a, b, i, j)
  {
    FromAbove(s, a, i, b[..j]);
  }

  lemma AttainFromLeft(s: seq<Edit>, a: string, b: string, i: nat, j: nat)
    requires i <= |a| && 0 < j <= |b| && Attains(s, a, b, i, j - 1)
    requires DistUpTo(a, b, i, j) == Left(a, b, i, j)
    ensures Attains(s + [Insert(j - 1, b[j - 1])], a, b, i, j)
  {
    FromLeft(s, a[..i], b, j);
  }

  lemma AttainFromDiagonal(s: seq<Edit>, a: string, b: string, i: nat, j: nat) returns (t: seq<Edit>)
    requires 0 < i <= |a| && 0 < j <= |b| && Attains(s, a, b, i - 1, j - 1)
    requires DistUpTo(a, b, i, j) == Diagonal(a, b, i, j)
    ensures Attains(t, a, b, i, j)
  {
    t := FromDiagonal(s, a, b, i, j);
  }

  lemma AttainNothing(a: string, b: string)
    ensures Attains([], a, b, 0, 0)
  {
    assert a[..0] == b[..0];
  }

  /** Which of its neighbours a cell takes its value from. */
  lemma CellCases(a: string, b: string, i: nat, j: nat)
    requires i <= |a| && j <= |b| && (i > 0 || j > 0)
    ensures j == 0 ==> DistUpTo(a, b, i, j) == Above(a, b, i, j)
    ensures i == 0 ==> DistUpTo(a, b, i, j) == Left(a, b, i, j)
    ensures i > 0 && j > 0 ==>
              || DistUpTo(a, b, i, j) == Above(a, b, i, j)
              || DistUpTo(a, b, i, j) == Left(a, b, i, j)
              || DistUpTo(a, b, i, j) == Diagonal(a, b, i, j)
  {
  }

  lemma {:induction false} AttainUpTo(a: string, b: string, i: nat, j: nat) returns (t: seq<Edit>)
    requires i <= |a| && j <= |b|
    ensures Attains(t, a, b, i, j)
    decreases i + j
  {
    if i == 0 && j == 0 {
      AttainNothing(a, b);
      t := [];
    } else {
      CellCases(a, b, i, j);
      if i > 0 && DistUpTo(a, b, i, j) == Above(a, b, i, j) {
        var s := AttainUpTo(a, b, i - 1, j);
        t := [Delete(i - 1)] + s;
        AttainFromAbove(s, a, b, i, j);
      } else if j > 0 && DistUpTo(a, b, i, j) == Left(a, b, i, j) {
        var s := AttainUpTo(a, b, i, j - 1);
        t := s + [Insert(j - 1, b[j - 1])];
        AttainFromLeft(s, a, b, i, j);
      } else {
        var s := AttainUpTo(a, b, i - 1, j - 1);
        t := AttainFromDiagonal(s, a, b, i, j);
      }
    }
  }

  /** `Dist(a, b)` is the least length of a script turning `a` into `b`. */
  lemma DistIsMinimum(a: string, b: string)
    ensures exists script :: Turns(script, a, b) && |script| == Dist(a, b)
    ensures forall script :: Turns(script, a, b) ==> Dist(a, b) <= |script|
  {
    var _ := AttainUpTo(a, b, |a|, |b|);
    assert a[..|a|] == a && b[..|b|] == b;
    forall script | Turns(script, a, b) ensures Dist(a, b) <= |script| {
      NoScriptBeatsDist(script, a, b);
    }
  }

  // ------------------------------------------------------------ the program

  /** The first `n + 1` cells of row `i`. */
  predicate IsRow(row: seq<nat>, a: string, b: string, i: nat, n: nat)
    requires i <= |a| && n <= |b|
  {
    |row| == n + 1 && forall k | 0 <= k <= n :: row[k] == DistUpTo(a, b, i, k)
  }

  /** The next cell from the two rows. */
  lemma RowGrows(prev: seq<nat>, cur: seq<nat>, a: string, b: string, i: nat, j: nat)
    requires i < |a| && j < |b| && IsRow(prev, a, b, i, |b|) && IsRow(cur, a, b, i + 1, j)
    ensures IsRow(cur + [Min(prev[j + 1] + 1, Min(cur[j] + 1, prev[j] + Differ(a[i], b[j])))], a, b, i + 1, j + 1)
  {
    assert Above(a, b, i + 1, j + 1) == prev[j + 1] + 1;
    assert Left(a, b, i + 1, j + 1) == cur[j] + 1;
    assert Diagonal(a, b, i + 1, j + 1) == prev[j] + Differ(a[i], b[j]);
  }

  /** The two-row loop with its two early exits. */
  method Levenshtein(a: string, b: string) returns (r: nat)
    ensures exists script :: Turns(script, a, b) && |script| == r
    ensures forall script :: Turns(script, a, b) ==> r <= |script|
    ensures r == Dist(a, b)
  {
    if a == [] {
      r := |b|;
    } else if b == [] {
      r := |a|;
    } else {
      var prev: seq<nat> := seq(|b| + 1, k requires 0 <= k => k as nat);
      var i := 0;
      while i < |a|
        invariant 0 <= i <= |a| && IsRow(prev, a, b, i, |b|)
      {
        var cur: seq<nat> := [i + 1];
        var j := 0;
        while j < |b|
          invariant 0 <= j <= |b| && IsRow(cur, a, b, i + 1, j)
        {
          RowGrows(prev, cur, a, b, i, j);
          cur := cur + [Min(prev[j + 1] + 1, Min(cur[j] + 1, prev[j] + Differ(a[i], b[j])))];
          j := j + 1;
        }
        prev := cur;
        i := i + 1;
      }
      r := prev[|b|];
    }
    DistIsMinimum(a, b);
  }
}
