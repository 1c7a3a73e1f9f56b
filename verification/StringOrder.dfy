/**
 The order of strings, character by character.

 `StringLess` compares the first characters and goes on behind them if they are equal; `LexBefore`
 says outright what the outcome is: a proper prefix comes first, and otherwise the first difference
 decides.
 */
module StringOrder {

  /** Lexicographic order on strings. */
  predicate StringLess(a: string, b: string) {
    b != [] && (a == [] || a[0] < b[0] || (a[0] == b[0] && StringLess(a[1..], b[1..])))
  }

  lemma {:induction false} StringLessTrichotomy(a: string, b: string)
    ensures StringLess(a, b) ==> a != b && !StringLess(b, a)
    ensures a == b || StringLess(a, b) || StringLess(b, a)
    decreases |a|
  {
    if a == [] || b == [] {
    } else {
      StringLessTrichotomy(a[1..], b[1..]);
      assert a == [a[0]] + a[1..] && b == [b[0]] + b[1..];
    }
  }

  lemma {:induction false} StringLessTransitive(a: string, b: string, c: string)
    requires StringLess(a, b) && StringLess(b, c)
    ensures StringLess(a, c)
    decreases |a|
  {
    if a == [] || a[0] != b[0] || b[0] != c[0] {
    } else {
      StringLessTransitive(a[1..], b[1..], c[1..]);
    }
  }

  /** `a` is a proper prefix of `b`, or at the first difference the character of `a` is the smaller one. */
  ghost predicate LexBefore(a: string, b: string) {
    exists i :: 0 <= i <= |a| && i < |b| && DiffersAt(a, b, i)
  }

  predicate DiffersAt(a: string, b: string, i: int)
    requires 0 <= i <= |a| && i < |b|
  {
    a[..i] == b[..i] && (i == |a| || a[i] < b[i])
  }

  lemma DiffersLater(a: string, b: string, i: nat)
    requires a != [] && b != [] && i < |a| && i + 1 < |b|
    ensures DiffersAt(a, b, i + 1) <==> a[0] == b[0] && DiffersAt(a[1..], b[1..], i)
  {
    assert a[..i + 1] == [a[0]] + a[1..][..i] && b[..i + 1] == [b[0]] + b[1..][..i];
    if a[..i + 1] == b[..i + 1] {
      assert a[..i + 1][0] == b[..i + 1][0] && a[..i + 1][1..] == b[..i + 1][1..];
      assert a[1..][..i] == a[..i + 1][1..] && b[1..][..i] == b[..i + 1][1..];
    }
  }

  lemma {:induction false} StringLessIff(a: string, b: string)
    ensures StringLess(a, b) <==> LexBefore(a, b)
    decreases |a|
  {
    if a == [] || b == [] {
      assert b != [] ==> DiffersAt(a, b, 0);
    } else {
      StringLessIff(a[1..], b[1..]);
      if StringLess(a, b) {
        if a[0] < b[0] {
          assert DiffersAt(a, b, 0);
        } else {
          var i :| 0 <= i <= |a[1..]| && i < |b[1..]| && DiffersAt(a[1..], b[1..], i);
          DiffersLater(a, b, i);
        }
      }
      if LexBefore(a, b) {
        var i :| 0 <= i <= |a| && i < |b| && DiffersAt(a, b, i);
        if i > 0 {
          DiffersLater(a, b, i - 1);
        }
      }
    }
  }
}
