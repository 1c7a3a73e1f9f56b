/**
 Identifiers and results, and what the program relies on of its library collections.

 Iteration over a hash map gives every key once, in an order nobody can rely on; filtering and
 searching keep the order of a sequence; the library sort is stable.  Each of these is a function or
 a method here, with the lemmas the components need.
 */
module Collections {

  type Uuid = nat

  datatype Option<+T> = None | Some(value: T)

  datatype Result<+T, +E> = Ok(value: T) | Err(error: E)

  ghost predicate Distinct<T>(s: seq<T>) {
    forall i, j :: 0 <= i < j < |s| ==> s[i] != s[j]
  }

  /** `keys` lists the keys of `m`, each once, in some order. */
  ghost predicate ListsKeys<K, V>(keys: seq<K>, m: map<K, V>) {
    Distinct(keys) && (forall k :: k in keys ==> k in m) && (forall k :: k in m ==> k in keys)
  }

  /** Iteration over a hash map: every key once, in an order the caller cannot rely on. */
  method Keys<K(==), V>(m: map<K, V>) returns (keys: seq<K>)
    ensures ListsKeys(keys, m)
  {
    keys := [];
    var rest := m.Keys;
    while rest != {}
      invariant rest <= m.Keys && Distinct(keys)
      invariant forall k :: k in keys ==> k in m && k !in rest
      invariant forall k :: k in m ==> k in keys || k in rest
      decreases |rest|
    {
      var k :| k in rest;
      keys, rest := keys + [k], rest - {k};
    }
  }

  lemma {:induction false} DistinctLength<T>(s: seq<T>, all: set<T>)
    requires Distinct(s) && forall x :: x in s ==> x in all
    ensures |s| <= |all|
    decreases |s|
  {
    if s == [] {
    } else {
      DistinctLength(s[1..], all - {s[0]});
    }
  }

  // ------------------------------------------------ filtering and searching

  function Filter<T>(s: seq<T>, p: T -> bool): seq<T> {
    if s == [] then [] else (if p(s[0]) then [s[0]] else []) + Filter(s[1..], p)
  }

  /** The first element that satisfies `p`. */
  function First<T>(s: seq<T>, p: T -> bool): Option<T> {
    if s == [] then None else if p(s[0]) then Some(s[0]) else First(s[1..], p)
  }

  lemma {:induction false} FilterSelects<T>(s: seq<T>, p: T -> bool)
    ensures forall x :: x in Filter(s, p) <==> x in s && p(x)
    decreases |s|
  {
    if s == [] {
    } else {
      FilterSelects(s[1..], p);
      assert s == [s[0]] + s[1..];
    }
  }

  lemma {:induction false} FilterDistinct<T>(s: seq<T>, p: T -> bool)
    requires Distinct(s)
    ensures Distinct(Filter(s, p))
    decreases |s|
  {
    if s == [] {
    } else {
      FilterDistinct(s[1..], p);
      FilterSelects(s[1..], p);
    }
  }

  lemma FilterEmpty<T>(s: seq<T>, p: T -> bool)
    ensures Filter(s, p) == [] <==> forall x :: x in s ==> !p(x)
  {
  }

  lemma {:induction false} FilterHead<T>(s: seq<T>, p: T -> bool)
    ensures First(s, p) == if Filter(s, p) == [] then None else Some(Filter(s, p)[0])
    decreases |s|
  {
    if s == [] {
    } else {
      FilterHead(s[1..], p);
    }
  }

  lemma {:induction false} FilterGrows<T>(s: seq<T>, p: T -> bool, q: T -> bool)
    requires forall x :: x in s && p(x) ==> q(x)
    ensures |Filter(s, p)| <= |Filter(s, q)| <= |s|
    decreases |s|
  {
    if s == [] {
    } else {
      FilterGrows(s[1..], p, q);
    }
  }

  lemma {:induction false} FilterAll<T>(s: seq<T>, p: T -> bool)
    ensures |Filter(s, p)| <= |s|
    ensures |Filter(s, p)| == |s| <==> forall x :: x in s ==> p(x)
    decreases |s|
  {
    if s == [] {
    } else {
      FilterAll(s[1..], p);
      assert s == [s[0]] + s[1..];
    }
  }

  lemma {:induction false} SameSelection<T>(s: seq<T>, p: T -> bool, q: T -> bool)
    requires forall x :: x in s ==> p(x) == q(x)
    ensures Filter(s, p) == Filter(s, q) && First(s, p) == First(s, q)
    decreases |s|
  {
    if s == [] {
    } else {
      SameSelection(s[1..], p, q);
    }
  }

  lemma {:induction false} FilterSplit<T>(s: seq<T>, t: seq<T>, p: T -> bool)
    ensures Filter(s + t, p) == Filter(s, p) + Filter(t, p)
    decreases |s|
  {
    if s == [] {
      assert s + t == t;
    } else {
      var head := if p(s[0]) then [s[0]] else [];
      assert (s + t)[0] == s[0] && (s + t)[1..] == s[1..] + t;
      FilterSplit(s[1..], t, p);
      assert Filter(s + t, p) == head + (Filter(s[1..], p) + Filter(t, p));
    }
  }

  /** The positions whose elements satisfy `p`. */
  function Positions<T>(s: seq<T>, p: T -> bool, from: nat): set<int> {
    set i | from <= i < |s| && p(s[i])
  }

  lemma {:induction false} FilterCounts<T>(s: seq<T>, p: T -> bool, from: nat)
    requires from <= |s|
    ensures |Filter(s[from..], p)| == |Positions(s, p, from)|
    decreases |s| - from
  {
    if from == |s| {
    } else {
      FilterCounts(s, p, from + 1);
      assert s[from..][1..] == s[from + 1..];
      assert Positions(s, p, from) == Positions(s, p, from + 1) + (if p(s[from]) then {from} else {});
    }
  }

  /** `x` is the first element that satisfies `p`. */
  ghost predicate IsFirst<T(!new)>(s: seq<T>, p: T -> bool, x: T) {
    exists i :: 0 <= i < |s| && s[i] == x && p(x) && forall j :: 0 <= j < i ==> !p(s[j])
  }

  lemma {:induction false} FirstIsFirst<T(!new)>(s: seq<T>, p: T -> bool)
    ensures First(s, p).None? <==> forall x :: x in s ==> !p(x)
    ensures First(s, p).Some? ==> IsFirst(s, p, First(s, p).value)
    decreases |s|
  {
    if s == [] {
    } else {
      FirstIsFirst(s[1..], p);
      assert s == [s[0]] + s[1..];
      if !p(s[0]) && First(s[1..], p).Some? {
        var x := First(s[1..], p).value;
        var i :| 0 <= i < |s[1..]| && s[1..][i] == x && forall j :: 0 <= j < i ==> !p(s[1..][j]);
        assert s[i + 1] == x;
        forall j | 0 <= j < i + 1 ensures !p(s[j]) {
          assert j > 0 ==> s[1..][j - 1] == s[j];
        }
      }
    }
  }

  // ----------------------------------------------------------- stable sorts

  /** Descending stable insertion: `x` goes before everything that is not larger. */
  function Insert<T>(x: T, s: seq<T>, key: T -> real): seq<T> {
    if s == [] || key(s[0]) <= key(x) then [x] + s else [s[0]] + Insert(x, s[1..], key)
  }

  /** Library sort by descending key; elements with equal keys keep their order. */
  function Sort<T>(s: seq<T>, key: T -> real): seq<T> {
    if s == [] then [] else Insert(s[0], Sort(s[1..], key), key)
  }

  ghost predicate Descending<T>(s: seq<T>, key: T -> real) {
    forall i, j :: 0 <= i < j < |s| ==> key(s[i]) >= key(s[j])
  }

  /** The elements of key `r`, in order. */
  ghost function WithKey<T>(s: seq<T>, key: T -> real, r: real): seq<T> {
    if s == [] then []
    else if key(s[0]) == r then [s[0]] + WithKey(s[1..], key, r)
    else WithKey(s[1..], key, r)
  }

  lemma {:induction false} InsertPermutes<T>(x: T, s: seq<T>, key: T -> real)
    ensures multiset(Insert(x, s, key)) == multiset([x]) + multiset(s)
    decreases |s|
  {
    if s == [] || key(s[0]) <= key(x) {
    } else {
      InsertPermutes(x, s[1..], key);
      assert s == [s[0]] + s[1..];
      assert multiset(s) == multiset([s[0]]) + multiset(s[1..]);
    }
  }

  lemma {:induction false} InsertBound<T>(x: T, s: seq<T>, key: T -> real, i: nat)
    requires i < |Insert(x, s, key)|
    ensures Insert(x, s, key)[i] == x || Insert(x, s, key)[i] in s
    decreases |s|
  {
    if s == [] || key(s[0]) <= key(x) || i == 0 {
    } else {
      InsertBound(x, s[1..], key, i - 1);
    }
  }

  lemma {:induction false} InsertKeepsOrder<T>(x: T, s: seq<T>, key: T -> real)
    requires Descending(s, key)
    ensures Descending(Insert(x, s, key), key)
    decreases |s|
  {
    if s == [] || key(s[0]) <= key(x) {
    } else {
      var rest := Insert(x, s[1..], key);
      InsertKeepsOrder(x, s[1..], key);
      forall i | 0 <= i < |rest| ensures key(s[0]) >= key(rest[i]) {
        InsertBound(x, s[1..], key, i);
      }
    }
  }

  lemma {:induction false} InsertIsStable<T>(x: T, s: seq<T>, key: T -> real, r: real)
    requires Descending(s, key)
    ensures WithKey(Insert(x, s, key), key, r) == WithKey([x] + s, key, r)
    decreases |s|
  {
    assert ([x] + s)[1..] == s;
    if s == [] || key(s[0]) <= key(x) {
    } else {
      var rest := Insert(x, s[1..], key);
      assert ([s[0]] + rest)[1..] == rest && ([x] + s[1..])[1..] == s[1..];
      InsertIsStable(x, s[1..], key, r);
    }
  }

  lemma {:induction false} SortSorts<T>(s: seq<T>, key: T -> real)
    ensures Descending(Sort(s, key), key)
    ensures multiset(Sort(s, key)) == multiset(s)
    ensures forall r :: WithKey(Sort(s, key), key, r) == WithKey(s, key, r)
    decreases |s|
  {
    if s == [] {
    } else {
      SortSorts(s[1..], key);
      InsertKeepsOrder(s[0], Sort(s[1..], key), key);
      InsertPermutes(s[0], Sort(s[1..], key), key);
      assert s == [s[0]] + s[1..];
      forall r ensures WithKey(Sort(s, key), key, r) == WithKey(s, key, r) {
        var t := [s[0]] + Sort(s[1..], key);
        assert t[1..] == Sort(s[1..], key);
        InsertIsStable(s[0], Sort(s[1..], key), key, r);
      }
    }
  }

  lemma SortKeepsElements<T>(s: seq<T>, key: T -> real)
    ensures forall x :: x in s ==> x in Sort(s, key)
    ensures forall x :: x in Sort(s, key) ==> x in s
  {
    SortSorts(s, key);
    forall x | x in s ensures x in Sort(s, key) {
      assert x in multiset(s);
    }
    forall x | x in Sort(s, key) ensures x in s {
      assert x in multiset(Sort(s, key));
    }
  }
}
