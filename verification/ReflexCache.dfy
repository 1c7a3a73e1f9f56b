/** The bounded decision cache and the engine that consults it. */
module ReflexCache {
  import opened Collections
  import opened Text
  import opened Reflex

  const CACHE_CAP := 256

  datatype CacheState = CacheState(entries: map<string, ReflexDecision>, order: seq<string>, hits: nat, misses: nat)

  const EMPTY_CACHE := CacheState(map[], [], 0, 0)

  /** Pure decisions for normalized texts, never marked as cached. */
  ghost predicate IsDecider(decide: string -> ReflexDecision) {
    forall k :: !decide(k).cached
  }

  /** What the engine answers and leaves behind. */
  function AskCached(decide: string -> ReflexDecision, c: CacheState, key: string): (ReflexDecision, CacheState) {
    if key in c.entries then
      (c.entries[key].(cached := true), c.(hits := c.hits + 1))
    else
      var d := decide(key);
      if |c.order| < CACHE_CAP
      then (d, CacheState(c.entries[key := d], c.order + [key], c.hits, c.misses + 1))
      else
        var order := c.order + [key];
        (d, CacheState((c.entries - {order[0]})[key := d], order[1..], c.hits, c.misses + 1))
  }

  function CacheAfter(decide: string -> ReflexDecision, keys: seq<string>): CacheState
    decreases |keys|
  {
    if keys == [] then EMPTY_CACHE
    else AskCached(decide, CacheAfter(decide, keys[..|keys| - 1]), keys[|keys| - 1]).1
  }

  // ----------------------------------------- the same, without any cache

  function LastOf(s: seq<string>, n: nat): seq<string> {
    if |s| <= n then s else s[|s| - n..]
  }

  /** The keys that miss, in order: those not among the last 256 that missed before them. */
  function Missed(keys: seq<string>): seq<string>
    decreases |keys|
  {
    if keys == [] then []
    else
      var before, key := Missed(keys[..|keys| - 1]), keys[|keys| - 1];
      if key in LastOf(before, CACHE_CAP) then before else before + [key]
  }

  ghost predicate Mirrors(decide: string -> ReflexDecision, c: CacheState, missed: seq<string>, calls: nat) {
    && c.order == LastOf(missed, CACHE_CAP) && Distinct(c.order)
    && (forall k :: k in c.entries <==> k in c.order)
    && (forall k :: k in c.entries ==> c.entries[k] == decide(k))
    && c.misses == |missed| && c.hits + c.misses == calls
  }

  lemma WindowSlides(s: seq<string>, key: string)
    ensures var w := LastOf(s, CACHE_CAP);
            LastOf(s + [key], CACHE_CAP) == if |w| < CACHE_CAP then w + [key] else (w + [key])[1..]
  {
  }

  lemma Slide(order: seq<string>, key: string)
    requires order != [] && Distinct(order) && key !in order
    ensures var next := (order + [key])[1..];
            Distinct(next) && forall k :: k in next <==> (k in order && k != order[0]) || k == key
  {
    var next := (order + [key])[1..];
    assert next == order[1..] + [key] && order == [order[0]] + order[1..];
    forall i, j | 0 <= i < j < |next| ensures next[i] != next[j] {
      assert next[i] == order[i + 1];
    }
  }

  lemma HitMirrors(decide: string -> ReflexDecision, c: CacheState, missed: seq<string>, calls: nat, key: string)
    requires IsDecider(decide) && Mirrors(decide, c, missed, calls) && key in c.order
    ensures AskCached(decide, c, key).0 == decide(key).(cached := true)
    ensures Mirrors(decide, AskCached(decide, c, key).1, missed, calls + 1)
  {
  }

  lemma MissAdds(decide: string -> ReflexDecision, c: CacheState, missed: seq<string>, calls: nat, key: string)
    requires IsDecider(decide) && Mirrors(decide, c, missed, calls) && key !in c.order && |c.order| < CACHE_CAP
    ensures Mirrors(decide, AskCached(decide, c, key).1, missed + [key], calls + 1)
  {
    WindowSlides(missed, key);
    assert c.order + [key] == LastOf(missed + [key], CACHE_CAP);
  }

  /** The cached keys once the oldest has made room for `key`. */
  lemma Evicted(entries: map<string, ReflexDecision>, order: seq<string>, key: string, d: ReflexDecision)
    requires order != [] && Distinct(order) && key !in order && forall k :: k in entries <==> k in order
    ensures var next := (order + [key])[1..];
            && Distinct(next) && (forall k :: k in (entries - {order[0]})[key := d] <==> k in next)
            && forall k :: k in next && k != key ==> k in entries && (entries - {order[0]})[key := d][k] == entries[k]
  {
    Slide(order, key);
  }

  lemma MissEvicts(decide: string -> ReflexDecision, c: CacheState, missed: seq<string>, calls: nat, key: string)
    requires IsDecider(decide) && Mirrors(decide, c, missed, calls) && key !in c.order && |c.order| >= CACHE_CAP
    ensures Mirrors(decide, AskCached(decide, c, key).1, missed + [key], calls + 1)
  {
    WindowSlides(missed, key);
    Evicted(c.entries, c.order, key, decide(key));
    assert (c.order + [key])[0] == c.order[0];
  }

  lemma MissMirrors(decide: string -> ReflexDecision, c: CacheState, missed: seq<string>, calls: nat, key: string)
    requires IsDecider(decide) && Mirrors(decide, c, missed, calls) && key !in c.order
    ensures AskCached(decide, c, key).0 == decide(key)
    ensures Mirrors(decide, AskCached(decide, c, key).1, missed + [key], calls + 1)
  {
    if |c.order| < CACHE_CAP {
      MissAdds(decide, c, missed, calls, key);
    } else {
      MissEvicts(decide, c, missed, calls, key);
    }
  }

  lemma AskMirrors(decide: string -> ReflexDecision, c: CacheState, missed: seq<string>, calls: nat, key: string)
    requires IsDecider(decide) && Mirrors(decide, c, missed, calls)
    ensures AskCached(decide, c, key).0 == decide(key).(cached := key in c.order)
    ensures Mirrors(decide, AskCached(decide, c, key).1, if key in c.order then missed else missed + [key], calls + 1)
  {
    if key in c.order {
      HitMirrors(decide, c, missed, calls, key);
    } else {
      MissMirrors(decide, c, missed, calls, key);
    }
  }

  /** The cache is a first-in-first-out window over the missed keys, and never changes an answer. */
  lemma {:induction false} CacheIsTransparent(decide: string -> ReflexDecision, keys: seq<string>, key: string)
    requires IsDecider(decide)
    ensures Mirrors(decide, CacheAfter(decide, keys), Missed(keys), |keys|)
    ensures AskCached(decide, CacheAfter(decide, keys), key).0 ==
            decide(key).(cached := key in LastOf(Missed(keys), 256))
    ensures |CacheAfter(decide, keys).order| <= 256
    decreases |keys|
  {
    if keys == [] {
    } else {
      var before, last := keys[..|keys| - 1], keys[|keys| - 1];
      CacheIsTransparent(decide, before, last);
      AskMirrors(decide, CacheAfter(decide, before), Missed(before), |before|, last);
    }
    AskMirrors(decide, CacheAfter(decide, keys), Missed(keys), |keys|, key);
  }

  class DecisionCache {
    var entries: map<string, ReflexDecision>
    var order: seq<string>
    var hits: nat
    var misses: nat

    constructor ()
      ensures Now() == EMPTY_CACHE
    {
      entries, order, hits, misses := map[], [], 0, 0;
    }

    function Now(): CacheState
      reads this
    {
      CacheState(entries, order, hits, misses)
    }

    method Get(key: string) returns (r: Option<ReflexDecision>)
      modifies this
      ensures key in old(entries) ==>
                r == Some(old(entries)[key].(cached := true)) && Now() == old(Now()).(hits := old(hits) + 1)
      ensures key !in old(entries) ==> r == None && Now() == old(Now()).(misses := old(misses) + 1)
    {
      if key in entries {
        hits := hits + 1;
        return Some(entries[key].(cached := true));
      }
      misses := misses + 1;
      return None;
    }

    method Put(key: string, decision: ReflexDecision)
      requires |order| <= CACHE_CAP
      modifies `entries, `order
      ensures var d := decision.(cached := false);
              if key in old(entries) then entries == old(entries)[key := d] && order == old(order)
              else if |old(order)| < CACHE_CAP then entries == old(entries)[key := d] && order == old(order) + [key]
              else
                var queue := old(order) + [key];
                entries == (old(entries) - {queue[0]})[key := d] && order == queue[1..]
    {
      if key !in entries {
        order := order + [key];
        ghost var queue := order;
        while |order| > CACHE_CAP
          invariant CACHE_CAP <= |order| || order == queue
          invariant if order == queue then entries == old(entries)
                    else |queue| == CACHE_CAP + 1 && order == queue[1..] && entries == old(entries) - {queue[0]}
          decreases |order|
        {
          entries := entries - {order[0]};
          order := order[1..];
        }
      }
      entries := entries[key := decision.(cached := false)];
    }
  }

  class Engine {
    const u: Unicode
    const decide: string -> ReflexDecision
    const cache: DecisionCache
    ghost var asked: seq<string>

    ghost predicate Valid()
      reads this, cache
    {
      IsDecider(decide) && cache.Now() == CacheAfter(decide, asked)
    }

    constructor (u: Unicode, policy: EscalationPolicy, lex: Lexicon)
      ensures Valid() && fresh(cache) && asked == [] && this.u == u
      ensures forall k :: decide(k) == DecideKey(policy, lex, k)
    {
      this.u := u;
      decide := k => DecideKey(policy, lex, k);
      cache := new DecisionCache();
      asked := [];
    }

    method Consult(key: string) returns (d: ReflexDecision)
      requires |cache.order| <= CACHE_CAP && !decide(key).cached
      modifies cache
      ensures (d, cache.Now()) == AskCached(decide, old(cache.Now()), key)
    {
      var hit := cache.Get(key);
      if hit.Some? {
        return hit.value;
      }
      d := decide(key);
      cache.Put(key, d);
    }

    /** The answer is the stateless one, marked when it came from the window of cached keys. */
    method Ask(text: string) returns (d: ReflexDecision)
      requires Valid()
      modifies this, cache
      ensures Valid() && asked == old(asked) + [Normalize(u, text)]
      ensures d == decide(Normalize(u, text)).(cached := Normalize(u, text) in LastOf(Missed(old(asked)), 256))
    {
      var key := Normalize(u, text);
      CacheIsTransparent(decide, asked, key);
      AskedOneMore(decide, asked, key);
      d := Consult(key);
      asked := asked + [key];
    }
  }

  lemma AskedOneMore(decide: string -> ReflexDecision, asked: seq<string>, key: string)
    ensures CacheAfter(decide, asked + [key]) == AskCached(decide, CacheAfter(decide, asked), key).1
  {
  }
}
