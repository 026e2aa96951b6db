/** The ordered cache of verdicts, oldest first, and what an LRU cache should hold. */
module LruCache {

  datatype Entry = Entry(name: string, verdict: bool)

  function NamesOf(cache: seq<Entry>): (ns: seq<string>)
    ensures |ns| == |cache| && forall i | 0 <= i < |ns| :: ns[i] == cache[i].name
  {
    seq(|cache|, i requires 0 <= i < |cache| => cache[i].name)
  }

  /** `move_to_end` of entry `i`. */
  function Touch(cache: seq<Entry>, i: nat): seq<Entry>
    requires i < |cache|
  {
    cache[..i] + cache[i + 1..] + [cache[i]]
  }

  /** A new entry goes last; a full cache drops its first. */
  function Store(cache: seq<Entry>, capacity: nat, e: Entry): seq<Entry>
    requires capacity >= 1
  {
    (if |cache| >= capacity then cache[1..] else cache) + [e]
  }

  // ---------- Sequences without repetition ----------

  predicate Distinct(s: seq<string>) {
    s == [] || (s[|s| - 1] !in s[..|s| - 1] && Distinct(s[..|s| - 1]))
  }

  function Without(s: seq<string>, x: string): seq<string> {
    if s == [] then [] else Without(s[..|s| - 1], x) + (if s[|s| - 1] == x then [] else [s[|s| - 1]])
  }

  lemma {:induction false} WithoutMembers(s: seq<string>, x: string)
    ensures forall y :: y in Without(s, x) <==> y in s && y != x
  {
    if s == [] {
    } else {
      WithoutMembers(s[..|s| - 1], x);
      assert s == s[..|s| - 1] + [s[|s| - 1]];
    }
  }

  lemma {:induction false} WithoutAbsent(s: seq<string>, x: string)
    requires x !in s
    ensures Without(s, x) == s
  {
    if s == [] {
    } else {
      WithoutAbsent(s[..|s| - 1], x);
    }
  }

  lemma {:induction false} WithoutAppend(a: seq<string>, b: seq<string>, x: string)
    ensures Without(a + b, x) == Without(a, x) + Without(b, x)
  {
    if b == [] {
      assert a + b == a;
    } else {
      WithoutAppend(a, b[..|b| - 1], x);
      assert (a + b)[..|a + b| - 1] == a + b[..|b| - 1];
    }
  }

  lemma WithoutSelf(x: string)
    ensures Without([x], x) == []
  {
  }

  lemma WithoutSplit(a: seq<string>, x: string, b: seq<string>)
    requires x !in a && x !in b
    ensures Without(a + [x] + b, x) == a + b
  {
    hide Without;
    WithoutAppend(a + [x], b, x);
    WithoutAppend(a, [x], x);
    WithoutSelf(x);
    WithoutAbsent(a, x);
    WithoutAbsent(b, x);
  }

  lemma DistinctAppend(s: seq<string>, x: string)
    ensures Distinct(s + [x]) <==> x !in s && Distinct(s)
  {
    assert (s + [x])[..|s|] == s;
  }

  lemma {:induction false} WithoutDistinct(s: seq<string>, x: string)
    requires Distinct(s)
    ensures Distinct(Without(s, x))
  {
    if s == [] {
    } else {
      var init := s[..|s| - 1];
      WithoutDistinct(init, x);
      WithoutMembers(init, x);
      DistinctAppend(Without(init, x), s[|s| - 1]);
      assert s[|s| - 1] == x ==> Without(s, x) == Without(init, x);
    }
  }

  lemma {:induction false} DistinctAt(s: seq<string>, i: nat)
    requires Distinct(s) && i < |s|
    ensures s[i] !in s[..i] && s[i] !in s[i + 1..]
  {
    var last := |s| - 1;
    if i < last {
      DistinctAt(s[..last], i);
      assert s[..last][..i] == s[..i];
      assert s[i + 1..] == s[..last][i + 1..] + [s[last]];
      assert s[i] in s[..last];
    }
  }

  lemma {:induction false} DistinctParts(a: seq<string>, b: seq<string>)
    requires Distinct(a + b)
    ensures Distinct(b) && forall x | x in b :: x !in a
  {
    if b == [] {
    } else {
      assert (a + b)[..|a + b| - 1] == a + b[..|b| - 1];
      DistinctParts(a, b[..|b| - 1]);
      assert b == b[..|b| - 1] + [b[|b| - 1]];
    }
  }

  // ---------- What an LRU cache should hold ----------

  /** The distinct names of a history of uses, least recently used first. */
  function ByLastUse(uses: seq<string>): seq<string> {
    if uses == [] then []
    else Without(ByLastUse(uses[..|uses| - 1]), uses[|uses| - 1]) + [uses[|uses| - 1]]
  }

  function LastN<T>(s: seq<T>, n: nat): seq<T> {
    if |s| <= n then s else s[|s| - n..]
  }

  /** The `capacity` most recently used distinct names, in order of last use. */
  function MostRecent(uses: seq<string>, capacity: nat): seq<string> {
    LastN(ByLastUse(uses), capacity)
  }

  lemma {:induction false} ByLastUseDistinct(uses: seq<string>)
    ensures Distinct(ByLastUse(uses))
    ensures forall x :: x in ByLastUse(uses) <==> x in uses
  {
    if uses == [] {
    } else {
      var init, x := uses[..|uses| - 1], uses[|uses| - 1];
      var before := ByLastUse(init);
      ByLastUseDistinct(init);
      WithoutDistinct(before, x);
      WithoutMembers(before, x);
      assert uses == init + [x];
      assert ByLastUse(uses)[..|ByLastUse(uses)| - 1] == Without(before, x);
    }
  }

  /** The position of the last use of a name, or -1. */
  function LastUse(uses: seq<string>, x: string): (k: int)
    ensures -1 <= k < |uses| && (k == -1 <==> x !in uses)
    ensures k >= 0 ==> uses[k] == x && x !in uses[k + 1..]
  {
    if uses == [] then -1
    else if uses[|uses| - 1] == x then |uses| - 1
    else LastUse(uses[..|uses| - 1], x)
  }

  predicate SortedBy(names: seq<string>, uses: seq<string>) {
    names == [] ||
    var init, last := names[..|names| - 1], names[|names| - 1];
    SortedBy(init, uses) && forall y | y in init :: LastUse(uses, y) < LastUse(uses, last)
  }

  /** Using `x` once more does not disturb the order of the others. */
  lemma {:induction false} SortedWithout(names: seq<string>, uses: seq<string>, x: string)
    requires SortedBy(names, uses)
    ensures SortedBy(Without(names, x), uses + [x])
  {
    if names == [] {
    } else {
      var init, last := names[..|names| - 1], names[|names| - 1];
      SortedWithout(init, uses, x);
      if last != x {
        var rest := Without(init, x);
        WithoutMembers(init, x);
        assert (rest + [last])[..|rest|] == rest;
        assert (uses + [x])[..|uses|] == uses;
        assert Without(names, x) == rest + [last];
      } else {
        assert Without(names, x) == Without(init, x);
      }
    }
  }

  /** `ByLastUse` lists the used names in the order of their last uses. */
  lemma {:induction false} ByLastUseSorted(uses: seq<string>)
    ensures SortedBy(ByLastUse(uses), uses)
  {
    if uses == [] {
    } else {
      var init, x := uses[..|uses| - 1], uses[|uses| - 1];
      ByLastUseSorted(init);
      SortedWithout(ByLastUse(init), init, x);
      WithoutMembers(ByLastUse(init), x);
      assert uses == init + [x];
      var rest := Without(ByLastUse(init), x);
      assert ByLastUse(uses)[..|rest|] == rest;
      assert forall y | y in rest :: LastUse(uses, y) < |init|;
    }
  }

  // ---------- The cache holds exactly that ----------

  lemma TouchNames(cache: seq<Entry>, i: nat)
    requires i < |cache| && Distinct(NamesOf(cache))
    ensures NamesOf(Touch(cache, i)) == Without(NamesOf(cache), cache[i].name) + [cache[i].name]
  {
    var kept, x := NamesOf(cache), cache[i].name;
    DistinctAt(kept, i);
    WithoutSplit(kept[..i], x, kept[i + 1..]);
    assert kept == kept[..i] + [x] + kept[i + 1..];
  }

  /** The forgotten names and the kept ones. */
  lemma Forgotten(uses: seq<string>, capacity: nat) returns (gone: seq<string>)
    ensures var kept := MostRecent(uses, capacity);
            && ByLastUse(uses) == gone + kept && Distinct(kept) && |kept| <= capacity
            && (gone == [] || |kept| == capacity)
            && forall x | x in kept :: x !in gone
  {
    var all := ByLastUse(uses);
    ByLastUseDistinct(uses);
    gone := if |all| <= capacity then [] else all[..|all| - capacity];
    assert all == gone + MostRecent(uses, capacity);
    DistinctParts(gone, MostRecent(uses, capacity));
  }

  lemma LastNAppend(a: seq<string>, b: seq<string>, n: nat)
    requires |b| == n || (a == [] && |b| <= n)
    ensures LastN(a + b, n) == b
  {
  }

  lemma {:induction false} WithoutLength(s: seq<string>, x: string)
    requires Distinct(s) && x in s
    ensures |Without(s, x)| == |s| - 1
  {
    var last := s[|s| - 1];
    if last == x {
      WithoutAbsent(s[..|s| - 1], x);
    } else {
      assert s == s[..|s| - 1] + [last];
      WithoutLength(s[..|s| - 1], x);
    }
  }

  lemma ByLastUseAppend(uses: seq<string>, x: string)
    ensures ByLastUse(uses + [x]) == Without(ByLastUse(uses), x) + [x]
  {
    assert (uses + [x])[..|uses|] == uses;
  }

  lemma Regroup(a: seq<string>, b: seq<string>, x: string)
    requires b != []
    ensures (a + b) + [x] == (a + [b[0]]) + (b[1..] + [x])
  {
  }

  /** The recent names after a use of a name that is among them. */
  lemma RecentHit(uses: seq<string>, capacity: nat, x: string)
    requires x in MostRecent(uses, capacity)
    ensures MostRecent(uses + [x], capacity) == Without(MostRecent(uses, capacity), x) + [x]
  {
    hide Without, ByLastUse, Distinct, LastN;
    var kept := MostRecent(uses, capacity);
    var gone := Forgotten(uses, capacity);
    WithoutAppend(gone, kept, x);
    WithoutAbsent(gone, x);
    WithoutLength(kept, x);
    ByLastUseAppend(uses, x);
    assert ByLastUse(uses + [x]) == gone + (Without(kept, x) + [x]);
    LastNAppend(gone, Without(kept, x) + [x], capacity);
  }

  /** And of one that is not, possibly forgotten earlier. */
  lemma RecentMiss(uses: seq<string>, capacity: nat, x: string)
    requires capacity >= 1 && x !in MostRecent(uses, capacity)
    ensures var kept := MostRecent(uses, capacity);
            MostRecent(uses + [x], capacity) == (if |kept| >= capacity then kept[1..] else kept) + [x]
  {
    hide Without, ByLastUse, Distinct, LastN;
    var kept := MostRecent(uses, capacity);
    var gone := Forgotten(uses, capacity);
    WithoutAppend(gone, kept, x);
    WithoutAbsent(kept, x);
    ByLastUseAppend(uses, x);
    if |kept| < capacity {
      assert gone == [];
      WithoutAbsent(gone, x);
      assert ByLastUse(uses + [x]) == [] + (kept + [x]);
      LastNAppend([], kept + [x], capacity);
    } else {
      Regroup(Without(gone, x), kept, x);
      LastNAppend(Without(gone, x) + [kept[0]], kept[1..] + [x], capacity);
    }
  }

  /** Using a cached name. */
  lemma TouchRecent(cache: seq<Entry>, i: nat, uses: seq<string>, capacity: nat)
    requires i < |cache| && NamesOf(cache) == MostRecent(uses, capacity)
    ensures NamesOf(Touch(cache, i)) == MostRecent(uses + [cache[i].name], capacity)
  {
    hide Without, MostRecent, Distinct;
    var gone := Forgotten(uses, capacity);
    TouchNames(cache, i);
    assert NamesOf(cache)[i] == cache[i].name;
    RecentHit(uses, capacity, cache[i].name);
  }

  /** Using a name that is not cached. */
  lemma StoreRecent(cache: seq<Entry>, e: Entry, uses: seq<string>, capacity: nat)
    requires capacity >= 1 && NamesOf(cache) == MostRecent(uses, capacity) && e.name !in NamesOf(cache)
    ensures NamesOf(Store(cache, capacity, e)) == MostRecent(uses + [e.name], capacity)
  {
    hide Without, MostRecent, Distinct;
    RecentMiss(uses, capacity, e.name);
  }
}
