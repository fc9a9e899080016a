/**
 * Python `list` behaviour used throughout the tool: negative indexing,
 * open-ended slices, `del`, `list.remove`, comprehension filters,
 * `dict.fromkeys` de-duplication and `random.shuffle`.
 */
module PySeq {
  import opened Base

  /** `s[i]` does not raise `IndexError` for a list of length `n`. */
  predicate ValidIndex(n: int, i: int) {
    -n <= i < n
  }

  /** The position `s[i]` denotes: negative indices count from the end. */
  function Normalize(n: int, i: int): (k: int)
    ensures ValidIndex(n, i) ==> 0 <= k < n
  {
    if i < 0 then i + n else i
  }

  /** `s[i]`, with `None` for the `IndexError` path. */
  function At<T>(s: seq<T>, i: int): (r: Option<T>)
    ensures r.Some? <==> ValidIndex(|s|, i)
    ensures r.Some? ==> r.value == s[Normalize(|s|, i)]
  {
    if ValidIndex(|s|, i) then Some(s[Normalize(|s|, i)]) else None
  }

  /** Where the open slice `s[a:]` starts: negative `a` counts from the end, then clamped. */
  function SliceStart(n: nat, a: int): (k: nat)
    ensures k <= n
  {
    if a < 0 then (if a + n < 0 then 0 else a + n)
    else if a > n then n
    else a
  }

  /** `s[a:]`. */
  function SliceFrom<T>(s: seq<T>, a: int): (r: seq<T>)
    ensures |r| <= |s| && r == s[|s| - |r|..]
    ensures a < 0 ==> |r| == (if -a < |s| then -a else |s|)
    ensures a >= 0 ==> |r| == (if a < |s| then |s| - a else 0)
  {
    s[SliceStart(|s|, a)..]
  }

  /**
   * `r` is what `s[-limit:]` keeps: a suffix of `s`, of `limit` items at
   * most when the limit is positive, all of `s` when it is zero
   * (`s[-0:]`), and `s` without its first `-limit` items when negative.
   */
  predicate KeepsNewest<T(==)>(r: seq<T>, s: seq<T>, limit: int) {
    |r| <= |s| && r == s[|s| - |r|..] &&
    (limit > 0 ==> |r| == (if limit < |s| then limit else |s|)) &&
    (limit == 0 ==> r == s) &&
    (limit < 0 ==> |r| == (if -limit < |s| then |s| + limit else 0))
  }

  /** `s[-limit:]` keeps the newest items, and a positive limit keeps the last one. */
  lemma SliceFromNewest<T>(s: seq<T>, limit: int)
    ensures KeepsNewest(SliceFrom(s, -limit), s, limit)
    ensures limit >= 1 && s != [] ==> SliceFrom(s, -limit) != [] && SliceFrom(s, -limit)[|SliceFrom(s, -limit)| - 1] == s[|s| - 1]
  {
  }

  /** The list left by `del s[k]` for an in-range, non-negative `k`. */
  function RemoveAt<T>(s: seq<T>, k: nat): (r: seq<T>)
    requires k < |s|
    ensures |r| == |s| - 1
    ensures forall m :: 0 <= m < k ==> r[m] == s[m]
    ensures forall m :: k <= m < |r| ==> r[m] == s[m + 1]
  {
    s[..k] + s[k + 1..]
  }

  /** `del s[i]` with Python indexing; `None` is the `IndexError` path. */
  function Delete<T>(s: seq<T>, i: int): (r: Option<seq<T>>)
    ensures r.Some? <==> ValidIndex(|s|, i)
    ensures r.Some? ==> r.value == RemoveAt(s, Normalize(|s|, i))
  {
    if ValidIndex(|s|, i) then Some(RemoveAt(s, Normalize(|s|, i))) else None
  }

  /** `[f(x) for x in s]` when every `f(x)` succeeds; `None` as soon as one fails. */
  function MapAll<A, B>(s: seq<A>, f: A -> Option<B>): (r: Option<seq<B>>)
    ensures r.Some? <==> forall i :: 0 <= i < |s| ==> f(s[i]).Some?
    ensures r.Some? ==> |r.value| == |s| && forall i :: 0 <= i < |s| ==> f(s[i]) == Some(r.value[i])
  {
    if s == [] then Some([])
    else
      var head := f(s[0]);
      var rest := MapAll(s[1..], f);
      assert forall i :: 1 <= i < |s| ==> s[1..][i - 1] == s[i];
      if head.Some? && rest.Some? then Some([head.value] + rest.value) else None
  }

  /** `[x for x in s if keep(x)]`. */
  function Filter<T>(s: seq<T>, keep: T -> bool): (r: seq<T>)
    ensures |r| <= |s|
    ensures forall k :: 0 <= k < |r| ==> r[k] in s && keep(r[k])
    ensures forall k :: 0 <= k < |s| && keep(s[k]) ==> s[k] in r
  {
    if s == [] then []
    else if keep(s[0]) then [s[0]] + Filter(s[1..], keep)
    else Filter(s[1..], keep)
  }

  /** Filtering a concatenation filters each part, so the kept items keep their order. */
  lemma {:induction false} FilterConcat<T>(a: seq<T>, b: seq<T>, keep: T -> bool)
    ensures Filter(a + b, keep) == Filter(a, keep) + Filter(b, keep)
  {
    if a == [] {
      assert a + b == b;
    } else {
      assert (a + b)[1..] == a[1..] + b;
      FilterConcat(a[1..], b, keep);
    }
  }

  /** Filtering a list with one more item at the end keeps the others' result and then that item, if it passes. */
  lemma FilterSnoc<T>(s: seq<T>, x: T, keep: T -> bool)
    ensures Filter(s + [x], keep) == Filter(s, keep) + (if keep(x) then [x] else [])
  {
    FilterConcat(s, [x], keep);
    assert [x][1..] == [];
  }

  /** A filter keeps every copy of each item it accepts and no copy of the others. */
  lemma {:induction false} FilterCount<T>(s: seq<T>, keep: T -> bool)
    ensures forall x :: multiset(Filter(s, keep))[x] == if keep(x) then multiset(s)[x] else 0
  {
    if s != [] {
      FilterCount(s[1..], keep);
      assert s == [s[0]] + s[1..];
    }
  }

  /** A filter that rejects nothing gives the list back. */
  lemma {:induction false} FilterKeepsAll<T>(s: seq<T>, keep: T -> bool)
    requires forall k :: 0 <= k < |s| ==> keep(s[k])
    ensures Filter(s, keep) == s
  {
    if s != [] {
      FilterKeepsAll(s[1..], keep);
    }
  }

  /** Filtering out exactly what was appended gives the list from before. */
  lemma FilterDropsAppended<T>(s: seq<T>, added: seq<T>, keep: T -> bool)
    requires forall k :: 0 <= k < |s| ==> keep(s[k])
    requires forall k :: 0 <= k < |added| ==> !keep(added[k])
    ensures Filter(s + added, keep) == s
  {
    FilterConcat(s, added, keep);
    FilterKeepsAll(s, keep);
    FilterRejectsAll(added, keep);
    assert s + [] == s;
  }

  /** A filter that keeps nothing gives the empty list. */
  lemma {:induction false} FilterRejectsAll<T>(s: seq<T>, keep: T -> bool)
    requires forall k :: 0 <= k < |s| ==> !keep(s[k])
    ensures Filter(s, keep) == []
  {
    if s != [] {
      FilterRejectsAll(s[1..], keep);
    }
  }

  /** A filter keeps the whole length exactly when it rejects nothing. */
  lemma {:induction false} FilterLength<T>(s: seq<T>, keep: T -> bool)
    ensures |Filter(s, keep)| == |s| <==> forall k :: 0 <= k < |s| ==> keep(s[k])
  {
    if s != [] {
      FilterLength(s[1..], keep);
      assert forall k :: 1 <= k < |s| ==> s[1..][k - 1] == s[k];
    }
  }

  /** Filters that agree on every item of the list keep the same items. */
  lemma {:induction false} FilterSame<T>(s: seq<T>, f: T -> bool, g: T -> bool)
    requires forall k :: 0 <= k < |s| ==> f(s[k]) == g(s[k])
    ensures Filter(s, f) == Filter(s, g)
  {
    if s != [] {
      FilterSame(s[1..], f, g);
    }
  }

  /** The condition that both `f` and `g` hold. */
  function Both<T>(f: T -> bool, g: T -> bool): T -> bool {
    x => f(x) && g(x)
  }

  /** Filtering twice is filtering once by both conditions. */
  lemma {:induction false} FilterFilter<T>(s: seq<T>, f: T -> bool, g: T -> bool)
    ensures Filter(Filter(s, f), g) == Filter(s, Both(f, g))
  {
    if s != [] {
      FilterFilter(s[1..], f, g);
    }
  }

  predicate NoDuplicates<T(==)>(s: seq<T>) {
    forall i, j :: 0 <= i < j < |s| ==> s[i] != s[j]
  }

  /** `list(dict.fromkeys(s))`: each item once, in order of first occurrence. */
  function Dedup<T(==)>(s: seq<T>): (r: seq<T>)
    ensures forall k :: 0 <= k < |r| ==> r[k] in s
    ensures forall k :: 0 <= k < |s| ==> s[k] in r
    ensures NoDuplicates(r)
    ensures |r| <= |s|
  {
    if s == [] then []
    else
      var r := Dedup(s[..|s| - 1]);
      if s[|s| - 1] in r then r else r + [s[|s| - 1]]
  }

  /** One more item is kept only if it is new. */
  lemma DedupSnoc<T>(a: seq<T>, x: T)
    ensures Dedup(a + [x]) == if x in Dedup(a) then Dedup(a) else Dedup(a) + [x]
  {
    assert (a + [x])[..|a + [x]| - 1] == a;
  }

  /** Later items never move earlier ones: de-duplicating `a + b` starts with that of `a`. */
  lemma {:induction false} DedupPrefix<T>(a: seq<T>, b: seq<T>)
    ensures |Dedup(a)| <= |Dedup(a + b)|
    ensures Dedup(a + b)[..|Dedup(a)|] == Dedup(a)
    decreases |b|
  {
    if b == [] {
      assert a + b == a;
    } else {
      var c := a + b[..|b| - 1];
      assert (a + b)[..|a + b| - 1] == c;
      DedupPrefix(a, b[..|b| - 1]);
    }
  }

  /** A list without repeats is left as it is. */
  lemma {:induction false} DedupDistinct<T>(s: seq<T>)
    requires NoDuplicates(s)
    ensures Dedup(s) == s
  {
    if s != [] {
      var init := s[..|s| - 1];
      DedupDistinct(init);
      assert s[|s| - 1] !in init;
      assert init + [s[|s| - 1]] == s;
    }
  }

  /** De-duplicating a list of distinct items followed by items it already holds changes nothing. */
  lemma {:induction false} DedupAbsorbs<T>(d: seq<T>, extra: seq<T>)
    requires NoDuplicates(d)
    requires forall k :: 0 <= k < |extra| ==> extra[k] in d
    ensures Dedup(d + extra) == d
    decreases |extra|
  {
    if extra == [] {
      assert d + extra == d;
      DedupDistinct(d);
    } else {
      var init, x := extra[..|extra| - 1], extra[|extra| - 1];
      DedupAbsorbs(d, init);
      assert d + extra == (d + init) + [x];
      DedupSnoc(d + init, x);
    }
  }

  /** The test `x not in d`. */
  function Outside<T(==)>(d: seq<T>): T -> bool {
    x => x !in d
  }

  /**
   * De-duplicating `d + w` keeps the de-duplicated `d` in front and then
   * the items of `w` that `d` lacks, in order of first occurrence.
   */
  lemma {:induction false} DedupAppend<T>(d: seq<T>, w: seq<T>)
    ensures Dedup(d + w) == Dedup(d) + Dedup(Filter(w, Outside(d)))
    decreases |w|
  {
    if w == [] {
      assert d + w == d;
      assert Dedup(d) + [] == Dedup(d);
    } else {
      var init, y := w[..|w| - 1], w[|w| - 1];
      assert w == init + [y];
      assert d + w == (d + init) + [y];
      DedupAppend(d, init);
      DedupAppendStep(d, init, y);
    }
  }

  lemma DedupAppendStep<T>(d: seq<T>, init: seq<T>, y: T)
    requires Dedup(d + init) == Dedup(d) + Dedup(Filter(init, Outside(d)))
    ensures Dedup((d + init) + [y]) == Dedup(d) + Dedup(Filter(init + [y], Outside(d)))
  {
    var f := Filter(init, Outside(d));
    var g := Filter(init + [y], Outside(d));
    DedupSnoc(d + init, y);
    FilterSnoc(init, y, Outside(d));
    DedupSnoc(f, y);
    if y in d {
      DedupHolds(d, y);
      assert g == f;
    } else {
      DedupLacks(d, y);
      assert g == f + [y];
    }
    SnocAlgebra(Dedup(d + init), Dedup(d), Dedup(f), Dedup((d + init) + [y]), Dedup(f + [y]), y, y in d);
  }

  /** The bookkeeping of `DedupAppendStep`, with every de-duplicated list named. */
  lemma SnocAlgebra<T>(e: seq<T>, dd: seq<T>, df: seq<T>, lhs: seq<T>, dfy: seq<T>, y: T, held: bool)
    requires e == dd + df
    requires lhs == if y in e then e else e + [y]
    requires dfy == if y in df then df else df + [y]
    requires held <==> y in dd
    ensures lhs == dd + (if held then df else dfy)
  {
    if !held {
      assert y in e <==> y in df;
      assert dd + df + [y] == dd + (df + [y]);
    }
  }

  lemma DedupHolds<T>(s: seq<T>, x: T)
    requires x in s
    ensures x in Dedup(s)
  {
    var k :| 0 <= k < |s| && s[k] == x;
  }

  lemma DedupLacks<T>(s: seq<T>, x: T)
    requires x !in s
    ensures x !in Dedup(s)
  {
  }

  /** The first position of `x` in `s` (what `list.index` and `list.remove` use). */
  function IndexOf<T(==)>(s: seq<T>, x: T): (i: nat)
    requires x in s
    ensures i < |s| && s[i] == x && x !in s[..i]
  {
    if s[0] == x then 0
    else
      assert x in s[1..];
      var k := IndexOf(s[1..], x);
      assert s[..k + 1] == [s[0]] + s[1..][..k];
      k + 1
  }

  /** `s.remove(x)` for an `x` that is present: only the first occurrence goes. */
  function RemoveFirst<T(==)>(s: seq<T>, x: T): (r: seq<T>)
    requires x in s
    ensures |r| == |s| - 1
    ensures multiset(r) + multiset{x} == multiset(s)
    ensures var i := IndexOf(s, x);
            (forall m :: 0 <= m < i ==> r[m] == s[m]) && (forall m :: i <= m < |r| ==> r[m] == s[m + 1])
  {
    var i := IndexOf(s, x);
    assert s == s[..i] + [s[i]] + s[i + 1..];
    s[..i] + s[i + 1..]
  }

  /** Removing an item that was appended to a list without it gives the list back. */
  lemma RemoveFirstAppended<T>(s: seq<T>, x: T)
    requires x !in s
    ensures RemoveFirst(s + [x], x) == s
  {
    var t := s + [x];
    var i := IndexOf(t, x);
    assert forall k :: 0 <= k < |s| ==> t[k] == s[k];
    assert t[..i] == s;
  }

  /** Without repeats, `remove` takes the item out entirely and leaves no repeats. */
  lemma RemoveFirstDistinct<T>(s: seq<T>, x: T)
    requires NoDuplicates(s) && x in s
    ensures x !in RemoveFirst(s, x)
    ensures NoDuplicates(RemoveFirst(s, x))
  {
    var i := IndexOf(s, x);
    var r := RemoveFirst(s, x);
    assert r == s[..i] + s[i + 1..];
    forall k | 0 <= k < |r|
      ensures r[k] != x
    {
      if k < i {
        assert r[k] == s[k];
      } else {
        assert r[k] == s[k + 1];
      }
    }
    forall a, b | 0 <= a < b < |r|
      ensures r[a] != r[b]
    {
      var a' := if a < i then a else a + 1;
      var b' := if b < i then b else b + 1;
      assert r[a] == s[a'] && r[b] == s[b'];
    }
  }

  /** The test `y != x`. */
  function Other<T(==)>(x: T): T -> bool {
    y => y != x
  }

  /** In a list without repeats, `remove(x)` keeps every other item, in order. */
  lemma RemoveFirstIsFilter<T>(s: seq<T>, x: T)
    requires NoDuplicates(s) && x in s
    ensures RemoveFirst(s, x) == Filter(s, Other(x))
  {
    var i := IndexOf(s, x);
    var a, b := s[..i], s[i + 1..];
    assert s == a + [x] + b;
    assert forall k :: 0 <= k < |a| ==> a[k] != x by {
      forall k | 0 <= k < |a| ensures a[k] != x { assert a[k] == s[k]; }
    }
    assert forall k :: 0 <= k < |b| ==> b[k] != x by {
      forall k | 0 <= k < |b| ensures b[k] != x { assert b[k] == s[i + 1 + k]; }
    }
    FilterSkipOne(a, x, b, Other(x));
  }

  /** Filtering out one rejected item between two wholly accepted runs joins the runs. */
  lemma FilterSkipOne<T>(a: seq<T>, x: T, b: seq<T>, keep: T -> bool)
    requires forall k :: 0 <= k < |a| ==> keep(a[k])
    requires forall k :: 0 <= k < |b| ==> keep(b[k])
    requires !keep(x)
    ensures Filter(a + [x] + b, keep) == a + b
  {
    FilterConcat(a + [x], b, keep);
    FilterSnoc(a, x, keep);
    FilterKeepsAll(a, keep);
    FilterKeepsAll(b, keep);
    assert a + [] == a;
  }

  function Swap<T>(s: seq<T>, i: nat, j: nat): (r: seq<T>)
    requires i < |s| && j < |s|
    ensures |r| == |s|
    ensures multiset(r) == multiset(s)
  {
    s[i := s[j]][j := s[i]]
  }

  /**
   * `random.shuffle(s)`: Fisher-Yates from position `i` down to 1, where
   * `draws` supplies the random numbers (each taken modulo the range the
   * library draws from).
   */
  function ShuffleDown<T>(s: seq<T>, i: nat, draws: seq<nat>): (r: seq<T>)
    requires i < |s|
    ensures |r| == |s|
    ensures multiset(r) == multiset(s)
    decreases i
  {
    if i == 0 then s
    else
      var d := if |draws| > 0 then draws[0] else 0;
      var rest := if |draws| > 0 then draws[1..] else [];
      ShuffleDown(Swap(s, i, d % (i + 1)), i - 1, rest)
  }

  /** `random.shuffle(s)` on a whole list. */
  function Shuffle<T>(s: seq<T>, draws: seq<nat>): (r: seq<T>)
    ensures |r| == |s|
    ensures multiset(r) == multiset(s)
  {
    if s == [] then s else ShuffleDown(s, |s| - 1, draws)
  }
}
