/**
 * The listing and pruning logic that the three `history` commands share:
 * numbering entries as `enumerate` does, keeping the first entry of each
 * path, the `--since` and `--duplicates` filters of `rm`, and its
 * deletion loop, which runs from the highest index down and never removes
 * the newest entry.
 *
 * The entry classes of all three generations define no equality, so the
 * commands' `entry in remaining` tests compare identities.  Every entry
 * object comes from its own `from_dict` call, so an entry is named here by
 * its position in the list the command read.  Entries are of any type,
 * with `pathOf` and `timeOf` reading their two fields.
 */
module HistorySelect {
  import opened Base
  import PySeq

  /** A pair `(i, entry)` of `enumerate`. */
  datatype Numbered<T> = Numbered(index: nat, entry: T)

  /** `list(enumerate(entries))`. */
  function Enumerate<T(==)>(entries: seq<T>): (r: seq<Numbered<T>>)
    ensures |r| == |entries|
    ensures forall k :: 0 <= k < |r| ==> r[k] == Numbered(k, entries[k])
  {
    seq(|entries|, k requires 0 <= k < |entries| => Numbered(k, entries[k]))
  }

  /** `ns` lists `entries` from position `start` to the end, each entry with its own position. */
  predicate NumberedFrom<T(==)>(ns: seq<Numbered<T>>, entries: seq<T>, start: int) {
    0 <= start <= |entries| && |ns| == |entries| - start &&
    forall k :: 0 <= k < |ns| ==> ns[k] == Numbered(start + k, entries[start + k])
  }

  /** Positions never repeat and only grow. */
  predicate Ascending<T(==)>(ns: seq<Numbered<T>>) {
    forall k, l :: 0 <= k < l < |ns| ==> ns[k].index < ns[l].index
  }

  lemma EnumerateFrom<T>(entries: seq<T>, start: nat)
    requires start <= |entries|
    ensures NumberedFrom(Enumerate(entries)[start..], entries, start)
  {
  }

  lemma NumberedAscending<T>(ns: seq<Numbered<T>>, entries: seq<T>, start: int)
    requires NumberedFrom(ns, entries, start)
    ensures Ascending(ns)
  {
  }

  /**
   * `list(enumerate(entries))[max(0, len(entries) - lines):]` when `lines`
   * is given, every pair otherwise (the listing of the two older
   * generations).  A `lines` of zero or less lists nothing.
   */
  function SelectLast<T(==)>(entries: seq<T>, lines: Option<int>): (r: seq<Numbered<T>>)
    ensures NumberedFrom(r, entries, |entries| - |r|)
    ensures lines.None? ==> |r| == |entries|
    ensures lines.Some? ==> |r| == if lines.value <= 0 then 0 else if lines.value < |entries| then lines.value else |entries|
  {
    var numbered := Enumerate(entries);
    if lines.None? then numbered
    else
      var start := if |entries| - lines.value > 0 then |entries| - lines.value else 0;
      if start >= |entries| then []
      else
        EnumerateFrom(entries, start);
        numbered[start..]
  }

  /**
   * A listing of `selection`: pairs of it in ascending position, each the
   * entry at its position; all of them without `--unique`, and with it
   * every path once, as its lowest-positioned pair.
   */
  predicate ListingOf<T(==)>(r: seq<Numbered<T>>, entries: seq<T>, selection: seq<Numbered<T>>, unique: bool,
                             pathOf: T -> string)
  {
    (forall k :: 0 <= k < |r| ==> r[k] in selection && r[k].index < |entries| && r[k].entry == entries[r[k].index]) &&
    Ascending(r) &&
    (!unique ==> r == selection) &&
    (unique ==> PathsOf(r, pathOf) == PathsOf(selection, pathOf)) &&
    (unique ==> forall k, l :: 0 <= k < l < |r| ==> pathOf(r[k].entry) != pathOf(r[l].entry)) &&
    (unique ==> forall k, j :: 0 <= k < |r| && 0 <= j < |selection| && pathOf(selection[j].entry) == pathOf(r[k].entry) ==>
                  r[k].index <= selection[j].index)
  }

  /**
   * What a listing prints: pairs of the selection in its order, each with
   * the position of its entry in the whole history; with `--unique`, each
   * path once, as the pair with the lowest position.
   */
  method Listed<T(==)>(entries: seq<T>, selection: seq<Numbered<T>>, unique: bool, pathOf: T -> string)
    returns (r: seq<Numbered<T>>)
    requires NumberedFrom(selection, entries, |entries| - |selection|)
    ensures ListingOf(r, entries, selection, unique, pathOf)
  {
    NumberedAscending(selection, entries, |entries| - |selection|);
    if unique {
      r := Unique(selection, pathOf);
      FirstOccurrencesPaths(selection, pathOf);
      FirstOccurrencesEarliest(selection, pathOf);
    } else {
      r := selection;
    }
  }

  /** The listing of `history list`: the last `lines` entries, then `--unique`. */
  method ListLast<T(==)>(entries: seq<T>, lines: Option<int>, unique: bool, pathOf: T -> string)
    returns (r: seq<Numbered<T>>)
    ensures ListingOf(r, entries, SelectLast(entries, lines), unique, pathOf)
  {
    r := Listed(entries, SelectLast(entries, lines), unique, pathOf);
  }

  // ---------------------------------------------------------------------
  // `--unique`
  // ---------------------------------------------------------------------

  /** No element before `ns[p]` has its path. */
  predicate FirstOf<T(==)>(ns: seq<Numbered<T>>, p: nat, pathOf: T -> string)
    requires p < |ns|
  {
    forall j :: 0 <= j < p ==> pathOf(ns[j].entry) != pathOf(ns[p].entry)
  }

  /** Reference for `--unique`: the elements that are the first with their path, in order. */
  function FirstOccurrences<T(==)>(ns: seq<Numbered<T>>, pathOf: T -> string): seq<Numbered<T>>
  {
    if ns == [] then []
    else
      FirstOccurrences(ns[..|ns| - 1], pathOf) + (if FirstOf(ns, |ns| - 1, pathOf) then [ns[|ns| - 1]] else [])
  }

  function PathsOf<T(==)>(ns: seq<Numbered<T>>, pathOf: T -> string): set<string> {
    set k | 0 <= k < |ns| :: pathOf(ns[k].entry)
  }

  /** The `--unique` loop: a `seen` set of paths, and each pair kept when its path is new. */
  method Unique<T(==)>(ns: seq<Numbered<T>>, pathOf: T -> string) returns (r: seq<Numbered<T>>)
    ensures r == FirstOccurrences(ns, pathOf)
  {
    var seen: set<string> := {};
    r := [];
    var i := 0;
    while i < |ns|
      invariant i <= |ns|
      invariant r == FirstOccurrences(ns[..i], pathOf)
      invariant seen == PathsOf(ns[..i], pathOf)
    {
      var next := ns[..i + 1];
      assert next[..i] == ns[..i];
      assert forall j :: 0 <= j < i ==> next[j] == ns[..i][j];
      var path := pathOf(ns[i].entry);
      assert FirstOf(next, i, pathOf) <==> path !in seen;
      if path !in seen {
        seen := seen + {path};
        r := r + [ns[i]];
      }
      assert PathsOf(next, pathOf) == PathsOf(ns[..i], pathOf) + {path} by {
        forall q | q in PathsOf(next, pathOf)
          ensures q in PathsOf(ns[..i], pathOf) + {path}
        {
          var k :| 0 <= k < |next| && pathOf(next[k].entry) == q;
          if k < i {
            assert ns[..i][k] == next[k];
          }
        }
      }
      i := i + 1;
    }
    assert ns[..|ns|] == ns;
  }

  /** One more element: `--unique` keeps it after the earlier ones exactly when its path is new. */
  lemma FirstOccurrencesStep<T>(ns: seq<Numbered<T>>, pathOf: T -> string)
    requires ns != []
    ensures var init := ns[..|ns| - 1];
            (forall k :: 0 <= k < |init| ==> init[k] == ns[k]) &&
            (FirstOf(ns, |ns| - 1, pathOf) ==> FirstOccurrences(ns, pathOf) == FirstOccurrences(init, pathOf) + [ns[|ns| - 1]]) &&
            (!FirstOf(ns, |ns| - 1, pathOf) ==> FirstOccurrences(ns, pathOf) == FirstOccurrences(init, pathOf))
  {
  }

  /** `--unique` keeps elements of the selection only. */
  lemma {:induction false} FirstOccurrencesIn<T>(ns: seq<Numbered<T>>, pathOf: T -> string)
    ensures var r := FirstOccurrences(ns, pathOf);
            forall k :: 0 <= k < |r| ==> r[k] in ns
  {
    if ns != [] {
      var init := ns[..|ns| - 1];
      FirstOccurrencesStep(ns, pathOf);
      FirstOccurrencesIn(init, pathOf);
      var r0 := FirstOccurrences(init, pathOf);
      var r := FirstOccurrences(ns, pathOf);
      forall k | 0 <= k < |r|
        ensures r[k] in ns
      {
        if k < |r0| {
          assert r[k] == r0[k];
          var m :| 0 <= m < |init| && init[m] == r0[k];
          assert ns[m] == init[m];
        } else {
          assert r[k] == ns[|ns| - 1];
        }
      }
    }
  }

  /** Every path of the selection is still present after `--unique`. */
  lemma {:induction false} FirstOccurrencesCover<T>(ns: seq<Numbered<T>>, pathOf: T -> string)
    ensures PathsOf(FirstOccurrences(ns, pathOf), pathOf) == PathsOf(ns, pathOf)
  {
    if ns != [] {
      var init := ns[..|ns| - 1];
      var x := ns[|ns| - 1];
      FirstOccurrencesStep(ns, pathOf);
      FirstOccurrencesCover(init, pathOf);
      FirstOccurrencesIn(ns, pathOf);
      var r0 := FirstOccurrences(init, pathOf);
      var r := FirstOccurrences(ns, pathOf);
      forall q | q in PathsOf(ns, pathOf)
        ensures q in PathsOf(r, pathOf)
      {
        var k :| 0 <= k < |ns| && pathOf(ns[k].entry) == q;
        if k < |init| {
          assert pathOf(init[k].entry) == q;
          assert q in PathsOf(r0, pathOf);
          var m :| 0 <= m < |r0| && pathOf(r0[m].entry) == q;
          assert r[m] == r0[m];
        } else if FirstOf(ns, |ns| - 1, pathOf) {
          assert r[|r| - 1] == x;
        } else {
          var j :| 0 <= j < |ns| - 1 && pathOf(ns[j].entry) == pathOf(x.entry);
          assert pathOf(init[j].entry) == q;
          assert q in PathsOf(r0, pathOf);
        }
      }
      forall q | q in PathsOf(r, pathOf)
        ensures q in PathsOf(ns, pathOf)
      {
        var k :| 0 <= k < |r| && pathOf(r[k].entry) == q;
        var m :| 0 <= m < |ns| && ns[m] == r[k];
      }
    }
  }

  /** After `--unique` no path appears twice. */
  lemma {:induction false} FirstOccurrencesDistinct<T>(ns: seq<Numbered<T>>, pathOf: T -> string)
    ensures var r := FirstOccurrences(ns, pathOf);
            forall k, l :: 0 <= k < l < |r| ==> pathOf(r[k].entry) != pathOf(r[l].entry)
  {
    if ns != [] {
      var init := ns[..|ns| - 1];
      var x := ns[|ns| - 1];
      FirstOccurrencesStep(ns, pathOf);
      FirstOccurrencesDistinct(init, pathOf);
      FirstOccurrencesIn(init, pathOf);
      var r0 := FirstOccurrences(init, pathOf);
      var r := FirstOccurrences(ns, pathOf);
      if FirstOf(ns, |ns| - 1, pathOf) {
        forall k, l | 0 <= k < l < |r|
          ensures pathOf(r[k].entry) != pathOf(r[l].entry)
        {
          assert r[k] == r0[k];
          if l == |r| - 1 {
            var m :| 0 <= m < |init| && init[m] == r0[k];
            assert ns[m] == init[m];
            assert r[l] == x;
          } else {
            assert r[l] == r0[l];
          }
        }
      }
    }
  }

  /**
   * What `--unique` keeps: elements of the selection only, each path once,
   * and every path of the selection still present.
   */
  lemma FirstOccurrencesPaths<T>(ns: seq<Numbered<T>>, pathOf: T -> string)
    ensures var r := FirstOccurrences(ns, pathOf);
            (forall k :: 0 <= k < |r| ==> r[k] in ns) &&
            PathsOf(r, pathOf) == PathsOf(ns, pathOf) &&
            (forall k, l :: 0 <= k < l < |r| ==> pathOf(r[k].entry) != pathOf(r[l].entry))
  {
    FirstOccurrencesIn(ns, pathOf);
    FirstOccurrencesCover(ns, pathOf);
    FirstOccurrencesDistinct(ns, pathOf);
  }

  /** On a numbered selection, `--unique` keeps the order of the selection. */
  lemma {:induction false} FirstOccurrencesAscending<T>(ns: seq<Numbered<T>>, pathOf: T -> string)
    requires Ascending(ns)
    ensures Ascending(FirstOccurrences(ns, pathOf))
  {
    if ns != [] {
      var init := ns[..|ns| - 1];
      var x := ns[|ns| - 1];
      FirstOccurrencesStep(ns, pathOf);
      FirstOccurrencesAscending(init, pathOf);
      FirstOccurrencesIn(init, pathOf);
      var r0 := FirstOccurrences(init, pathOf);
      var r := FirstOccurrences(ns, pathOf);
      if FirstOf(ns, |ns| - 1, pathOf) {
        forall k, l | 0 <= k < l < |r|
          ensures r[k].index < r[l].index
        {
          assert r[k] == r0[k];
          if l == |r| - 1 {
            var m :| 0 <= m < |init| && init[m] == r0[k];
            assert ns[m] == init[m];
            assert r[l] == x;
          } else {
            assert r[l] == r0[l];
          }
        }
      }
    }
  }

  /** On a numbered selection, `--unique` keeps, for each path, the element with the lowest position. */
  lemma {:induction false} FirstOccurrencesLowest<T>(ns: seq<Numbered<T>>, pathOf: T -> string)
    requires Ascending(ns)
    ensures var r := FirstOccurrences(ns, pathOf);
            forall k, j :: 0 <= k < |r| && 0 <= j < |ns| && pathOf(ns[j].entry) == pathOf(r[k].entry) ==>
              r[k].index <= ns[j].index
  {
    if ns != [] {
      var init := ns[..|ns| - 1];
      var x := ns[|ns| - 1];
      FirstOccurrencesStep(ns, pathOf);
      FirstOccurrencesLowest(init, pathOf);
      FirstOccurrencesIn(init, pathOf);
      var r0 := FirstOccurrences(init, pathOf);
      var r := FirstOccurrences(ns, pathOf);
      forall k, j | 0 <= k < |r| && 0 <= j < |ns| && pathOf(ns[j].entry) == pathOf(r[k].entry)
        ensures r[k].index <= ns[j].index
      {
        if k < |r0| {
          assert r[k] == r0[k];
          if j < |init| {
            assert ns[j] == init[j];
          } else {
            var m :| 0 <= m < |init| && init[m] == r0[k];
            assert ns[m] == init[m];
          }
        } else {
          assert r[k] == x;
        }
      }
    }
  }

  /**
   * On a numbered selection, `--unique` keeps the order of the selection
   * and, for each path, the entry with the lowest position.
   */
  lemma FirstOccurrencesEarliest<T>(ns: seq<Numbered<T>>, pathOf: T -> string)
    requires Ascending(ns)
    ensures var r := FirstOccurrences(ns, pathOf);
            Ascending(r) &&
            forall k, j :: 0 <= k < |r| && 0 <= j < |ns| && pathOf(ns[j].entry) == pathOf(r[k].entry) ==>
              r[k].index <= ns[j].index
  {
    FirstOccurrencesAscending(ns, pathOf);
    FirstOccurrencesLowest(ns, pathOf);
  }

  // ---------------------------------------------------------------------
  // `rm --since` and `rm --duplicates`
  // ---------------------------------------------------------------------

  /** Every position in `rem` names an entry. */
  predicate Within(rem: seq<nat>, n: nat) {
    forall k :: 0 <= k < |rem| ==> rem[k] < n
  }

  predicate Increasing(rem: seq<nat>) {
    forall k, l :: 0 <= k < l < |rem| ==> rem[k] < rem[l]
  }

  /** The positions `0 .. n-1`: `remaining = entries[:]`. */
  function Positions(n: nat): (r: seq<nat>)
    ensures |r| == n && forall k :: 0 <= k < n ==> r[k] == k
  {
    seq(n, k requires 0 <= k < n => k as nat)
  }

  /** Position `p` passes `--since`: there is no cutoff, or its time is at or after it. */
  predicate Recent<T(==)>(entries: seq<T>, since: Option<int>, timeOf: T -> int, p: nat) {
    p < |entries| && (since.None? || timeOf(entries[p]) >= since.value)
  }

  /** A filter keeps an increasing list of positions increasing. */
  lemma {:induction false} FilterIncreasing(s: seq<nat>, keep: nat -> bool)
    requires Increasing(s)
    ensures Increasing(PySeq.Filter(s, keep))
  {
    if s != [] {
      FilterIncreasing(s[1..], keep);
      var rest := PySeq.Filter(s[1..], keep);
      assert forall k :: 0 <= k < |rest| ==> rest[k] in s[1..];
      assert forall k :: 0 <= k < |rest| ==> s[0] < rest[k];
    }
  }

  /** `remaining = [e for e in remaining if e.time >= cutoff]`, when a date is given. */
  function SinceFilter<T(==)>(entries: seq<T>, since: Option<int>, timeOf: T -> int): (r: seq<nat>)
    ensures Within(r, |entries|) && Increasing(r)
    ensures forall p: nat :: p in r <==> Recent(entries, since, timeOf, p)
    ensures |r| == |entries| <==> forall p: nat :: p < |entries| ==> Recent(entries, since, timeOf, p)
  {
    var all := Positions(|entries|);
    assert forall p: nat :: p < |entries| ==> all[p] == p;
    if since.None? then
      assert forall p: nat :: p in all <==> p < |entries| by {
        forall p: nat | p < |entries|
          ensures p in all
        {
          assert all[p] == p;
        }
      }
      all
    else
      var keep := (p: nat) => Recent(entries, since, timeOf, p);
      var r := PySeq.Filter(all, keep);
      FilterIncreasing(all, keep);
      PySeq.FilterLength(all, keep);
      assert forall p: nat :: p < |entries| ==> keep(all[p]) == Recent(entries, since, timeOf, p);
      r
  }

  /** The first position in `rem` whose entry has path `p`. */
  function FirstWith<T(==)>(entries: seq<T>, rem: seq<nat>, p: string, pathOf: T -> string): (r: Option<nat>)
    requires Within(rem, |entries|)
    ensures r.None? <==> forall k :: 0 <= k < |rem| ==> pathOf(entries[rem[k]]) != p
    ensures r.Some? ==> r.value in rem && pathOf(entries[r.value]) == p
  {
    if rem == [] then None
    else if pathOf(entries[rem[0]]) == p then Some(rem[0])
    else
      assert forall k :: 1 <= k < |rem| ==> rem[1..][k - 1] == rem[k];
      FirstWith(entries, rem[1..], p, pathOf)
  }

  /** No two positions in `rem` name entries with the same path. */
  predicate DistinctPaths<T(==)>(entries: seq<T>, rem: seq<nat>, pathOf: T -> string)
    requires Within(rem, |entries|)
  {
    forall k, l :: 0 <= k < l < |rem| ==> pathOf(entries[rem[k]]) != pathOf(entries[rem[l]])
  }

  /**
   * The `--duplicates` loop: walking `remaining` backwards and storing
   * `seen[path] = entry`, each path ends up with its earliest entry; the
   * dict has as many items as `remaining` exactly when no path repeats.
   */
  method EarliestByPath<T(==)>(entries: seq<T>, rem: seq<nat>, pathOf: T -> string) returns (seen: map<string, nat>)
    requires Within(rem, |entries|)
    ensures forall p :: p in seen <==> FirstWith(entries, rem, p, pathOf).Some?
    ensures forall p :: p in seen ==> Some(seen[p]) == FirstWith(entries, rem, p, pathOf)
    ensures |seen| <= |rem|
    ensures |seen| == |rem| <==> DistinctPaths(entries, rem, pathOf)
  {
    seen := map[];
    var j := |rem|;
    while j > 0
      invariant 0 <= j <= |rem|
      invariant forall p :: p in seen <==> FirstWith(entries, rem[j..], p, pathOf).Some?
      invariant forall p :: p in seen ==> Some(seen[p]) == FirstWith(entries, rem[j..], p, pathOf)
      invariant |seen| <= |rem| - j
      invariant |seen| == |rem| - j <==> DistinctPaths(entries, rem[j..], pathOf)
    {
      j := j - 1;
      var tail := rem[j..];
      assert tail[1..] == rem[j + 1..];
      DistinctStep(entries, tail, pathOf);
      var path := pathOf(entries[rem[j]]);
      seen := seen[path := rem[j]];
    }
    assert rem[0..] == rem;
  }

  /** One more position at the front keeps the paths distinct exactly when its path is new. */
  lemma DistinctStep<T>(entries: seq<T>, s: seq<nat>, pathOf: T -> string)
    requires Within(s, |entries|) && s != []
    ensures DistinctPaths(entries, s, pathOf) <==>
            DistinctPaths(entries, s[1..], pathOf) && FirstWith(entries, s[1..], pathOf(entries[s[0]]), pathOf).None?
  {
    var rest := s[1..];
    assert forall k :: 0 <= k < |rest| ==> rest[k] == s[k + 1];
    if DistinctPaths(entries, rest, pathOf) && FirstWith(entries, rest, pathOf(entries[s[0]]), pathOf).None? {
      forall k, l | 0 <= k < l < |s|
        ensures pathOf(entries[s[k]]) != pathOf(entries[s[l]])
      {
        if k > 0 {
          assert s[k] == rest[k - 1] && s[l] == rest[l - 1];
        } else {
          assert s[l] == rest[l - 1];
        }
      }
    }
  }

  /**
   * Reference for what survives both filters: position `p` passes
   * `--since`, and with `--duplicates` no earlier position that also
   * passes it has the same path.
   */
  predicate KeptAt<T(==)>(entries: seq<T>, since: Option<int>, duplicates: bool,
                      pathOf: T -> string, timeOf: T -> int, p: nat) {
    Recent(entries, since, timeOf, p) &&
    (!duplicates || forall j: nat :: j < p && Recent(entries, since, timeOf, j) ==> pathOf(entries[j]) != pathOf(entries[p]))
  }

  function KeptSet<T(==)>(entries: seq<T>, since: Option<int>, duplicates: bool,
                      pathOf: T -> string, timeOf: T -> int): (r: set<nat>)
    ensures forall p: nat :: p in r <==> KeptAt(entries, since, duplicates, pathOf, timeOf, p)
  {
    set p: nat | p < |entries| && KeptAt(entries, since, duplicates, pathOf, timeOf, p)
  }

  /** The entries the filters keep, and `len(remaining)`. */
  datatype Remaining = Remaining(kept: set<nat>, count: nat)

  /** `p` is in `rem`, and no lower position in `rem` has its path. */
  predicate LowestWithPath<T(==)>(entries: seq<T>, rem: seq<nat>, pathOf: T -> string, p: nat)
    requires Within(rem, |entries|) && p < |entries|
  {
    p in rem && forall k :: 0 <= k < |rem| && rem[k] < p ==> pathOf(entries[rem[k]]) != pathOf(entries[p])
  }

  lemma {:induction false} FirstIsLowest<T>(entries: seq<T>, rem: seq<nat>, pathOf: T -> string, p: nat)
    requires Within(rem, |entries|) && Increasing(rem) && p < |entries|
    requires FirstWith(entries, rem, pathOf(entries[p]), pathOf) == Some(p)
    ensures LowestWithPath(entries, rem, pathOf, p)
  {
    var q := pathOf(entries[p]);
    if pathOf(entries[rem[0]]) == q {
      assert rem[0] == p;
      assert forall k :: 0 <= k < |rem| ==> p <= rem[k];
    } else {
      var tail := rem[1..];
      FirstIsLowest(entries, tail, pathOf, p);
      var m :| 0 <= m < |tail| && tail[m] == p;
      assert rem[m + 1] == p;
      forall k | 0 <= k < |rem| && rem[k] < p
        ensures pathOf(entries[rem[k]]) != q
      {
        if k > 0 {
          assert rem[k] == tail[k - 1];
        }
      }
    }
  }

  lemma {:induction false} LowestIsFirst<T>(entries: seq<T>, rem: seq<nat>, pathOf: T -> string, p: nat)
    requires Within(rem, |entries|) && Increasing(rem) && p < |entries|
    requires LowestWithPath(entries, rem, pathOf, p)
    ensures FirstWith(entries, rem, pathOf(entries[p]), pathOf) == Some(p)
  {
    var q := pathOf(entries[p]);
    var tail := rem[1..];
    assert rem == [rem[0]] + tail;
    var m :| 0 <= m < |rem| && rem[m] == p;
    if pathOf(entries[rem[0]]) == q {
      assert rem[0] <= rem[m];
      assert !(rem[0] < p);
    } else {
      assert m > 0 && tail[m - 1] == p;
      forall k | 0 <= k < |tail| && tail[k] < p
        ensures pathOf(entries[tail[k]]) != q
      {
        assert tail[k] == rem[k + 1];
      }
      LowestIsFirst(entries, tail, pathOf, p);
    }
  }

  /**
   * The two filters of `rm` in their order: `--since`, then
   * `--duplicates`.  The positions they keep are exactly `KeptAt`, and
   * `len(remaining)` is the full count exactly when they keep everything.
   */
  method Filters<T(==)>(entries: seq<T>, since: Option<int>, duplicates: bool,
                    pathOf: T -> string, timeOf: T -> int) returns (rem: Remaining)
    ensures rem.kept == KeptSet(entries, since, duplicates, pathOf, timeOf)
    ensures rem.count <= |entries|
    ensures rem.count == |entries| <==> forall p: nat :: p < |entries| ==> KeptAt(entries, since, duplicates, pathOf, timeOf, p)
  {
    var recent := SinceFilter(entries, since, timeOf);
    if !duplicates {
      rem := Remaining(set k | 0 <= k < |recent| :: recent[k], |recent|);
      assert forall p: nat :: p in rem.kept <==> p in recent;
    } else {
      var seen := EarliestByPath(entries, recent, pathOf);
      rem := Remaining(seen.Values, |seen|);
      EarliestKept(entries, since, pathOf, timeOf, recent, seen);
      KeptEverything(entries, since, pathOf, timeOf, recent);
    }
  }

  /** The entries left in `seen` are exactly those `KeptAt` keeps under `--duplicates`. */
  lemma EarliestKept<T>(entries: seq<T>, since: Option<int>, pathOf: T -> string, timeOf: T -> int,
                        recent: seq<nat>, seen: map<string, nat>)
    requires recent == SinceFilter(entries, since, timeOf)
    requires forall p :: p in seen <==> FirstWith(entries, recent, p, pathOf).Some?
    requires forall p :: p in seen ==> Some(seen[p]) == FirstWith(entries, recent, p, pathOf)
    ensures seen.Values == KeptSet(entries, since, true, pathOf, timeOf)
  {
    forall p: nat
      ensures p in seen.Values <==> KeptAt(entries, since, true, pathOf, timeOf, p)
    {
      if p in seen.Values {
        SeenIsKept(entries, since, pathOf, timeOf, recent, seen, p);
      }
      if KeptAt(entries, since, true, pathOf, timeOf, p) {
        KeptIsSeen(entries, since, pathOf, timeOf, recent, seen, p);
      }
    }
  }

  lemma SeenIsKept<T>(entries: seq<T>, since: Option<int>, pathOf: T -> string, timeOf: T -> int,
                      recent: seq<nat>, seen: map<string, nat>, p: nat)
    requires recent == SinceFilter(entries, since, timeOf)
    requires forall p :: p in seen ==> Some(seen[p]) == FirstWith(entries, recent, p, pathOf)
    requires p in seen.Values
    ensures KeptAt(entries, since, true, pathOf, timeOf, p)
  {
    var q :| q in seen && seen[q] == p;
    var first := FirstWith(entries, recent, q, pathOf);
    assert first == Some(p);
    assert p in recent && q == pathOf(entries[p]);
    FirstIsLowest(entries, recent, pathOf, p);
    forall j: nat | j < p && Recent(entries, since, timeOf, j)
      ensures pathOf(entries[j]) != pathOf(entries[p])
    {
      var k :| 0 <= k < |recent| && recent[k] == j;
    }
  }

  lemma KeptIsSeen<T>(entries: seq<T>, since: Option<int>, pathOf: T -> string, timeOf: T -> int,
                      recent: seq<nat>, seen: map<string, nat>, p: nat)
    requires recent == SinceFilter(entries, since, timeOf)
    requires forall p :: p in seen <==> FirstWith(entries, recent, p, pathOf).Some?
    requires forall p :: p in seen ==> Some(seen[p]) == FirstWith(entries, recent, p, pathOf)
    requires KeptAt(entries, since, true, pathOf, timeOf, p)
    ensures p in seen.Values
  {
    var q := pathOf(entries[p]);
    forall k | 0 <= k < |recent| && recent[k] < p
      ensures pathOf(entries[recent[k]]) != q
    {
      assert Recent(entries, since, timeOf, recent[k]);
    }
    assert p in recent;
    LowestIsFirst(entries, recent, pathOf, p);
    assert q in seen && seen[q] == p;
  }

  /** Keeping every entry under `--duplicates` means every entry is recent and no recent path repeats. */
  lemma KeptEverything<T>(entries: seq<T>, since: Option<int>, pathOf: T -> string, timeOf: T -> int, recent: seq<nat>)
    requires recent == SinceFilter(entries, since, timeOf)
    ensures (|recent| == |entries| && DistinctPaths(entries, recent, pathOf)) <==>
            forall p: nat :: p < |entries| ==> KeptAt(entries, since, true, pathOf, timeOf, p)
  {
    if |recent| == |entries| && DistinctPaths(entries, recent, pathOf) {
      DistinctKeepsAll(entries, since, pathOf, timeOf, recent);
    }
    if forall p: nat :: p < |entries| ==> KeptAt(entries, since, true, pathOf, timeOf, p) {
      KeepsAllDistinct(entries, since, pathOf, timeOf, recent);
    }
  }

  lemma DistinctKeepsAll<T>(entries: seq<T>, since: Option<int>, pathOf: T -> string, timeOf: T -> int, recent: seq<nat>)
    requires recent == SinceFilter(entries, since, timeOf)
    requires |recent| == |entries| && DistinctPaths(entries, recent, pathOf)
    ensures forall p: nat :: p < |entries| ==> KeptAt(entries, since, true, pathOf, timeOf, p)
  {
    forall p: nat | p < |entries|
      ensures KeptAt(entries, since, true, pathOf, timeOf, p)
    {
      assert Recent(entries, since, timeOf, p);
      forall j: nat | j < p && Recent(entries, since, timeOf, j)
        ensures pathOf(entries[j]) != pathOf(entries[p])
      {
        assert p in recent && j in recent;
        var k :| 0 <= k < |recent| && recent[k] == j;
        var l :| 0 <= l < |recent| && recent[l] == p;
        assert k < l;
      }
    }
  }

  lemma KeepsAllDistinct<T>(entries: seq<T>, since: Option<int>, pathOf: T -> string, timeOf: T -> int, recent: seq<nat>)
    requires recent == SinceFilter(entries, since, timeOf)
    requires forall p: nat :: p < |entries| ==> KeptAt(entries, since, true, pathOf, timeOf, p)
    ensures |recent| == |entries| && DistinctPaths(entries, recent, pathOf)
  {
    forall p: nat | p < |entries|
      ensures Recent(entries, since, timeOf, p)
    {
      assert KeptAt(entries, since, true, pathOf, timeOf, p);
    }
    forall k, l | 0 <= k < l < |recent|
      ensures pathOf(entries[recent[k]]) != pathOf(entries[recent[l]])
    {
      var j, p := recent[k], recent[l];
      assert j < p && p < |entries|;
      assert KeptAt(entries, since, true, pathOf, timeOf, p);
      assert Recent(entries, since, timeOf, j);
    }
  }

  // ---------------------------------------------------------------------
  // The deletion loop
  // ---------------------------------------------------------------------

  /** Kept positions from `from` on, and the newest entry whatever the filters say. */
  predicate Survives<T(==)>(entries: seq<T>, kept: set<nat>, p: nat) {
    p in kept || p == |entries| - 1
  }

  /** Reference: the entries from `from` on that survive, in their order. */
  function Survivors<T(==)>(entries: seq<T>, kept: set<nat>, from: nat): seq<T>
    decreases |entries| - from
  {
    if from >= |entries| then []
    else (if Survives(entries, kept, from) then [entries[from]] else []) + Survivors(entries, kept, from + 1)
  }

  /** The paths the loop removes from `from` on, highest position first. */
  function Dropped<T(==)>(entries: seq<T>, kept: set<nat>, from: nat, pathOf: T -> string): seq<string>
    decreases |entries| - from
  {
    if from >= |entries| then []
    else Dropped(entries, kept, from + 1, pathOf) + (if Survives(entries, kept, from) then [] else [pathOf(entries[from])])
  }

  /**
   * `for i in reversed(range(len(entries)))`: skip the last index, and
   * remove position `i` when it was filtered out.  Working downwards, the
   * positions still to visit never move.
   */
  method DeleteUnkept<T(==)>(entries: seq<T>, kept: set<nat>, pathOf: T -> string) returns (history: seq<T>, removed: seq<string>)
    ensures history == Survivors(entries, kept, 0)
    ensures removed == Dropped(entries, kept, 0, pathOf)
    ensures |history| + |removed| == |entries|
  {
    history := entries;
    removed := [];
    var i := |entries|;
    while i > 0
      invariant 0 <= i <= |entries|
      invariant history == entries[..i] + Survivors(entries, kept, i)
      invariant removed == Dropped(entries, kept, i, pathOf)
      invariant |history| + |removed| == |entries|
    {
      i := i - 1;
      assert entries[..i + 1] == entries[..i] + [entries[i]];
      if i == |entries| - 1 {
        continue;
      }
      if i !in kept {
        removed := removed + [pathOf(entries[i])];
        var rest := Survivors(entries, kept, i + 1);
        assert history == entries[..i] + [entries[i]] + rest;
        var next := PySeq.RemoveAt(history, i);
        assert next == entries[..i] + rest;
        history := next;
      } else {
        assert history == entries[..i] + ([entries[i]] + Survivors(entries, kept, i + 1));
      }
    }
  }

  /** The newest entry always survives, and it stays last. */
  lemma {:induction false} SurvivorsKeepNewest<T>(entries: seq<T>, kept: set<nat>, from: nat)
    requires from < |entries|
    ensures var s := Survivors(entries, kept, from);
            s != [] && s[|s| - 1] == entries[|entries| - 1]
    decreases |entries| - from
  {
    if from + 1 < |entries| {
      SurvivorsKeepNewest(entries, kept, from + 1);
    }
  }

  /** When every position is kept, the loop removes nothing. */
  lemma {:induction false} SurvivorsKeepAll<T>(entries: seq<T>, kept: set<nat>, from: nat, pathOf: T -> string)
    requires from <= |entries|
    requires forall p: nat :: p < |entries| ==> p in kept
    ensures Survivors(entries, kept, from) == entries[from..]
    ensures Dropped(entries, kept, from, pathOf) == []
    decreases |entries| - from
  {
    if from < |entries| {
      SurvivorsKeepAll(entries, kept, from + 1, pathOf);
      assert entries[from..] == [entries[from]] + entries[from + 1..];
    }
  }

  /** Entries only ever go: what survives is a part of the list read, in order. */
  lemma {:induction false} SurvivorsOrder<T>(entries: seq<T>, kept: set<nat>, from: nat)
    requires from <= |entries|
    ensures |Survivors(entries, kept, from)| <= |entries| - from
    ensures forall k :: 0 <= k < |Survivors(entries, kept, from)| ==> Survivors(entries, kept, from)[k] in entries[from..]
    decreases |entries| - from
  {
    if from < |entries| {
      var rest := Survivors(entries, kept, from + 1);
      var head := if Survives(entries, kept, from) then [entries[from]] else [];
      var s := Survivors(entries, kept, from);
      assert s == head + rest;
      SurvivorsOrder(entries, kept, from + 1);
      var tail, whole := entries[from + 1..], entries[from..];
      assert whole == [entries[from]] + tail;
      forall k | 0 <= k < |s|
        ensures s[k] in whole
      {
        if k >= |head| {
          assert s[k] == rest[k - |head|];
          assert rest[k - |head|] in tail;
        }
      }
    }
  }

  /** What `rm` leaves in the history file (`None` when it writes nothing), and what it reports. */
  datatype Outcome<T> = Outcome(written: Option<seq<T>>, report: Report)

  /**
   * What filtered removal promises: it reports "No entries removed." and
   * writes nothing exactly when every entry is kept; a declined prompt
   * writes nothing; otherwise the report names the paths removed, and the
   * file is written (once per removal) exactly when that list is not
   * empty, so when only the newest entry was filtered out nothing is
   * written and the count is 0.  What is written is the surviving
   * entries, ending with the newest one.
   */
  predicate FilteredOutcome<T(==)>(entries: seq<T>, kept: set<nat>, proceed: bool, r: Outcome<T>, pathOf: T -> string)
    requires entries != []
  {
    (r.report == NoneRemoved <==> forall p: nat :: p < |entries| ==> p in kept) &&
    (r.report != NoneRemoved ==> (r.report == Aborted <==> !proceed)) &&
    (r.report != NoneRemoved && r.report != Aborted ==> r.report == RemovedEntries(Dropped(entries, kept, 0, pathOf))) &&
    (r.written.Some? <==> r.report.RemovedEntries? && r.report.paths != []) &&
    (r.written.Some? ==> r.written.value == Survivors(entries, kept, 0) &&
                         r.written.value != [] &&
                         r.written.value[|r.written.value| - 1] == entries[|entries| - 1])
  }

  /** The loop removes nothing from `from` on exactly when every position it visits there survives. */
  lemma {:induction false} DroppedEmpty<T>(entries: seq<T>, kept: set<nat>, from: nat, pathOf: T -> string)
    ensures Dropped(entries, kept, from, pathOf) == [] <==>
            forall p: nat :: from <= p < |entries| ==> Survives(entries, kept, p)
    decreases |entries| - from
  {
    if from < |entries| {
      DroppedEmpty(entries, kept, from + 1, pathOf);
      if !Survives(entries, kept, from) {
        assert Dropped(entries, kept, from, pathOf) != [];
      }
    }
  }

  /**
   * When the filters drop the newest entry and nothing else (`--duplicates`
   * on `[a, b, a]`, say), a confirmed removal writes nothing and reports
   * no paths, since the loop never visits the last index.
   */
  lemma OnlyNewestDroppedWritesNothing<T>(entries: seq<T>, kept: set<nat>, r: Outcome<T>, pathOf: T -> string)
    requires entries != [] && |entries| - 1 !in kept
    requires forall p: nat :: p < |entries| - 1 ==> p in kept
    requires FilteredOutcome(entries, kept, true, r, pathOf)
    ensures r == Outcome(None, RemovedEntries([]))
  {
    DroppedEmpty(entries, kept, 0, pathOf);
  }

  /** What `rm` reports: one outcome per `return` of the command. */
  datatype Report =
    | ReadFailed                           // "Failed to read history"
    | NoHistory                            // "No history to modify."
    | InvalidIndex(index: int, count: nat) // "Invalid index: ..."
    | Aborted                              // the confirmation was declined
    | RemovedEntry(path: string)           // "Removed entry ..."
    | Cleared                              // "All history cleared."
    | NoneRemoved                          // "No entries removed."
    | RemovedEntries(paths: seq<string>)   // "Removed entry: ..." for each, then the count
    | Confirmed                            // the prompt was answered and nothing more happens
}
