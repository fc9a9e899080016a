/**
 * The value handling the `config set` commands of both generations share
 * (`sw_cli/cmds/config_cmd.py` and `sw/cmds/config.py` carry the same
 * two helpers): how one command-line word becomes a stored value, and
 * how `--append` and `--remove` change a stored list.  The words given on
 * the command line are strings; a stored list may hold any JSON value.
 */
module ConfigValues {
  import opened PyStr
  import PySeq
  import opened Json

  /** `parse_val`: an integer when `int(val)` accepts the word, else the word stripped (floats left out). */
  function ParseVal(val: string): (r: Json)
    ensures r.Int? || r.Str?
    ensures r.Str? ==> Stripped(r.s)
  {
    match ParseInt(val)
    case Some(n) => Int(n)
    case None => Str(Strip(val))
  }

  /** Parsing is stable: what `parse_val` produced, written back as text, parses to itself. */
  lemma ParseValRoundTrip(val: string)
    ensures ParseVal(val).Int? ==> ParseVal(IntToString(ParseVal(val).i)) == ParseVal(val)
    ensures ParseVal(val).Str? ==> ParseVal(ParseVal(val).s) == ParseVal(val)
  {
    match ParseInt(val)
    case Some(n) =>
      ParseIntToString(n);
    case None =>
      StripIdempotent(val);
      assert ParseInt(Strip(val)) == ParseStripped(Strip(Strip(val)));
  }

  /** The text `str(i)` of an integer is stored as that integer. */
  lemma ParseValInt(i: int)
    ensures ParseVal(IntToString(i)) == Int(i)
  {
    ParseIntToString(i);
  }

  /** The command-line words as list items. */
  function Words(values: seq<string>): (r: seq<Json>)
    ensures |r| == |values|
    ensures forall k :: 0 <= k < |values| ==> r[k] == Str(values[k])
  {
    seq(|values|, k requires 0 <= k < |values| => Str(values[k]))
  }

  /** `--append`: `list(dict.fromkeys(current + values))`. */
  function Appended(current: seq<Json>, values: seq<string>): (r: seq<Json>)
    ensures PySeq.NoDuplicates(r)
    ensures forall k :: 0 <= k < |r| ==> r[k] in current || r[k] in Words(values)
    ensures forall k :: 0 <= k < |current| ==> current[k] in r
    ensures forall k :: 0 <= k < |values| ==> Str(values[k]) in r
  {
    var all := current + Words(values);
    assert forall k :: 0 <= k < |current| ==> all[k] == current[k];
    assert forall k :: 0 <= k < |values| ==> all[|current| + k] == Str(values[k]);
    PySeq.Dedup(all)
  }

  /**
   * The order `--append` leaves: the current list's first occurrences,
   * then the words it lacks, each once, in the order they were given.
   */
  lemma AppendedOrder(current: seq<Json>, values: seq<string>)
    ensures Appended(current, values) ==
            PySeq.Dedup(current) + PySeq.Dedup(PySeq.Filter(Words(values), PySeq.Outside(current)))
  {
    PySeq.DedupAppend(current, Words(values));
  }

  /** Appending keeps the list it started from in front, in its order (de-duplicated). */
  lemma AppendKeepsCurrent(current: seq<Json>, values: seq<string>)
    ensures |PySeq.Dedup(current)| <= |Appended(current, values)|
    ensures Appended(current, values)[..|PySeq.Dedup(current)|] == PySeq.Dedup(current)
    ensures PySeq.NoDuplicates(current) ==>
              |current| <= |Appended(current, values)| && Appended(current, values)[..|current|] == current
  {
    PySeq.DedupPrefix(current, Words(values));
    if PySeq.NoDuplicates(current) {
      PySeq.DedupDistinct(current);
    }
  }

  /** Appending the same words twice is appending them once. */
  lemma AppendIdempotent(current: seq<Json>, values: seq<string>)
    ensures Appended(Appended(current, values), values) == Appended(current, values)
  {
    var once := Appended(current, values);
    PySeq.DedupAbsorbs(once, Words(values));
  }

  /** Appending words a list of distinct items already holds leaves it as it is. */
  lemma AppendPresent(current: seq<Json>, values: seq<string>)
    requires PySeq.NoDuplicates(current)
    requires forall k :: 0 <= k < |values| ==> Str(values[k]) in current
    ensures Appended(current, values) == current
  {
    PySeq.DedupAbsorbs(current, Words(values));
  }

  /** The test `v not in values` of the `--remove` comprehension. */
  function NotIn(words: seq<Json>): Json -> bool {
    x => x !in words
  }

  /** `--remove`: `[v for v in current if v not in values]`. */
  function Removed(current: seq<Json>, values: seq<string>): (r: seq<Json>)
    ensures |r| <= |current|
    ensures forall k :: 0 <= k < |r| ==> r[k] in current && r[k] !in Words(values)
    ensures forall k :: 0 <= k < |current| && current[k] !in Words(values) ==> current[k] in r
    ensures forall x :: multiset(r)[x] == if x in Words(values) then 0 else multiset(current)[x]
  {
    PySeq.FilterCount(current, NotIn(Words(values)));
    PySeq.Filter(current, NotIn(Words(values)))
  }

  /**
   * `--remove` keeps the order: removing from a list made of two parts
   * removes from each part, and one more item at the end stays last
   * unless it is removed.
   */
  lemma RemovedInOrder(a: seq<Json>, b: seq<Json>, x: Json, values: seq<string>)
    ensures Removed(a + b, values) == Removed(a, values) + Removed(b, values)
    ensures Removed(a + [x], values) == Removed(a, values) + (if x in Words(values) then [] else [x])
  {
    PySeq.FilterConcat(a, b, NotIn(Words(values)));
    PySeq.FilterSnoc(a, x, NotIn(Words(values)));
  }

  /** Removing the same words twice is removing them once. */
  lemma RemoveIdempotent(current: seq<Json>, values: seq<string>)
    ensures Removed(Removed(current, values), values) == Removed(current, values)
  {
    var f := NotIn(Words(values));
    PySeq.FilterFilter(current, f, f);
    PySeq.FilterSame(current, PySeq.Both(f, f), f);
  }

  /** Removing words the list does not hold leaves it as it is. */
  lemma RemoveAbsentWords(current: seq<Json>, values: seq<string>)
    requires forall k :: 0 <= k < |values| ==> Str(values[k]) !in current
    ensures Removed(current, values) == current
  {
    var f := NotIn(Words(values));
    forall k | 0 <= k < |current|
      ensures f(current[k])
    {
      forall j | 0 <= j < |values|
        ensures Words(values)[j] != current[k]
      {
      }
    }
    PySeq.FilterKeepsAll(current, f);
  }

  /** What appending adds after a list of distinct items comes from the words alone. */
  lemma AppendedTail(current: seq<Json>, values: seq<string>)
    requires PySeq.NoDuplicates(current)
    ensures |current| <= |Appended(current, values)|
    ensures Appended(current, values) == current + Appended(current, values)[|current|..]
    ensures var a := Appended(current, values);
            forall k :: |current| <= k < |a| ==> a[k] !in current && a[k] in Words(values)
    ensures Appended(current, values)[|current|..] == PySeq.Dedup(PySeq.Filter(Words(values), PySeq.Outside(current)))
  {
    var a := Appended(current, values);
    var n := |current|;
    AppendedOrder(current, values);
    PySeq.DedupDistinct(current);
    AppendKeepsCurrent(current, values);
    assert a[..n] == current;
    forall k | n <= k < |a|
      ensures a[k] !in current && a[k] in Words(values)
    {
      forall j | 0 <= j < n
        ensures current[j] != a[k]
      {
        assert a[..n][j] == a[j];
        assert a[j] != a[k];
      }
      assert a[k] in current || a[k] in Words(values);
    }
    assert a == a[..n] + a[n..];
  }

  /** Appending words and then removing them gives back a list of distinct items that held none of them. */
  lemma AppendThenRemove(current: seq<Json>, values: seq<string>)
    requires PySeq.NoDuplicates(current)
    requires forall k :: 0 <= k < |values| ==> Str(values[k]) !in current
    ensures Removed(Appended(current, values), values) == current
  {
    var a := Appended(current, values);
    AppendedTail(current, values);
    var tail := a[|current|..];
    RemovedInOrder(current, tail, Null, values);
    RemoveAll(tail, values);
    RemoveAbsentWords(current, values);
    assert current + [] == current;
  }

  /** Removing words from a list made only of those words leaves nothing. */
  lemma RemoveAll(tail: seq<Json>, values: seq<string>)
    requires forall k :: 0 <= k < |tail| ==> tail[k] in Words(values)
    ensures Removed(tail, values) == []
  {
    PySeq.FilterRejectsAll(tail, NotIn(Words(values)));
  }
}
