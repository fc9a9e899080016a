/**
 * The pure helpers of `sw_cli/utils/common.py`: resolving `@N` against a
 * list (favourites or history) and wording a number of seconds.
 */
module CliCommon {
  import opened Base
  import opened PyStr
  import PySeq
  import Durations

  /** The `ValueError` raised for a bad `@N`; it names the index as given. */
  datatype IndexError = InvalidIndex(index: string)

  /** The number after the marker: `int(index[1:])`. */
  function IndexNumber(index: string): Option<int> {
    ParseInt(PySeq.SliceFrom(index, 1))
  }

  /**
   * The entry `@idx` names: 1-based from the front for a positive `idx`,
   * from the back for a negative one, none for 0 or past either end.
   */
  function EntryAt<T>(idx: int, entries: seq<T>): (r: Option<T>)
    ensures idx == 0 ==> r.None?
    ensures idx > 0 ==> (r.Some? <==> idx <= |entries|) && (r.Some? ==> r.value == entries[idx - 1])
    ensures idx < 0 ==> (r.Some? <==> -idx <= |entries|) && (r.Some? ==> r.value == entries[|entries| + idx])
  {
    if idx == 0 then None
    else PySeq.At(entries, if idx > 0 then idx - 1 else idx)
  }

  /**
   * `resolve_indexed_path(index, entries)`: a suffix that is not a number
   * and an index `EntryAt` rejects are both `ValueError`.
   */
  function ResolveIndexedPath<T>(index: string, entries: seq<T>): (r: Result<T, IndexError>)
    ensures r.Err? ==> r.error == InvalidIndex(index)
    ensures r.Ok? <==> IndexNumber(index).Some? && EntryAt(IndexNumber(index).value, entries).Some?
    ensures r.Ok? ==> Some(r.value) == EntryAt(IndexNumber(index).value, entries)
  {
    var n := IndexNumber(index);
    if n.None? then Err(InvalidIndex(index))
    else
      var e := EntryAt(n.value, entries);
      if e.None? then Err(InvalidIndex(index)) else Ok(e.value)
  }

  /** What follows the marker of `"@" + str(i)` is `str(i)`. */
  lemma IndexNumberOf(i: int)
    ensures IndexNumber("@" + IntToString(i)) == Some(i)
  {
    assert PySeq.SliceFrom("@" + IntToString(i), 1) == IntToString(i);
    ParseIntToString(i);
  }

  /**
   * Every entry can be named both ways: entry `k` is `@(k+1)` and also
   * `@(k-len)`, counting from the back (`IndexNumberOf` gives the number
   * of `"@" + str(i)`).
   */
  lemma ResolveEveryEntry<T>(index: string, entries: seq<T>, k: nat)
    requires k < |entries|
    requires IndexNumber(index) == Some(k + 1) || IndexNumber(index) == Some(k - |entries|)
    ensures ResolveIndexedPath(index, entries) == Ok(entries[k])
  {
    var n := IndexNumber(index).value;
    assert EntryAt(n, entries) == Some(entries[k]);
  }

  /** No index resolves against an empty list. */
  lemma ResolveEmpty<T>(index: string, entries: seq<T>)
    requires entries == []
    ensures ResolveIndexedPath(index, entries).Err?
  {
  }

  const InvalidTime: string := "Invalid time"

  /** `prettify_time(seconds)` for a whole number of seconds. */
  function PrettifyTime(seconds: int): (r: string)
    ensures seconds < 0 <==> r == InvalidTime
    ensures r == "a moment" <==> seconds == 0
  {
    if seconds < 0 then InvalidTime
    else
      SpellNotInvalid(seconds);
      Durations.Spell(seconds)
  }

  lemma SpellNotInvalid(n: int)
    ensures Durations.Spell(n) != InvalidTime
  {
    Durations.ReadSpell(n);
    Durations.ReadInvalidTime();
  }

  /** A wording of a non-negative time reads back as that time. */
  lemma PrettifyTimeRead(seconds: int)
    requires seconds >= 0
    ensures Durations.Read(PrettifyTime(seconds)) == Some(seconds)
  {
    Durations.ReadSpell(seconds);
  }

  /** Different times get different wordings, except that every negative time is refused alike. */
  lemma PrettifyTimeInjective(a: int, b: int)
    requires PrettifyTime(a) == PrettifyTime(b)
    ensures a == b || (a < 0 && b < 0)
  {
    if a >= 0 && b >= 0 {
      PrettifyTimeRead(a);
      PrettifyTimeRead(b);
    }
  }
}
