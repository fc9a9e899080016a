/**
 * The history manager of the library generation.  It keeps the loaded
 * history in memory, appends every wallpaper that is set, trims to a
 * limit, and writes the list back after each change (the writes are not
 * part of this model).  Entries are those of `LibHistoryEntry`.
 */
module LibHistory {
  import opened Base
  import opened Json
  import PySeq
  import opened LibHistoryEntry

  datatype HistoryError = EntryNotFound(index: int)

  /** The JSON list `_write` saves and `_load_history` reads back. */
  function Saved(entries: seq<Entry>): (r: Json)
    ensures r.Arr? && |r.items| == |entries|
  {
    Arr(seq(|entries|, i requires 0 <= i < |entries| => ToDict(entries[i])))
  }

  /** Every entry in the saved list reads back unchanged. */
  lemma SavedReadsBack(entries: seq<Entry>, i: nat)
    requires i < |entries|
    ensures FromDict(Saved(entries).items[i]) == Ok(entries[i])
  {
    FromToDict(entries[i]);
  }

  /** `get(index)`: the entry at a Python index, `None` when out of range. */
  function Get(history: seq<Entry>, index: int): (r: Option<Entry>)
    ensures r.Some? <==> -|history| <= index < |history|
    ensures index >= 0 && r.Some? ==> r.value == history[index]
    ensures index < 0 && r.Some? ==> r.value == history[|history| + index]
  {
    PySeq.At(history, index)
  }

  /** `get()` with no index: every entry, oldest first. */
  function GetAll(history: seq<Entry>): (r: seq<Entry>)
    ensures |r| == |history|
    ensures forall i :: 0 <= i < |r| ==> Some(r[i]) == Get(history, i)
  {
    history
  }

  /** `add(path)`: append an entry stamped `now`, then keep the last `limit` (`history[-limit:]`). */
  function Add(history: seq<Entry>, path: string, now: int, limit: int): (r: seq<Entry>)
    ensures PySeq.KeepsNewest(r, history + [Entry(path, now)], limit)
    ensures limit >= 1 ==> r != [] && r[|r| - 1] == Entry(path, now)
  {
    PySeq.SliceFromNewest(history + [Entry(path, now)], limit);
    PySeq.SliceFrom(history + [Entry(path, now)], -limit)
  }

  /**
   * With a positive limit the new entry is always last, nothing beyond the
   * limit survives, and what remains is the newest part of the old list.
   */
  lemma AddKeepsNewest(history: seq<Entry>, path: string, now: int, limit: int)
    requires limit >= 1
    ensures var r := Add(history, path, now, limit);
            |r| == (if |history| + 1 < limit then |history| + 1 else limit) &&
            r[|r| - 1] == Entry(path, now) &&
            r[..|r| - 1] == history[|history| + 1 - |r|..]
  {
    var full := history + [Entry(path, now)];
    var r := Add(history, path, now, limit);
    assert r == full[|full| - |r|..];
    assert r[..|r| - 1] == full[|full| - |r|..|full| - 1];
  }

  /** A limit of zero keeps everything (`history[-0:]` is the whole list); repeats are never merged. */
  lemma AddZeroLimit(history: seq<Entry>, path: string, now: int)
    ensures Add(history, path, now, 0) == history + [Entry(path, now)]
  {
  }

  /** `get_recent_entries`: entries whose age is strictly below the timeout. */
  function RecentEntries(history: seq<Entry>, now: int, timeout: int): (r: seq<Entry>)
    ensures forall i :: 0 <= i < |r| ==> r[i] in history && now - r[i].time < timeout
    ensures forall i :: 0 <= i < |history| && now - history[i].time < timeout ==> history[i] in r
  {
    PySeq.Filter(history, (e: Entry) => now - e.time < timeout)
  }

  /** `is_empty`. */
  predicate IsEmpty(history: seq<Entry>) {
    |history| == 0
  }

  /** `remove_all`. */
  function RemoveAll(history: seq<Entry>): (r: seq<Entry>)
    ensures IsEmpty(r)
  {
    []
  }

  /** `remove_by_index(index)`: `del history[index]` with Python indexing. */
  function RemoveByIndex(history: seq<Entry>, index: int): (r: Result<seq<Entry>, HistoryError>)
    ensures r.Err? <==> Get(history, index).None?
    ensures r.Err? ==> r.error == EntryNotFound(index)
    ensures r.Ok? ==> |r.value| == |history| - 1
  {
    match PySeq.Delete(history, index)
    case Some(rest) => Ok(rest)
    case None => Err(EntryNotFound(index))
  }

  /** Removing position `k` shifts every later entry down by one and keeps the earlier ones. */
  lemma RemoveByIndexShifts(history: seq<Entry>, k: nat, j: nat)
    requires k < |history| && j < |history| - 1
    ensures RemoveByIndex(history, k).Ok?
    ensures Get(RemoveByIndex(history, k).value, j) == Get(history, if j < k then j else j + 1)
  {
  }

  /** `-1` removes the newest entry, the one `get(-1)` returns. */
  lemma RemoveNewest(history: seq<Entry>)
    requires |history| >= 1
    ensures RemoveByIndex(history, -1) == Ok(history[..|history| - 1])
    ensures Get(history, -1) == Some(history[|history| - 1])
  {
    assert history[..|history| - 1] + history[|history|..] == history[..|history| - 1];
  }
}
