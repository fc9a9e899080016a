/**
 * The `history list` and `history rm` commands of
 * `sw_cli/cmds/history_cmd.py`, over the library history manager.  The
 * confirmation prompt is an answer given as a parameter (ignored with
 * `--yes`); declining raises `click.Abort`, which the command reports as
 * "Operation aborted by user.".  Every manager call writes the file.
 */
module CliHistoryCmd {
  import opened Base
  import PySeq
  import opened LibHistoryEntry
  import LibHistory
  import opened HistorySelect

  function PathOf(e: Entry): string { e.path }
  function TimeOf(e: Entry): int { e.time }

  /** `list(enumerate(all))[-lines:]` when `lines` is truthy, every pair when it is `None` or 0. */
  function Select(all: seq<Entry>, lines: Option<int>): (r: seq<Numbered<Entry>>)
    ensures NumberedFrom(r, all, |all| - |r|)
    ensures lines.None? || lines.value == 0 ==> |r| == |all|
    ensures lines.Some? && lines.value > 0 ==> |r| == if lines.value < |all| then lines.value else |all|
    ensures lines.Some? && lines.value < 0 ==> |r| == if -lines.value < |all| then |all| + lines.value else 0
  {
    var numbered := Enumerate(all);
    if lines.Some? && lines.value != 0 then
      var r := PySeq.SliceFrom(numbered, -lines.value);
      EnumerateFrom(all, |all| - |r|);
      r
    else numbered
  }

  /** `history list`: the selection, then `--unique`. */
  method List(all: seq<Entry>, lines: Option<int>, unique: bool) returns (r: seq<Numbered<Entry>>)
    ensures ListingOf(r, all, Select(all, lines), unique, PathOf)
  {
    r := Listed(all, Select(all, lines), unique, PathOf);
  }

  /** A negative `lines` drops that many of the oldest entries instead of keeping the newest. */
  lemma NegativeLinesDropOldest(all: seq<Entry>, n: int)
    requires 0 < n < |all|
    ensures Select(all, Some(-n)) == Enumerate(all)[n..]
  {
  }

  /** `rm` options; `since` is the cutoff `int(since.timestamp())` of the date given. */
  datatype RmOptions = RmOptions(index: Option<int>, allEntries: bool, duplicates: bool, since: Option<int>, yes: bool)

  /** `remove_by_index`: a 1-based index checked against the count before anything is asked. */
  function RemoveByIndex(entries: seq<Entry>, index: int, proceed: bool): (r: Outcome<Entry>)
    ensures !(1 <= index <= |entries|) ==> r == Outcome(None, InvalidIndex(index, |entries|))
    ensures 1 <= index <= |entries| && !proceed ==> r == Outcome(None, Aborted)
    ensures 1 <= index <= |entries| && proceed ==>
              r.report == RemovedEntry(entries[index - 1].path) &&
              r.written == Some(entries[..index - 1] + entries[index..])
  {
    if index < 1 || index > |entries| then Outcome(None, InvalidIndex(index, |entries|))
    else
      var entry := LibHistory.Get(entries, index - 1).value;
      if !proceed then Outcome(None, Aborted)
      else
        var removed := LibHistory.RemoveByIndex(entries, index - 1);
        assert removed.Ok?;
        Outcome(Some(removed.value), RemovedEntry(entry.path))
  }

  /** `remove_all_entries`. */
  function RemoveAllEntries(entries: seq<Entry>, proceed: bool): (r: Outcome<Entry>)
    ensures proceed ==> r.report == Cleared && r.written.Some? && LibHistory.IsEmpty(r.written.value)
    ensures !proceed ==> r == Outcome(None, Aborted)
  {
    if proceed then Outcome(Some(LibHistory.RemoveAll(entries)), Cleared) else Outcome(None, Aborted)
  }

  /**
   * `remove_filtered_entries`: nothing is asked or written when the
   * filters keep every entry; otherwise, once confirmed, every filtered-out
   * entry but the newest is removed, highest index first.
   */
  method RemoveFiltered(entries: seq<Entry>, since: Option<int>, duplicates: bool, proceed: bool)
    returns (r: Outcome<Entry>)
    requires entries != []
    ensures FilteredOutcome(entries, KeptSet(entries, since, duplicates, PathOf, TimeOf), proceed, r, PathOf)
  {
    var remaining := Filters(entries, since, duplicates, PathOf, TimeOf);
    if remaining.count == |entries| {
      return Outcome(None, NoneRemoved);
    }
    if !proceed {
      return Outcome(None, Aborted);
    }
    var history, removed := DeleteUnkept(entries, remaining.kept, PathOf);
    if removed == [] {
      return Outcome(None, RemovedEntries([]));
    }
    SurvivorsKeepNewest(entries, remaining.kept, 0);
    r := Outcome(Some(history), RemovedEntries(removed));
  }

  /**
   * `--duplicates` on `[a, b, a]` keeps the first `a` and `b`: only the
   * newest entry is filtered out, so a confirmed removal writes nothing
   * and reports "Removed 0 entries from history.".
   */
  lemma NewestDuplicateWritesNothing(a: Entry, b: Entry, c: Entry, r: Outcome<Entry>)
    requires a.path != b.path && c.path == a.path
    requires FilteredOutcome([a, b, c], KeptSet([a, b, c], None, true, PathOf, TimeOf), true, r, PathOf)
    ensures r == Outcome(None, RemovedEntries([]))
  {
    var entries := [a, b, c];
    var kept := KeptSet(entries, None, true, PathOf, TimeOf);
    assert !KeptAt(entries, None, true, PathOf, TimeOf, 2) by {
      assert Recent(entries, None, TimeOf, 0);
    }
    forall p: nat | p < 2
      ensures p in kept
    {
      assert KeptAt(entries, None, true, PathOf, TimeOf, p);
    }
    OnlyNewestDroppedWritesNothing(entries, kept, r, PathOf);
  }

  /**
   * `history rm`: an empty history first, then `--index`, then `--all`
   * (only without `--since` and `--duplicates`), then the filters.
   */
  method Rm(entries: seq<Entry>, opts: RmOptions, answer: bool) returns (r: Outcome<Entry>)
    ensures entries == [] ==> r == Outcome(None, NoHistory)
    ensures entries != [] && opts.index.Some? ==> r == RemoveByIndex(entries, opts.index.value, opts.yes || answer)
    ensures entries != [] && opts.index.None? && opts.allEntries && opts.since.None? && !opts.duplicates ==>
              r == RemoveAllEntries(entries, opts.yes || answer)
    ensures entries != [] && opts.index.None? && !(opts.allEntries && opts.since.None? && !opts.duplicates) ==>
              FilteredOutcome(entries, KeptSet(entries, opts.since, opts.duplicates, PathOf, TimeOf), opts.yes || answer, r, PathOf)
    ensures entries != [] && opts == RmOptions(None, false, false, None, opts.yes) ==> r == Outcome(None, NoneRemoved)
  {
    var proceed := opts.yes || answer;
    if entries == [] {
      return Outcome(None, NoHistory);
    }
    if opts.index.Some? {
      return RemoveByIndex(entries, opts.index.value, proceed);
    }
    if opts.allEntries && opts.since.None? && !opts.duplicates {
      return RemoveAllEntries(entries, proceed);
    }
    r := RemoveFiltered(entries, opts.since, opts.duplicates, proceed);
  }
}
