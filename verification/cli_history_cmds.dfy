/**
 * The `history list` and `history rm` commands of `sw_cli/cmds/history.py`,
 * over the transitional history manager, which re-reads and rewrites the
 * file on every call.  A history that cannot be read ends the command
 * with "Failed to read history".  The confirmation prompt is an answer
 * given as a parameter (ignored with `--yes`); declining aborts.
 */
module CliHistoryCmds {
  import opened Base
  import opened CliHistory
  import opened HistorySelect

  function PathOf(e: Entry): string { e.path }
  function TimeOf(e: Entry): int { e.time }

  /** `history list`: nothing when the file cannot be read, else the last `lines` (`SelectLast`) and `--unique`. */
  method List(file: HistoryFile, lines: Option<int>, unique: bool) returns (r: Option<seq<Numbered<Entry>>>)
    ensures r.None? <==> Read(file).Err?
    ensures r.Some? ==> var all := Read(file).value;
              ListingOf(r.value, all, SelectLast(all, lines), unique, PathOf)
  {
    var read := Read(file);
    if read.Err? {
      return None;
    }
    var listed := ListLast(read.value, lines, unique, PathOf);
    r := Some(listed);
  }

  /** `rm` options; `since` is the cutoff `int(since.timestamp())` of the date given. */
  datatype RmOptions = RmOptions(index: Option<int>, all: bool, duplicates: bool, since: Option<int>, yes: bool)

  /** The `--index` branch: 1-based, checked against the count before anything is asked. */
  function RemoveIndexed(entries: seq<Entry>, index: int, proceed: bool): (r: Outcome<Entry>)
    ensures !(1 <= index <= |entries|) ==> r == Outcome(None, InvalidIndex(index, |entries|))
    ensures 1 <= index <= |entries| && !proceed ==> r == Outcome(None, Aborted)
    ensures 1 <= index <= |entries| && proceed ==>
              r.report == RemovedEntry(entries[index - 1].path) &&
              r.written == Some(entries[..index - 1] + entries[index..])
  {
    if index < 1 || index > |entries| then Outcome(None, InvalidIndex(index, |entries|))
    else if !proceed then Outcome(None, Aborted)
    else Outcome(Some(RemoveByIndex(entries, index - 1).value), RemovedEntry(entries[index - 1].path))
  }

  /**
   * What `history rm` does with the entries read: nothing on an empty
   * history; `--index` alone when given; `--all` without filters clears
   * the history once confirmed; otherwise the filters decide, and a
   * filtered removal keeps the newest entry last.
   */
  predicate RmAnswer(entries: seq<Entry>, opts: RmOptions, answer: bool, r: Outcome<Entry>) {
    var proceed := opts.yes || answer;
    var clearAll := opts.all && opts.since.None? && !opts.duplicates;
    (entries == [] ==> r == Outcome(None, NoHistory)) &&
    (entries != [] && opts.index.Some? ==> r == RemoveIndexed(entries, opts.index.value, proceed)) &&
    (entries != [] && opts.index.None? && clearAll ==>
       r == (if proceed then Outcome(Some([]), Cleared) else Outcome(None, Aborted))) &&
    (entries != [] && opts.index.None? && !clearAll ==>
       FilteredOutcome(entries, KeptSet(entries, opts.since, opts.duplicates, PathOf, TimeOf), proceed, r, PathOf)) &&
    (r.report.RemovedEntries? && r.report.paths != [] ==>
       r.written.Some? && r.written.value != [] && entries != [] && r.written.value[|r.written.value| - 1] == entries[|entries| - 1])
  }

  /** `history rm`: an unreadable file ends it, and otherwise `RmEntries` acts on what was read. */
  method Rm(file: HistoryFile, opts: RmOptions, answer: bool) returns (r: Outcome<Entry>)
    ensures Read(file).Err? ==> r == Outcome(None, ReadFailed)
    ensures Read(file).Ok? ==> RmAnswer(Read(file).value, opts, answer, r)
  {
    var read := Read(file);
    if read.Err? {
      return Outcome(None, ReadFailed);
    }
    r := RmEntries(read.value, opts, answer);
  }

  /**
   * `history rm` on the entries read: an empty history, `--index`, then
   * `--all` without filters, then the filters.  Each filtered-out entry
   * but the newest goes through `remove_by_index`, highest index first.
   */
  method RmEntries(entries: seq<Entry>, opts: RmOptions, answer: bool) returns (r: Outcome<Entry>)
    ensures RmAnswer(entries, opts, answer, r)
  {
    var proceed := opts.yes || answer;
    if entries == [] {
      return Outcome(None, NoHistory);
    }
    if opts.index.Some? {
      return RemoveIndexed(entries, opts.index.value, proceed);
    }
    var remaining := Filters(entries, opts.since, opts.duplicates, PathOf, TimeOf);
    if opts.all && opts.since.None? && !opts.duplicates {
      if !proceed {
        return Outcome(None, Aborted);
      }
      return Outcome(Some([]), Cleared);
    }
    if remaining.count == |entries| {
      return Outcome(None, NoneRemoved);
    }
    if !proceed {
      return Outcome(None, Aborted);
    }
    var history, removed := DeleteUnkept(entries, remaining.kept, PathOf);
    if removed == [] {
      return Outcome(None, RemovedEntries([]));
    }
    SurvivorsKeepNewest(entries, remaining.kept, 0);
    r := Outcome(Some(history), RemovedEntries(removed));
  }
}
