/**
 * The `history list` and `history rm` commands of `sw/cmds/history.py`,
 * over the older history manager, whose `read` gives an empty history for
 * a file it cannot read.  The confirmation prompt is an answer given as a
 * parameter (ignored with `--yes`); declining aborts.  This copy of `rm`
 * stops right after the prompt of its filter branch: it removes nothing.
 */
module SwHistoryCmds {
  import opened Base
  import opened SwHistory
  import opened HistorySelect

  function PathOf(e: Entry): string { e.path }
  function TimeOf(e: Entry): int { e.time }

  /** `history list`: the last `lines` entries (`SelectLast`), then `--unique`. */
  method List(file: HistoryFile, lines: Option<int>, unique: bool) returns (r: seq<Numbered<Entry>>)
    ensures var all := Read(file); ListingOf(r, all, SelectLast(all, lines), unique, PathOf)
  {
    var all := Read(file);
    r := ListLast(all, lines, unique, PathOf);
  }

  /** `rm` options; `since` is the cutoff `int(since.timestamp())` of the date given. */
  datatype RmOptions = RmOptions(index: Option<int>, all: bool, duplicates: bool, since: Option<int>, yes: bool)

  /** The `--index` branch: 1-based, checked against the count before anything is asked. */
  function RemoveIndexed(entries: seq<Entry>, index: int, proceed: bool): (r: Outcome<Entry>)
    ensures !(1 <= index <= |entries|) ==> r == Outcome(None, InvalidIndex(index, |entries|))
    ensures 1 <= index <= |entries| && !proceed ==> r == Outcome(None, Aborted)
    ensures 1 <= index <= |entries| && proceed ==>
              r.report == RemovedEntry(entries[index - 1].path) &&
              r.written == Some(entries[..index - 1] + entries[index..])
  {
    if index < 1 || index > |entries| then Outcome(None, InvalidIndex(index, |entries|))
    else if !proceed then Outcome(None, Aborted)
    else Outcome(Some(RemoveByIndex(entries, index - 1).value), RemovedEntry(entries[index - 1].path))
  }

  /**
   * `history rm` on what `read` returned: an empty history, `--index`,
   * `--all` without filters, then the filters, whose only effect is the
   * prompt: the file is never written.
   */
  method Rm(entries: seq<Entry>, opts: RmOptions, answer: bool) returns (r: Outcome<Entry>)
    ensures entries == [] ==> r == Outcome(None, NoHistory)
    ensures entries != [] && opts.index.Some? ==> r == RemoveIndexed(entries, opts.index.value, opts.yes || answer)
    ensures entries != [] && opts.index.None? && opts.all && opts.since.None? && !opts.duplicates ==>
              r == (if opts.yes || answer then Outcome(Some([]), Cleared) else Outcome(None, Aborted))
    ensures entries != [] && opts.index.None? && !(opts.all && opts.since.None? && !opts.duplicates) ==>
              r.written.None? &&
              (r.report == NoneRemoved <==> forall p: nat :: p < |entries| ==> KeptAt(entries, opts.since, opts.duplicates, PathOf, TimeOf, p)) &&
              (r.report != NoneRemoved ==> r.report == (if opts.yes || answer then Confirmed else Aborted))
  {
    var proceed := opts.yes || answer;
    if entries == [] {
      return Outcome(None, NoHistory);
    }
    if opts.index.Some? {
      return RemoveIndexed(entries, opts.index.value, proceed);
    }
    var remaining := Filters(entries, opts.since, opts.duplicates, PathOf, TimeOf);
    if opts.all && opts.since.None? && !opts.duplicates {
      if !proceed {
        return Outcome(None, Aborted);
      }
      return Outcome(Some([]), Cleared);
    }
    if remaining.count == |entries| {
      return Outcome(None, NoneRemoved);
    }
    r := Outcome(None, if proceed then Confirmed else Aborted);
  }
}
