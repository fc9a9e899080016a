/**
 * The queue of the transitional command-line generation
 * (`sw_cli/core/queue.py`): glob patterns are expanded into resolved
 * paths and appended to the queue file, or matched against it for
 * removal.  The filesystem enters as the functions `glob` (with `~`
 * already expanded), `resolve` and `matches` (`Path.match`).
 */
module CliQueue {
  import opened Base
  import opened PyStr
  import opened QueueFile
  import PySeq

  datatype QueueError =
    | InvalidPattern  // `InvalidPatternError`
    | FileMissing     // `QueueFileMissingError`
    | FileError       // `QueueFileError`
    | Empty           // `QueueEmptyError`

  /** The file contents an operation leaves, and the number it returns. */
  datatype Outcome = Outcome(content: string, count: nat)

  /** `_ensure_queue_file`. */
  function EnsureFile(file: TextFile, canWrite: bool): (r: Result<TextFile, QueueError>)
    ensures r.Err? <==> file.Missing? && !canWrite
    ensures r.Err? ==> r.error == FileError
    ensures r.Ok? ==> !r.value.Missing? && (file.Missing? || r.value == file)
    ensures r.Ok? && file.Missing? ==> ReadQueue(r.value) == Ok([])
  {
    if !file.Missing? then Ok(file)
    else if canWrite then (ReadNewline(); Ok(Text("")))
    else Err(FileError)
  }

  /** `read`. */
  function ReadQueue(file: TextFile): (r: Result<seq<string>, QueueError>)
    ensures r.Ok? <==> file.Text?
    ensures file.Missing? ==> r == Err(FileMissing)
    ensures file.Unreadable? ==> r == Err(FileError)
    ensures r.Ok? ==> AllClean(r.value)
  {
    match file
    case Missing => Err(FileMissing)
    case Unreadable => Err(FileError)
    case Text(t) => (ReadClean(t); Ok(Read(t)))
  }

  /** `_write`: the entries joined by newlines, with a final newline only if there is any text. */
  function Write(entries: seq<string>, canWrite: bool): (r: Result<string, QueueError>)
    ensures r.Err? <==> !canWrite
    ensures r.Err? ==> r.error == FileError
    ensures r.Ok? && entries == [] ==> r.value == []
  {
    if !canWrite then Err(FileError)
    else
      var content := Join(entries, "\n");
      Ok(content + (if content != [] then "\n" else ""))
  }

  /** For clean entries the text is one entry per line, so `read` returns them. */
  lemma WriteThenRead(entries: seq<string>)
    requires AllClean(entries)
    ensures Write(entries, true).value == Terminated(entries)
    ensures ReadQueue(Text(Write(entries, true).value)) == Ok(entries)
  {
    if entries != [] {
      JoinTerminated(entries);
      if |entries| > 1 {
        assert Join(entries, "\n") == entries[0] + "\n" + Join(entries[1..], "\n");
      }
      assert Join(entries, "\n") != [];
    }
    ReadTerminated(entries);
  }

  /** A pattern's matches, resolved. */
  function Resolved(files: seq<string>, resolve: string -> string): (r: seq<string>)
    ensures |r| == |files|
    ensures forall m :: 0 <= m < |files| ==> r[m] == resolve(files[m])
  {
    seq(|files|, m requires 0 <= m < |files| => resolve(files[m]))
  }

  /**
   * The loop over the patterns: the resolved matches in pattern order, or
   * `None` once a pattern matches nothing.
   */
  function Collect(patterns: seq<string>, glob: string -> seq<string>, resolve: string -> string)
    : (r: Option<seq<string>>)
    ensures r.None? <==> exists k :: 0 <= k < |patterns| && glob(patterns[k]) == []
  {
    if patterns == [] then Some([])
    else if glob(patterns[0]) == [] then None
    else
      match Collect(patterns[1..], glob, resolve)
      case None =>
        assert forall k :: 1 <= k < |patterns| ==> patterns[1..][k - 1] == patterns[k];
        None
      case Some(rest) => Some(Resolved(glob(patterns[0]), resolve) + rest)
  }

  /** `x` is the resolved form of a file some pattern matched. */
  predicate Found(x: string, patterns: seq<string>, glob: string -> seq<string>, resolve: string -> string) {
    exists k, m :: 0 <= k < |patterns| && 0 <= m < |glob(patterns[k])| && x == resolve(glob(patterns[k])[m])
  }

  /** The collected paths are exactly the resolved matches of the patterns. */
  lemma {:induction false} CollectContents(patterns: seq<string>, glob: string -> seq<string>,
                                           resolve: string -> string, x: string)
    requires Collect(patterns, glob, resolve).Some?
    ensures x in Collect(patterns, glob, resolve).value <==> Found(x, patterns, glob, resolve)
  {
    if patterns != [] {
      var first := Resolved(glob(patterns[0]), resolve);
      var tail := patterns[1..];
      CollectContents(tail, glob, resolve, x);
      if x in first {
        var m :| 0 <= m < |first| && first[m] == x;
        assert x == resolve(glob(patterns[0])[m]);
      }
      if Found(x, tail, glob, resolve) {
        var k, m :| 0 <= k < |tail| && 0 <= m < |glob(tail[k])| && x == resolve(glob(tail[k])[m]);
        assert patterns[k + 1] == tail[k];
      }
      if Found(x, patterns, glob, resolve) {
        var k, m :| 0 <= k < |patterns| && 0 <= m < |glob(patterns[k])| && x == resolve(glob(patterns[k])[m]);
        if k == 0 {
          assert first[m] == x;
        } else {
          assert tail[k - 1] == patterns[k];
        }
      }
    }
  }

  /**
   * `list(new_entries)`, shuffled if asked.  The matches are gathered in a
   * set, so the list made from it is in an order Python does not fix:
   * `order` picks that order, `draws` drives the optional shuffle.
   */
  function Listed(matched: seq<string>, shuffle: bool, order: seq<nat>, draws: seq<nat>): (r: seq<string>)
    ensures multiset(r) == multiset(PySeq.Dedup(matched))
  {
    var listed := PySeq.Shuffle(PySeq.Dedup(matched), order);
    if shuffle then PySeq.Shuffle(listed, draws) else listed
  }

  /** The listed entries are the distinct matches. */
  lemma ListedContents(matched: seq<string>, shuffle: bool, order: seq<nat>, draws: seq<nat>, y: string)
    ensures y in Listed(matched, shuffle, order, draws) <==> y in matched
  {
    var r := Listed(matched, shuffle, order, draws);
    assert y in r <==> y in multiset(r);
    assert y in PySeq.Dedup(matched) <==> y in multiset(PySeq.Dedup(matched));
  }

  /**
   * `add(patterns, shuffle)`.  The count returned is the number of
   * distinct matches, queued before or not.
   */
  function Add(file: TextFile, patterns: seq<string>, shuffle: bool, order: seq<nat>, draws: seq<nat>,
               glob: string -> seq<string>, resolve: string -> string, canWrite: bool)
    : (r: Result<Outcome, QueueError>)
    ensures patterns == [] ==> r == Err(InvalidPattern)
    ensures (exists k :: 0 <= k < |patterns| && glob(patterns[k]) == []) ==> r == Err(InvalidPattern)
    ensures r.Ok? <==> patterns != [] && Collect(patterns, glob, resolve).Some? && file.Text? && canWrite
    ensures r.Err? && patterns != [] && Collect(patterns, glob, resolve).Some? ==> r.error == FileError
  {
    if patterns == [] then Err(InvalidPattern)
    else
      match Collect(patterns, glob, resolve)
      case None => Err(InvalidPattern)
      case Some(matched) =>
        var entries := Listed(matched, shuffle, order, draws);
        match ReadQueue(file)
        case Err(_) => Err(FileError)
        case Ok(current) =>
          match Write(current + PySeq.Filter(entries, p => p !in current), canWrite)
          case Err(_) => Err(FileError)
          case Ok(content) => Ok(Outcome(content, |entries|))
  }

  /** Appending the entries not yet in `current`, as `add` does. */
  lemma AppendAbsent(current: seq<string>, entries: seq<string>, x: string)
    ensures var q := current + PySeq.Filter(entries, p => p !in current);
            (x in q <==> x in current || x in entries) &&
            |q| - |current| <= |entries| &&
            ((forall i :: 0 <= i < |entries| ==> entries[i] !in current) ==> |q| - |current| == |entries|)
  {
    var keep := (p: string) => p !in current;
    if x in entries && x !in current {
      var i :| 0 <= i < |entries| && entries[i] == x;
      assert keep(entries[i]);
    }
    if forall i :: 0 <= i < |entries| ==> entries[i] !in current {
      PySeq.FilterKeepsAll(entries, keep);
    }
  }

  /**
   * After `add`: the queue starts with what it held, holds every match
   * and nothing else, grows by at most the returned count, and by exactly
   * that count when no match was queued already.
   */
  lemma AddThenRead(file: TextFile, patterns: seq<string>, shuffle: bool, order: seq<nat>, draws: seq<nat>,
                    glob: string -> seq<string>, resolve: string -> string, x: string)
    requires Add(file, patterns, shuffle, order, draws, glob, resolve, true).Ok?
    requires forall k, m :: 0 <= k < |patterns| && 0 <= m < |glob(patterns[k])| ==>
               Clean(resolve(glob(patterns[k])[m]))
    ensures var out := Add(file, patterns, shuffle, order, draws, glob, resolve, true).value;
            var q := ReadQueue(Text(out.content)).value;
            var current := ReadQueue(file).value;
            |current| <= |q| && q[..|current|] == current &&
            (x in q <==> x in current || Found(x, patterns, glob, resolve)) &&
            |q| - |current| <= out.count &&
            ((forall k :: 0 <= k < |current| ==> !Found(current[k], patterns, glob, resolve)) ==>
               |q| - |current| == out.count)
  {
    var matched := Collect(patterns, glob, resolve).value;
    var entries := Listed(matched, shuffle, order, draws);
    var current := ReadQueue(file).value;
    var added := PySeq.Filter(entries, p => p !in current);
    forall i | 0 <= i < |entries|
      ensures Clean(entries[i]) && (entries[i] in current ==> Found(entries[i], patterns, glob, resolve))
    {
      ListedContents(matched, shuffle, order, draws, entries[i]);
      CollectContents(patterns, glob, resolve, entries[i]);
    }
    assert AllClean(added);
    assert AllClean(current + added);
    WriteThenRead(current + added);
    ListedContents(matched, shuffle, order, draws, x);
    CollectContents(patterns, glob, resolve, x);
    AppendAbsent(current, entries, x);
  }

  /** `rm(patterns)`: drops every entry matching a pattern and returns how many went. */
  function Rm(file: TextFile, patterns: seq<string>, matches: (string, string) -> bool, canWrite: bool)
    : (r: Result<Outcome, QueueError>)
    ensures patterns == [] ==> r == Err(InvalidPattern)
    ensures r.Ok? <==> patterns != [] && file.Text? && canWrite
    ensures r.Err? && patterns != [] ==> r.error == FileError
  {
    if patterns == [] then Err(InvalidPattern)
    else
      match ReadQueue(file)
      case Err(_) => Err(FileError)
      case Ok(entries) =>
        var filtered := PySeq.Filter(entries, Unmatched(patterns, matches));
        match Write(filtered, canWrite)
        case Err(_) => Err(FileError)
        case Ok(content) => Ok(Outcome(content, |entries| - |filtered|))
  }

  /**
   * After `rm`: the queue holds exactly the entries that matched nothing,
   * in their order and with their copies, and the count is how many
   * entries went.
   */
  lemma RmThenRead(file: TextFile, patterns: seq<string>, matches: (string, string) -> bool)
    requires Rm(file, patterns, matches, true).Ok?
    ensures var out := Rm(file, patterns, matches, true).value;
            var q := ReadQueue(Text(out.content)).value;
            var current := ReadQueue(file).value;
            (forall k :: 0 <= k < |q| ==> q[k] in current && !MatchesAny(q[k], patterns, matches)) &&
            (forall k :: 0 <= k < |current| && !MatchesAny(current[k], patterns, matches) ==> current[k] in q) &&
            out.count + |q| == |current| &&
            q == PySeq.Filter(current, Unmatched(patterns, matches)) &&
            forall x :: multiset(q)[x] == if MatchesAny(x, patterns, matches) then 0 else multiset(current)[x]
  {
    var current := ReadQueue(file).value;
    var filtered := PySeq.Filter(current, Unmatched(patterns, matches));
    assert AllClean(filtered);
    WriteThenRead(filtered);
    PySeq.FilterCount(current, Unmatched(patterns, matches));
  }

  /** `list`: the queue, which must not be empty. */
  function List(file: TextFile): (r: Result<seq<string>, QueueError>)
    ensures r.Ok? ==> r.value != [] && ReadQueue(file) == Ok(r.value)
    ensures file.Missing? ==> r == Err(FileMissing)
    ensures file.Text? && Read(file.content) == [] ==> r == Err(Empty)
  {
    match ReadQueue(file)
    case Err(e) => Err(e)
    case Ok(entries) => if entries == [] then Err(Empty) else Ok(entries)
  }

  /** `empty`. */
  function EmptyQueue(canWrite: bool): (r: Result<string, QueueError>)
    ensures r.Err? <==> !canWrite
    ensures r.Ok? ==> r.value == [] && ReadQueue(Text(r.value)) == Ok([])
  {
    ReadNewline();
    Write([], canWrite)
  }

  /** `shuffle`: refuses an empty queue; a missing file is reported as `QueueFileError`. */
  function Shuffle(file: TextFile, draws: seq<nat>, canWrite: bool): (r: Result<string, QueueError>)
    ensures r.Ok? <==> file.Text? && Read(file.content) != [] && canWrite
    ensures file.Missing? ==> r == Err(FileError)
    ensures file.Text? && Read(file.content) == [] ==> r == Err(Empty)
  {
    match ReadQueue(file)
    case Err(_) => Err(FileError)
    case Ok(entries) =>
      if entries == [] then Err(Empty) else Write(PySeq.Shuffle(entries, draws), canWrite)
  }

  /** Shuffling neither loses nor adds an entry. */
  lemma ShuffleThenRead(file: TextFile, draws: seq<nat>)
    requires Shuffle(file, draws, true).Ok?
    ensures multiset(ReadQueue(Text(Shuffle(file, draws, true).value)).value) == multiset(ReadQueue(file).value)
  {
    var current := ReadQueue(file).value;
    var s := PySeq.Shuffle(current, draws);
    assert forall k :: 0 <= k < |s| ==> s[k] in multiset(current);
    assert AllClean(s);
    WriteThenRead(s);
  }
}
