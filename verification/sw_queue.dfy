/**
 * The queue of the original generation (`sw/core/queue.py`): glob
 * matches are appended to the queue file without looking at what is
 * already queued, and removal filters by one pattern after another.
 * The filesystem enters as `glob` (with `~` already expanded) and
 * `matches` (`Path.match`).
 */
module SwQueue {
  import opened Base
  import opened PyStr
  import opened QueueFile
  import PySeq

  datatype QueueError =
    | InvalidPattern  // `InvalidPatternError`
    | FileMissing     // `QueueFileMissingError`
    | FileError       // `QueueFileError`

  /** `_ensure_queue_file`. */
  function EnsureFile(file: TextFile, canWrite: bool): (r: Result<TextFile, QueueError>)
    ensures r.Err? <==> file.Missing? && !canWrite
    ensures r.Err? ==> r.error == FileError
    ensures r.Ok? ==> !r.value.Missing? && (file.Missing? || r.value == file)
    ensures r.Ok? && file.Missing? ==> ReadQueue(r.value) == Ok([])
  {
    if !file.Missing? then Ok(file)
    else if canWrite then (ReadNewline(); Ok(Text("")))
    else Err(FileError)
  }

  /** `read`, which `list` returns as it is. */
  function ReadQueue(file: TextFile): (r: Result<seq<string>, QueueError>)
    ensures r.Ok? <==> file.Text?
    ensures file.Missing? ==> r == Err(FileMissing)
    ensures file.Unreadable? ==> r == Err(FileError)
    ensures r.Ok? ==> AllClean(r.value)
  {
    match file
    case Missing => Err(FileMissing)
    case Unreadable => Err(FileError)
    case Text(t) => (ReadClean(t); Ok(Read(t)))
  }

  /** `_write`: the entries joined by newlines, and always a final newline. */
  function Write(entries: seq<string>, canWrite: bool): (r: Result<string, QueueError>)
    ensures r.Err? <==> !canWrite
    ensures r.Err? ==> r.error == FileError
    ensures r.Ok? ==> r.value != [] && r.value[|r.value| - 1] == '\n'
  {
    if canWrite then Ok(Join(entries, "\n") + "\n") else Err(FileError)
  }

  /** What `_write` stores, `read` returns; an empty queue is stored as a lone newline. */
  lemma WriteThenRead(entries: seq<string>)
    requires AllClean(entries)
    ensures ReadQueue(Text(Write(entries, true).value)) == Ok(entries)
  {
    if entries == [] {
      assert Write(entries, true).value == "\n";
      ReadNewline();
    } else {
      JoinTerminated(entries);
      ReadTerminated(entries);
    }
  }

  /** The inner loop of `add`: append each file not collected yet. */
  function AppendUnseen<T(==)>(acc: seq<T>, files: seq<T>): (r: seq<T>)
    ensures |acc| <= |r| && r[..|acc|] == acc
    decreases |files|
  {
    if files == [] then acc
    else AppendUnseen(if files[0] in acc then acc else acc + [files[0]], files[1..])
  }

  /** The `not in` check keeps first occurrences, as `dict.fromkeys` does. */
  lemma {:induction false} AppendUnseenDedup<T>(a: seq<T>, files: seq<T>)
    ensures AppendUnseen(PySeq.Dedup(a), files) == PySeq.Dedup(a + files)
    decreases |files|
  {
    if files == [] {
      assert a + files == a;
    } else {
      var a', rest := a + [files[0]], files[1..];
      assert a' + rest == a + files by {
        assert files == [files[0]] + rest;
      }
      AppendUnseenStep(a, files);
      AppendUnseenDedup(a', rest);
    }
  }

  lemma AppendUnseenStep<T>(a: seq<T>, files: seq<T>)
    requires files != []
    ensures AppendUnseen(PySeq.Dedup(a), files) == AppendUnseen(PySeq.Dedup(a + [files[0]]), files[1..])
  {
    PySeq.DedupSnoc(a, files[0]);
  }

  /** Every pattern matches at least one file. */
  predicate AllMatch(patterns: seq<string>, glob: string -> seq<string>) {
    forall k :: 0 <= k < |patterns| ==> glob(patterns[k]) != []
  }

  /** All matches of the patterns, in order, repeats included. */
  function Concat(patterns: seq<string>, glob: string -> seq<string>): seq<string> {
    if patterns == [] then [] else glob(patterns[0]) + Concat(patterns[1..], glob)
  }

  /** The loop over the patterns of `add`; `None` once a pattern matches nothing. */
  function Gather(patterns: seq<string>, glob: string -> seq<string>, acc: seq<string>)
    : (r: Option<seq<string>>)
    ensures r.Some? <==> AllMatch(patterns, glob)
  {
    if patterns == [] then Some(acc)
    else if glob(patterns[0]) == [] then None
    else
      var r := Gather(patterns[1..], glob, AppendUnseen(acc, glob(patterns[0])));
      assert forall k :: 1 <= k < |patterns| ==> patterns[1..][k - 1] == patterns[k];
      r
  }

  /** The gathered entries are every match once, in order of first match. */
  lemma {:induction false} GatherIsDedup(patterns: seq<string>, glob: string -> seq<string>, a: seq<string>)
    requires AllMatch(patterns, glob)
    ensures Gather(patterns, glob, PySeq.Dedup(a)) == Some(PySeq.Dedup(a + Concat(patterns, glob)))
  {
    if patterns == [] {
      assert a + Concat(patterns, glob) == a;
    } else {
      var first, rest := glob(patterns[0]), patterns[1..];
      assert a + first + Concat(rest, glob) == a + Concat(patterns, glob) by {
        assert Concat(patterns, glob) == first + Concat(rest, glob);
      }
      AllMatchTail(patterns, glob);
      AppendUnseenDedup(a, first);
      assert Gather(patterns, glob, PySeq.Dedup(a)) == Gather(rest, glob, PySeq.Dedup(a + first));
      GatherIsDedup(rest, glob, a + first);
    }
  }

  lemma AllMatchTail(patterns: seq<string>, glob: string -> seq<string>)
    requires patterns != [] && AllMatch(patterns, glob)
    ensures AllMatch(patterns[1..], glob)
  {
    assert forall k :: 0 <= k < |patterns| - 1 ==> patterns[1..][k] == patterns[k + 1];
  }

  /**
   * `add(patterns, shuffle)`: the distinct matches, shuffled if asked
   * (`draws` drives the shuffle), appended whether queued already or not.
   */
  function Add(file: TextFile, patterns: seq<string>, shuffle: bool, draws: seq<nat>,
               glob: string -> seq<string>, canWrite: bool)
    : (r: Result<string, QueueError>)
    ensures patterns == [] ==> r == Err(InvalidPattern)
    ensures r.Ok? <==> patterns != [] && AllMatch(patterns, glob) && file.Text? && canWrite
    ensures r.Err? && patterns != [] && AllMatch(patterns, glob) ==> r.error == FileError
  {
    if patterns == [] then Err(InvalidPattern)
    else
      match Gather(patterns, glob, [])
      case None => Err(InvalidPattern)
      case Some(gathered) =>
        var entries := if shuffle then PySeq.Shuffle(gathered, draws) else gathered;
        match ReadQueue(file)
        case Err(_) => Err(FileError)
        case Ok(current) =>
          match Write(current + entries, canWrite)
          case Err(_) => Err(FileError)
          case Ok(content) => Ok(content)
  }

  /**
   * After `add`: the old queue followed by every match once, in order of
   * first match unless shuffled; a match that was queued already is now
   * queued once more.
   */
  lemma AddThenRead(file: TextFile, patterns: seq<string>, shuffle: bool, draws: seq<nat>,
                    glob: string -> seq<string>, x: string)
    requires Add(file, patterns, shuffle, draws, glob, true).Ok?
    requires forall k, m :: 0 <= k < |patterns| && 0 <= m < |glob(patterns[k])| ==> Clean(glob(patterns[k])[m])
    ensures var q := ReadQueue(Text(Add(file, patterns, shuffle, draws, glob, true).value)).value;
            var current := ReadQueue(file).value;
            var matched := Concat(patterns, glob);
            |current| <= |q| && q[..|current|] == current &&
            multiset(q[|current|..]) == multiset(PySeq.Dedup(matched)) &&
            multiset(q)[x] == multiset(current)[x] + (if x in matched then 1 else 0) &&
            (!shuffle ==> q[|current|..] == PySeq.Dedup(matched))
  {
    var matched := Concat(patterns, glob);
    var gathered := PySeq.Dedup(matched);
    var entries := if shuffle then PySeq.Shuffle(gathered, draws) else gathered;
    GatherIsDedup(patterns, glob, []);
    assert [] + matched == matched;
    assert AllClean(gathered) by {
      ConcatClean(patterns, glob);
    }
    AppendThenRead(ReadQueue(file).value, gathered, entries, x);
  }

  /** Writing the queue followed by a rearranged list without repeats, and reading it back. */
  lemma AppendThenRead(current: seq<string>, gathered: seq<string>, entries: seq<string>, x: string)
    requires AllClean(current) && AllClean(gathered) && PySeq.NoDuplicates(gathered)
    requires multiset(entries) == multiset(gathered)
    ensures var q := ReadQueue(Text(Write(current + entries, true).value)).value;
            q == current + entries &&
            |current| <= |q| && q[..|current|] == current &&
            multiset(q[|current|..]) == multiset(gathered) &&
            multiset(q)[x] == multiset(current)[x] + (if x in gathered then 1 else 0)
  {
    forall i | 0 <= i < |entries|
      ensures Clean(entries[i])
    {
      assert entries[i] in multiset(gathered);
    }
    assert AllClean(current + entries);
    WriteThenRead(current + entries);
    assert (current + entries)[|current|..] == entries;
    assert (current + entries)[..|current|] == current;
    DistinctCount(gathered, x);
  }

  lemma {:induction false} ConcatClean(patterns: seq<string>, glob: string -> seq<string>)
    requires forall k, m :: 0 <= k < |patterns| && 0 <= m < |glob(patterns[k])| ==> Clean(glob(patterns[k])[m])
    ensures AllClean(Concat(patterns, glob))
  {
    if patterns != [] {
      forall k, m | 0 <= k < |patterns| - 1 && 0 <= m < |glob(patterns[1..][k])|
        ensures Clean(glob(patterns[1..][k])[m])
      {
        assert patterns[1..][k] == patterns[k + 1];
      }
      ConcatClean(patterns[1..], glob);
    }
  }

  /** In a list without repeats every item occurs exactly once. */
  lemma {:induction false} DistinctCount(s: seq<string>, x: string)
    requires PySeq.NoDuplicates(s)
    ensures multiset(s)[x] == if x in s then 1 else 0
  {
    if s != [] {
      var init := s[..|s| - 1];
      assert s == init + [s[|s| - 1]];
      DistinctCount(init, x);
    }
  }

  /** The loop of `rm`: filter by the first pattern, then by the next, and so on. */
  function RmLoop(entries: seq<string>, patterns: seq<string>, matches: (string, string) -> bool)
    : (r: seq<string>)
    ensures |r| <= |entries|
    ensures forall k :: 0 <= k < |r| ==> r[k] in entries && !MatchesAny(r[k], patterns, matches)
    ensures forall k :: 0 <= k < |entries| && !MatchesAny(entries[k], patterns, matches) ==> entries[k] in r
    decreases |patterns|
  {
    if patterns == [] then entries
    else RmLoop(PySeq.Filter(entries, e => !matches(e, patterns[0])), patterns[1..], matches)
  }

  /** Filtering one pattern at a time drops exactly the entries that match some pattern. */
  lemma {:induction false} RmLoopIsAny(entries: seq<string>, patterns: seq<string>,
                                       matches: (string, string) -> bool)
    ensures RmLoop(entries, patterns, matches) == PySeq.Filter(entries, Unmatched(patterns, matches))
    decreases |patterns|
  {
    var none := Unmatched(patterns, matches);
    if patterns == [] {
      PySeq.FilterKeepsAll(entries, none);
    } else {
      var f := (e: string) => !matches(e, patterns[0]);
      var g := Unmatched(patterns[1..], matches);
      RmLoopIsAny(PySeq.Filter(entries, f), patterns[1..], matches);
      PySeq.FilterFilter(entries, f, g);
      forall k | 0 <= k < |entries|
        ensures f(entries[k]) && g(entries[k]) <==> none(entries[k])
      {
        var e := entries[k];
        if MatchesAny(e, patterns[1..], matches) {
          var j :| 0 <= j < |patterns[1..]| && matches(e, patterns[1..][j]);
          assert matches(e, patterns[j + 1]);
        }
        if MatchesAny(e, patterns, matches) {
          var j :| 0 <= j < |patterns| && matches(e, patterns[j]);
          if j > 0 {
            assert patterns[1..][j - 1] == patterns[j];
          }
        }
      }
      PySeq.FilterSame(entries, PySeq.Both(f, g), none);
    }
  }

  /** `rm(patterns)`. */
  function Rm(file: TextFile, patterns: seq<string>, matches: (string, string) -> bool, canWrite: bool)
    : (r: Result<string, QueueError>)
    ensures patterns == [] ==> r == Err(InvalidPattern)
    ensures r.Ok? <==> patterns != [] && file.Text? && canWrite
    ensures r.Err? && patterns != [] ==> r.error == FileError
  {
    if patterns == [] then Err(InvalidPattern)
    else
      match ReadQueue(file)
      case Err(_) => Err(FileError)
      case Ok(entries) =>
        match Write(RmLoop(entries, patterns, matches), canWrite)
        case Err(_) => Err(FileError)
        case Ok(content) => Ok(content)
  }

  /**
   * After `rm`, the queue holds exactly the entries that matched no
   * pattern, in their order and with their copies.
   */
  lemma RmThenRead(file: TextFile, patterns: seq<string>, matches: (string, string) -> bool)
    requires Rm(file, patterns, matches, true).Ok?
    ensures var q := ReadQueue(Text(Rm(file, patterns, matches, true).value)).value;
            var current := ReadQueue(file).value;
            (forall k :: 0 <= k < |q| ==> q[k] in current && !MatchesAny(q[k], patterns, matches)) &&
            (forall k :: 0 <= k < |current| && !MatchesAny(current[k], patterns, matches) ==> current[k] in q) &&
            q == PySeq.Filter(current, Unmatched(patterns, matches)) &&
            forall x :: multiset(q)[x] == if MatchesAny(x, patterns, matches) then 0 else multiset(current)[x]
  {
    var current := ReadQueue(file).value;
    RmLoopIsAny(current, patterns, matches);
    var kept := RmLoop(current, patterns, matches);
    assert AllClean(kept);
    WriteThenRead(kept);
    PySeq.FilterCount(current, Unmatched(patterns, matches));
  }

  /** `empty`: the file is left holding a single newline. */
  function EmptyQueue(canWrite: bool): (r: Result<string, QueueError>)
    ensures r.Err? <==> !canWrite
    ensures r.Ok? ==> r.value == "\n" && ReadQueue(Text(r.value)) == Ok([])
  {
    ReadNewline();
    Write([], canWrite)
  }

  /** `shuffle`, with no check for an empty queue; every failure is a `QueueFileError`. */
  function Shuffle(file: TextFile, draws: seq<nat>, canWrite: bool): (r: Result<string, QueueError>)
    ensures r.Ok? <==> file.Text? && canWrite
    ensures r.Err? ==> r.error == FileError
  {
    match ReadQueue(file)
    case Err(_) => Err(FileError)
    case Ok(entries) => Write(PySeq.Shuffle(entries, draws), canWrite)
  }

  /** Shuffling neither loses nor adds an entry. */
  lemma ShuffleThenRead(file: TextFile, draws: seq<nat>)
    requires Shuffle(file, draws, true).Ok?
    ensures multiset(ReadQueue(Text(Shuffle(file, draws, true).value)).value) == multiset(ReadQueue(file).value)
  {
    var current := ReadQueue(file).value;
    var s := PySeq.Shuffle(current, draws);
    assert forall k :: 0 <= k < |s| ==> s[k] in multiset(current);
    assert AllClean(s);
    WriteThenRead(s);
  }
}
