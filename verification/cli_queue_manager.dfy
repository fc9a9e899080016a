/**
 * The queue manager of the library generation
 * (`sw_cli/queue/manager.py`): the queue is a text file of paths, one
 * per line.  Every operation reads the whole file and writes it back;
 * the file's contents before and after are explicit values here, and
 * whether the write succeeds is a parameter.
 */
module CliQueueManager {
  import opened Base
  import opened QueueFile
  import PySeq

  /** `QueueError` and its three subclasses. */
  datatype QueueError =
    | Unexpected   // the base class, raised for anything not re-raised as it is
    | NotFound     // `QueueNotFoundError`
    | ReadFailed   // `QueueReadError`
    | WriteFailed  // `QueueWriteError`

  /** `_ensure_file`: a missing file is created empty. */
  function EnsureFile(file: TextFile, canWrite: bool): (r: Result<TextFile, QueueError>)
    ensures r.Err? <==> file.Missing? && !canWrite
    ensures r.Err? ==> r.error == WriteFailed
    ensures r.Ok? ==> !r.value.Missing? && (file.Missing? || r.value == file)
    ensures r.Ok? && file.Missing? ==> Get(r.value) == Ok([])
  {
    if !file.Missing? then Ok(file)
    else if canWrite then (ReadNewline(); Ok(Text("")))
    else Err(WriteFailed)
  }

  /** `get`: the stripped, non-blank lines. */
  function Get(file: TextFile): (r: Result<seq<string>, QueueError>)
    ensures r.Ok? <==> file.Text?
    ensures file.Missing? ==> r == Err(NotFound)
    ensures file.Unreadable? ==> r == Err(ReadFailed)
    ensures r.Ok? ==> AllClean(r.value)
  {
    match file
    case Missing => Err(NotFound)
    case Unreadable => Err(ReadFailed)
    case Text(t) => (ReadClean(t); Ok(Read(t)))
  }

  /** `_write`: each item and a newline. */
  function Write(queue: seq<string>, canWrite: bool): (r: Result<string, QueueError>)
    ensures r.Err? <==> !canWrite
    ensures r.Err? ==> r.error == WriteFailed
  {
    if canWrite then Ok(Terminated(queue)) else Err(WriteFailed)
  }

  /** What `_write` stores, `get` returns. */
  lemma WriteThenGet(queue: seq<string>)
    requires AllClean(queue)
    ensures Get(Text(Write(queue, true).value)) == Ok(queue)
  {
    ReadTerminated(queue);
  }

  /** The `except` clauses of `add`, `remove` and `shuffle`: read and write errors pass, the rest become `QueueError`. */
  function Relay(e: QueueError): QueueError {
    if e.ReadFailed? || e.WriteFailed? then e else Unexpected
  }

  /** The paths `add` appends: those not queued yet, repeats within `paths` included. */
  function Fresh(current: seq<string>, paths: seq<string>): (r: seq<string>)
    ensures forall k :: 0 <= k < |r| ==> r[k] in paths && r[k] !in current
    ensures forall k :: 0 <= k < |paths| && paths[k] !in current ==> paths[k] in r
    ensures forall p :: multiset(r)[p] == if p in current then 0 else multiset(paths)[p]
  {
    PySeq.FilterCount(paths, PySeq.Outside(current));
    PySeq.Filter(paths, PySeq.Outside(current))
  }

  /** The fresh paths come in argument order: those of `a` before those of `b`, and a last path last. */
  lemma FreshInOrder(current: seq<string>, a: seq<string>, b: seq<string>, x: string)
    ensures Fresh(current, a + b) == Fresh(current, a) + Fresh(current, b)
    ensures Fresh(current, a + [x]) == Fresh(current, a) + (if x in current then [] else [x])
  {
    PySeq.FilterConcat(a, b, PySeq.Outside(current));
    PySeq.FilterSnoc(a, x, PySeq.Outside(current));
  }

  /** `add(paths)`: the new file contents. */
  function Add(file: TextFile, paths: seq<string>, canWrite: bool): (r: Result<string, QueueError>)
    ensures r.Ok? <==> file.Text? && canWrite
    ensures file.Missing? ==> r == Err(Unexpected)
    ensures file.Unreadable? ==> r == Err(ReadFailed)
  {
    match Get(file)
    case Err(e) => Err(Relay(e))
    case Ok(current) => Write(current + Fresh(current, paths), canWrite)
  }

  /**
   * After `add`, the queue is what it held followed by the fresh paths, so
   * it holds every added path and nothing else.
   */
  lemma AddThenGet(file: TextFile, paths: seq<string>)
    requires file.Text? && AllClean(paths)
    ensures var q := Get(Text(Add(file, paths, true).value)).value;
            var current := Get(file).value;
            q == current + Fresh(current, paths) &&
            |current| <= |q| && q[..|current|] == current &&
            (forall k :: 0 <= k < |paths| ==> paths[k] in q) &&
            (forall k :: 0 <= k < |q| ==> q[k] in current || q[k] in paths)
  {
    var current := Get(file).value;
    var added := Fresh(current, paths);
    var q := current + added;
    assert Add(file, paths, true) == Ok(Terminated(q));
    assert AllClean(q);
    WriteThenGet(q);
    assert q[..|current|] == current;
    forall k | 0 <= k < |paths|
      ensures paths[k] in q
    {
      if paths[k] !in current {
        assert paths[k] in added;
      }
    }
    forall k | 0 <= k < |q|
      ensures q[k] in current || q[k] in paths
    {
      if k >= |current| {
        assert q[k] == added[k - |current|];
      }
    }
  }

  /** Adding the same paths twice stores the same file as adding them once. */
  lemma AddTwice(file: TextFile, paths: seq<string>)
    requires file.Text? && AllClean(paths)
    ensures Add(Text(Add(file, paths, true).value), paths, true) == Add(file, paths, true)
  {
    var current := Get(file).value;
    var q := current + Fresh(current, paths);
    assert Add(file, paths, true) == Ok(Terminated(q));
    assert AllClean(q);
    WriteThenGet(q);
    assert Add(Text(Terminated(q)), paths, true) == Write(q + Fresh(q, paths), true);
    FreshCovered(current, paths);
  }

  /** Once the fresh paths are queued, none of the paths is fresh any more. */
  lemma FreshCovered(current: seq<string>, paths: seq<string>)
    ensures var q := current + Fresh(current, paths); q + Fresh(q, paths) == q
  {
    var q := current + Fresh(current, paths);
    forall k | 0 <= k < |paths|
      ensures !(paths[k] !in q)
    {
      if paths[k] !in current {
        assert paths[k] in Fresh(current, paths);
      }
    }
    PySeq.FilterRejectsAll(paths, PySeq.Outside(q));
    assert q + [] == q;
  }

  /** `remove(paths)`: every queued item that is not one of `paths`, in order. */
  function Remove(file: TextFile, paths: seq<string>, canWrite: bool): (r: Result<string, QueueError>)
    ensures r.Ok? <==> file.Text? && canWrite
    ensures file.Missing? ==> r == Err(Unexpected)
    ensures file.Unreadable? ==> r == Err(ReadFailed)
  {
    match Get(file)
    case Err(e) => Err(Relay(e))
    case Ok(current) => Write(PySeq.Filter(current, PySeq.Outside(paths)), canWrite)
  }

  /**
   * After `remove`, the queue holds exactly the items that are not among
   * the paths, in their order and with their copies.
   */
  lemma RemoveThenGet(file: TextFile, paths: seq<string>)
    requires file.Text?
    ensures var q := Get(Text(Remove(file, paths, true).value)).value;
            var current := Get(file).value;
            (forall k :: 0 <= k < |q| ==> q[k] !in paths && q[k] in current) &&
            (forall k :: 0 <= k < |current| && current[k] !in paths ==> current[k] in q) &&
            q == PySeq.Filter(current, PySeq.Outside(paths)) &&
            forall x :: multiset(q)[x] == if x in paths then 0 else multiset(current)[x]
  {
    var current := Get(file).value;
    var kept := PySeq.Filter(current, PySeq.Outside(paths));
    assert AllClean(kept);
    WriteThenGet(kept);
    PySeq.FilterCount(current, PySeq.Outside(paths));
  }

  /** Removing paths that were just added, none of them queued before, restores the queue. */
  lemma AddThenRemove(file: TextFile, paths: seq<string>)
    requires file.Text? && AllClean(paths)
    requires forall k :: 0 <= k < |paths| ==> paths[k] !in Get(file).value
    ensures Get(Text(Remove(Text(Add(file, paths, true).value), paths, true).value)) == Get(file)
  {
    var current := Get(file).value;
    var added := Fresh(current, paths);
    var q := current + added;
    assert AllClean(q);
    WriteThenGet(q);
    assert Add(file, paths, true) == Ok(Terminated(q));
    var keep := (item: string) => item !in paths;
    assert forall k :: 0 <= k < |added| ==> added[k] in paths;
    PySeq.FilterDropsAppended(current, added, keep);
    WriteThenGet(current);
  }

  /** `clear`: an empty file. */
  function Clear(canWrite: bool): (r: Result<string, QueueError>)
    ensures r.Err? <==> !canWrite
    ensures r.Ok? ==> Get(Text(r.value)) == Ok([])
  {
    ReadNewline();
    Write([], canWrite)
  }

  /** `shuffle`: the queue in the order `random.shuffle` leaves it, `draws` standing for the generator. */
  function Shuffle(file: TextFile, draws: seq<nat>, canWrite: bool): (r: Result<string, QueueError>)
    ensures r.Ok? <==> file.Text? && canWrite
    ensures file.Missing? ==> r == Err(Unexpected)
    ensures file.Unreadable? ==> r == Err(ReadFailed)
  {
    match Get(file)
    case Err(e) => Err(Relay(e))
    case Ok(current) => Write(PySeq.Shuffle(current, draws), canWrite)
  }

  /** Shuffling reorders the queue and neither loses nor adds an item. */
  lemma ShuffleThenGet(file: TextFile, draws: seq<nat>)
    requires file.Text?
    ensures var q := Get(Text(Shuffle(file, draws, true).value)).value;
            multiset(q) == multiset(Get(file).value)
  {
    var current := Get(file).value;
    var s := PySeq.Shuffle(current, draws);
    assert forall k :: 0 <= k < |s| ==> s[k] in multiset(current);
    assert forall k :: 0 <= k < |s| ==> s[k] in current;
    assert AllClean(s);
    WriteThenGet(s);
  }
}
