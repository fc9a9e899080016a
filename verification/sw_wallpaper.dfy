/**
 * `WallpaperManager.set_wallpaper`, `set_by_history_index` and
 * `_get_random_wallpaper` of `sw/core/wallpaper.py`: which wallpaper the
 * original generation shows, when it refuses one, and what it records.
 * The filesystem enters as a `FileHost.Host`, `Path.match` as `matches`,
 * the clock as `now` and the random choice as `draw`; `limit` and
 * `timeout` are the history manager's settings, read when it is built.
 * Rewriting the hyprpaper and hyprlock files and restarting hyprpaper,
 * which come between the image check and the history update, are not
 * modelled: the model goes on as if they succeed.
 */
module SwWallpaper {
  import opened Base
  import opened Json
  import PySeq
  import SwConfig
  import opened SwHistory
  import QueueFile
  import SwQueue
  import opened FileHost

  /** What went wrong while choosing, all reported as "Failed to select wallpaper". */
  datatype Cause =
    | QueueFailed             // reading or rewriting the queue raised
    | ConfigFailed            // `wallpaper_dir` or `recency_exclude` raised
    | NotListable(dir: string) // `iterdir` on something that is not a directory
    | NoCandidates(dir: string)

  datatype WallpaperError =
    | SelectFailed(cause: Cause)   // `WallpaperError` wrapping the cause
    | InvalidImage(path: string)   // `InvalidImageError`
    | HistoryWriteFailed           // `history.add` raised
    | HistoryIndex(index: int)     // `set_by_history_index` on a bad index

  /**
   * What `set_wallpaper` leaves behind: the path set or the error, the new
   * queue file text when the head of the queue was taken, and the new
   * history when it was written.
   */
  datatype Outcome = Outcome(result: Result<string, WallpaperError>, queue: Option<string>, history: Option<seq<Entry>>)

  /** `ignore_recency`: the directory is, or lies under, an excluded one. */
  predicate IgnoresRecency(host: Host, dir: string, excludes: seq<string>) {
    Excluded(host, dir, ExcludeDirs(host, excludes))
  }

  /** The files `_get_random_wallpaper` may choose from. */
  predicate Candidate(host: Host, recent: set<string>, ignore: bool, f: string) {
    host.isFile(f) && host.isImage(f) && (ignore || f !in recent)
  }

  function CandidateTest(host: Host, recent: set<string>, ignore: bool): string -> bool {
    f => Candidate(host, recent, ignore, f)
  }

  /** `_get_random_wallpaper`. */
  function RandomWallpaper(host: Host, data: seq<Field>, history: seq<Entry>, now: int, timeout: int,
                           directory: string, draw: nat)
    : (r: Result<string, Cause>)
    ensures SwConfig.RecencyExclude(data).Err? ==> r == Err(ConfigFailed)
    ensures SwConfig.RecencyExclude(data).Ok? && !host.isDir(host.resolve(directory)) ==>
              r == Err(NotListable(host.resolve(directory)))
    ensures var d := host.resolve(directory);
            SwConfig.RecencyExclude(data).Ok? && host.isDir(d) ==>
              var ignore := IgnoresRecency(host, d, SwConfig.RecencyExclude(data).value);
              var recent := RecentPaths(history, now, timeout);
              (r.Ok? <==> exists f :: f in host.listDir(d) && Candidate(host, recent, ignore, f)) &&
              (r.Ok? ==> r.value in host.listDir(d) && Candidate(host, recent, ignore, r.value)) &&
              (r.Err? ==> r == Err(NoCandidates(d)))
  {
    var d := host.resolve(directory);
    var recent := RecentPaths(history, now, timeout);
    match SwConfig.RecencyExclude(data)
    case Err(_) => Err(ConfigFailed)
    case Ok(excludes) =>
      var ignore := IgnoresRecency(host, d, excludes);
      if !host.isDir(d) then Err(NotListable(d))
      else
        var candidates := PySeq.Filter(host.listDir(d), CandidateTest(host, recent, ignore));
        if candidates == [] then Err(NoCandidates(d))
        else Ok(candidates[draw % |candidates|])
  }

  /**
   * The choosing half of `set_wallpaper`, inside its `try`: a given
   * directory is picked from, a given file taken as it is; otherwise the
   * head of the queue, removed from the queue at once; otherwise a pick from
   * `wallpaper_dir`.  The second component is the rewritten queue.
   */
  function Choose(host: Host, data: seq<Field>, history: seq<Entry>, now: int, timeout: int,
                  queue: QueueFile.TextFile, canWrite: bool, matches: (string, string) -> bool,
                  path: Option<string>, draw: nat)
    : (r: (Result<string, Cause>, Option<string>))
    ensures path.Some? && path.value != [] ==> r.1.None?
    ensures path.Some? && path.value != [] && !host.isDir(path.value) ==> r.0 == Ok(path.value)
    ensures path.Some? && path.value != [] && host.isDir(path.value) ==>
              r.0 == RandomWallpaper(host, data, history, now, timeout, path.value, draw)
    ensures !(path.Some? && path.value != []) && SwQueue.ReadQueue(queue).Err? ==> r == (Err(QueueFailed), None)
    ensures !(path.Some? && path.value != []) && SwQueue.ReadQueue(queue).Ok? && SwQueue.ReadQueue(queue).value != [] ==>
              var next := SwQueue.ReadQueue(queue).value[0];
              var written := SwQueue.Rm(queue, [next], matches, canWrite);
              if written.Ok? then r == (Ok(next), Some(written.value)) else r == (Err(QueueFailed), None)
    ensures !(path.Some? && path.value != []) && SwQueue.ReadQueue(queue) == Ok([]) ==>
              r.1.None? &&
              match SwConfig.WallpaperDir(data)
              case Err(_) => r.0 == Err(ConfigFailed)
              case Ok(w) => r.0 == RandomWallpaper(host, data, history, now, timeout, w, draw)
  {
    if path.Some? && path.value != [] then
      var target := path.value;
      if host.isDir(target) then (RandomWallpaper(host, data, history, now, timeout, target, draw), None)
      else (Ok(target), None)
    else
      match SwQueue.ReadQueue(queue)
      case Err(_) => (Err(QueueFailed), None)
      case Ok(entries) =>
        if entries != [] then
          var next := entries[0];
          match SwQueue.Rm(queue, [next], matches, canWrite)
          case Err(_) => (Err(QueueFailed), None)
          case Ok(text) => (Ok(next), Some(text))
        else
          match SwConfig.WallpaperDir(data)
          case Err(_) => (Err(ConfigFailed), None)
          case Ok(w) => (RandomWallpaper(host, data, history, now, timeout, w, draw), None)
  }

  /**
   * `set_wallpaper`: a choice that fails is wrapped; the chosen path must
   * be a valid image before anything else is touched; then the history
   * records it (`history.add`) and it is returned.
   */
  function SetWallpaper(host: Host, data: seq<Field>, history: seq<Entry>, now: int, timeout: int, limit: int,
                        queue: QueueFile.TextFile, canWrite: bool, historyWritable: bool,
                        matches: (string, string) -> bool, path: Option<string>, draw: nat)
    : (r: Outcome)
    ensures var c := Choose(host, data, history, now, timeout, queue, canWrite, matches, path, draw);
            r.queue == c.1 &&
            (c.0.Err? ==> r.result == Err(SelectFailed(c.0.error)) && r.history.None?) &&
            (c.0.Ok? && !host.isImage(c.0.value) ==> r.result == Err(InvalidImage(c.0.value)) && r.history.None?) &&
            (c.0.Ok? && host.isImage(c.0.value) && !historyWritable ==> r.result == Err(HistoryWriteFailed) && r.history.None?) &&
            (c.0.Ok? && host.isImage(c.0.value) && historyWritable ==>
               r.result == Ok(c.0.value) && r.history == Some(Add(history, c.0.value, now, limit)))
    ensures r.result.Ok? ==> host.isImage(r.result.value) && r.history == Some(Add(history, r.result.value, now, limit))
  {
    var (chosen, written) := Choose(host, data, history, now, timeout, queue, canWrite, matches, path, draw);
    match chosen
    case Err(cause) => Outcome(Err(SelectFailed(cause)), written, None)
    case Ok(target) =>
      if !host.isImage(target) then Outcome(Err(InvalidImage(target)), written, None)
      else if !historyWritable then Outcome(Err(HistoryWriteFailed), written, None)
      else Outcome(Ok(target), written, Some(Add(history, target, now, limit)))
  }

  /** `set_by_history_index`: the path at a Python index into the history, set as if given. */
  function SetByHistoryIndex(host: Host, data: seq<Field>, history: seq<Entry>, now: int, timeout: int, limit: int,
                             queue: QueueFile.TextFile, canWrite: bool, historyWritable: bool,
                             matches: (string, string) -> bool, index: int, draw: nat)
    : (r: Outcome)
    ensures !(-|history| <= index < |history|) ==> r == Outcome(Err(HistoryIndex(index)), None, None)
    ensures -|history| <= index < |history| ==>
              r == SetWallpaper(host, data, history, now, timeout, limit, queue, canWrite, historyWritable, matches,
                                Some(history[PySeq.Normalize(|history|, index)].path), draw)
  {
    match GetByIndex(history, index)
    case Err(_) => Outcome(Err(HistoryIndex(index)), None, None)
    case Ok(p) => SetWallpaper(host, data, history, now, timeout, limit, queue, canWrite, historyWritable, matches, Some(p), draw)
  }

  /** A wallpaper that is set ends the history, which keeps at most `limit` entries. */
  lemma SetRecordsNewest(host: Host, data: seq<Field>, history: seq<Entry>, now: int, timeout: int, limit: int,
                         queue: QueueFile.TextFile, canWrite: bool, matches: (string, string) -> bool,
                         path: Option<string>, draw: nat)
    requires limit >= 1
    requires SetWallpaper(host, data, history, now, timeout, limit, queue, canWrite, true, matches, path, draw).result.Ok?
    ensures var r := SetWallpaper(host, data, history, now, timeout, limit, queue, canWrite, true, matches, path, draw);
            var h := r.history.value;
            h != [] && h[|h| - 1].path == r.result.value && |h| <= limit + |history|
  {
    var r := SetWallpaper(host, data, history, now, timeout, limit, queue, canWrite, true, matches, path, draw);
    AddEndsWith(history, r.result.value, now, limit);
  }

  /** Setting an index of the history adds that entry's path to it as the newest. */
  lemma SetByIndexRecords(host: Host, data: seq<Field>, history: seq<Entry>, now: int, timeout: int, limit: int,
                          queue: QueueFile.TextFile, canWrite: bool, matches: (string, string) -> bool, k: nat, draw: nat)
    requires limit >= 1 && k < |history|
    requires var p := history[k].path; p != [] && !host.isDir(p) && host.isImage(p)
    ensures var r := SetByHistoryIndex(host, data, history, now, timeout, limit, queue, canWrite, true, matches, k, draw);
            r.result == Ok(history[k].path) && r.queue.None? &&
            r.history.value[|r.history.value| - 1].path == history[k].path
  {
    SetRecordsNewest(host, data, history, now, timeout, limit, queue, canWrite, matches, Some(history[k].path), draw);
  }

  /** In an excluded directory every image file qualifies, however recently it was shown. */
  lemma ExcludedDirIgnoresRecency(host: Host, data: seq<Field>, history: seq<Entry>, now: int, timeout: int,
                                  directory: string, draw: nat, f: string)
    requires SwConfig.RecencyExclude(data).Ok?
    requires var d := host.resolve(directory);
             host.isDir(d) && IgnoresRecency(host, d, SwConfig.RecencyExclude(data).value)
    requires f in host.listDir(host.resolve(directory)) && host.isFile(f) && host.isImage(f)
    ensures RandomWallpaper(host, data, history, now, timeout, directory, draw).Ok?
  {
    var d := host.resolve(directory);
    assert Candidate(host, RecentPaths(history, now, timeout), true, f);
  }

  /** Outside the excluded directories, a file shown at or after `now - timeout` is never picked. */
  lemma RecentNeverPicked(host: Host, data: seq<Field>, history: seq<Entry>, now: int, timeout: int,
                          directory: string, draw: nat, i: nat)
    requires SwConfig.RecencyExclude(data).Ok?
    requires !IgnoresRecency(host, host.resolve(directory), SwConfig.RecencyExclude(data).value)
    requires i < |history| && history[i].time >= now - timeout
    requires RandomWallpaper(host, data, history, now, timeout, directory, draw).Ok?
    ensures RandomWallpaper(host, data, history, now, timeout, directory, draw).value != history[i].path
  {
  }

  /** The head of the queue leaves the queue even when it is then refused as an image. */
  lemma QueueHeadDropped(host: Host, data: seq<Field>, history: seq<Entry>, now: int, timeout: int, limit: int,
                         queue: QueueFile.TextFile, matches: (string, string) -> bool, draw: nat)
    requires SwQueue.ReadQueue(queue).Ok? && SwQueue.ReadQueue(queue).value != []
    requires var next := SwQueue.ReadQueue(queue).value[0]; matches(next, next) && !host.isImage(next)
    ensures var next := SwQueue.ReadQueue(queue).value[0];
            var r := SetWallpaper(host, data, history, now, timeout, limit, queue, true, true, matches, None, draw);
            r.result == Err(InvalidImage(next)) && r.history.None? && r.queue.Some? &&
            next !in SwQueue.ReadQueue(QueueFile.Text(r.queue.value)).value
  {
    var next := SwQueue.ReadQueue(queue).value[0];
    var written := SwQueue.Rm(queue, [next], matches, true);
    assert written.Ok?;
    var c := Choose(host, data, history, now, timeout, queue, true, matches, None, draw);
    assert c == (Ok(next), Some(written.value));
    var r := SetWallpaper(host, data, history, now, timeout, limit, queue, true, true, matches, None, draw);
    assert r.result == Err(InvalidImage(next)) && r.history.None? && r.queue == Some(written.value);
    SwQueue.RmThenRead(queue, [next], matches);
    var q := SwQueue.ReadQueue(QueueFile.Text(written.value)).value;
    assert QueueFile.MatchesAny(next, [next], matches) by {
      assert matches(next, [next][0]);
    }
    assert forall k :: 0 <= k < |q| ==> !QueueFile.MatchesAny(q[k], [next], matches);
  }
}
