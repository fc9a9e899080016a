/**
 * `WallpaperSelector` of `sw_cli/wallpaper/selector.py`: which wallpaper
 * `set` shows.  An explicit path wins; then the head of the queue; then a
 * random image of the configured directory that was not shown recently.
 * The filesystem and `pathlib` enter as a `FileHost.Host`; the random
 * choice is a number `draw` that is reduced modulo the candidates; the
 * clock is the integer `now` (ages and timeouts are whole seconds, so
 * comparing them against a fractional `time.time()` gives the same answer).
 */
module CliSelector {
  import opened Base
  import opened Json
  import PySeq
  import LibConfig
  import opened LibHistoryEntry
  import LibHistory
  import QueueFile
  import CliQueueManager
  import opened FileHost

  datatype SelectError =
    | NoCurrentWallpaper          // `use_dir` on an empty history
    | PathMissing(path: string)   // the given path does not exist
    | NotAnImage(path: string)    // the given file is not an image
    | QueuedMissing(path: string) // the queued path does not exist
    | QueuedNotAnImage(path: string)
    | InvalidDirectory(dir: string) // `WallpaperDirectoryError`
    | NoCandidates(dir: string)   // "No suitable wallpapers found"
    | PickFailed                  // any other error inside `_pick_from_directory`
    | Unexpected                  // any other error, wrapped by `select_wallpaper`

  /**
   * What a selection leaves behind: the chosen path or the error, and the
   * queue file text written when the head of the queue was taken — written
   * before the path is checked, so also when it is then rejected.
   */
  datatype Selected = Selected(result: Result<string, SelectError>, queue: Option<string>)

  /** Whether an entry keeps its file out of the pick: a non-zero timeout it is younger than, outside the excluded directories. */
  predicate Blocks(host: Host, e: Entry, now: int, timeout: int, dirs: seq<string>) {
    timeout != 0 && now - e.time < timeout && !Excluded(host, host.parent(host.resolve(e.path)), dirs)
  }

  /** `recent_paths`: the resolved paths of the entries that block. */
  function RecentPaths(host: Host, recent: seq<Entry>, now: int, timeout: int, dirs: seq<string>): (r: set<string>)
    ensures forall p :: p in r <==> exists i :: 0 <= i < |recent| && Blocks(host, recent[i], now, timeout, dirs) && host.resolve(recent[i].path) == p
  {
    set i | 0 <= i < |recent| && Blocks(host, recent[i], now, timeout, dirs) :: host.resolve(recent[i].path)
  }

  /** The files of a directory `_pick_from_directory` may choose from. */
  predicate Candidate(host: Host, recentPaths: set<string>, f: string) {
    host.isFile(f) && host.isImage(f) && f !in recentPaths
  }

  function CandidateTest(host: Host, recentPaths: set<string>): string -> bool {
    f => Candidate(host, recentPaths, f)
  }

  function Candidates(host: Host, dir: string, recentPaths: set<string>): (r: seq<string>)
    ensures forall i :: 0 <= i < |r| ==> r[i] in host.listDir(dir) && Candidate(host, recentPaths, r[i])
    ensures forall f :: f in host.listDir(dir) && Candidate(host, recentPaths, f) ==> f in r
  {
    PySeq.Filter(host.listDir(dir), CandidateTest(host, recentPaths))
  }

  /**
   * The timeout the recency loop compares against: `config.recency_timeout`,
   * which is read only once there is a recent entry to compare.
   */
  function LoopTimeout(data: Json, recent: seq<Entry>): (r: Result<int, LibConfig.ConfigError>)
    ensures recent == [] ==> r == Ok(0)
    ensures recent != [] ==> r == LibConfig.RecencyTimeout(data)
  {
    if recent == [] then Ok(0) else LibConfig.RecencyTimeout(data)
  }

  /**
   * `_pick_from_directory`.  `timeout` is the history manager's own recency
   * timeout, which `get_recent_entries` uses; the configuration's is checked
   * again for each recent entry.
   */
  function Pick(host: Host, data: Json, history: seq<Entry>, timeout: int, now: int, directory: string, draw: nat)
    : (r: Result<string, SelectError>)
    ensures var d := host.resolve(directory);
            !(host.present(d) && host.isDir(d)) ==> r == Err(InvalidDirectory(d))
    ensures var d := host.resolve(directory);
            host.present(d) && host.isDir(d) && LibConfig.RecencyExclude(data).Err? ==> r == Err(PickFailed)
    ensures var d := host.resolve(directory);
            var recent := LibHistory.RecentEntries(history, now, timeout);
            host.present(d) && host.isDir(d) && LibConfig.RecencyExclude(data).Ok? && LoopTimeout(data, recent).Err? ==>
              r == Err(PickFailed)
    ensures var d := host.resolve(directory);
            var recent := LibHistory.RecentEntries(history, now, timeout);
            host.present(d) && host.isDir(d) && LibConfig.RecencyExclude(data).Ok? && LoopTimeout(data, recent).Ok? ==>
              var paths := RecentPaths(host, recent, now, LoopTimeout(data, recent).value,
                                       ExcludeDirs(host, LibConfig.RecencyExclude(data).value));
              (r.Ok? <==> exists f :: f in host.listDir(d) && Candidate(host, paths, f)) &&
              (r.Ok? ==> r.value in host.listDir(d) && Candidate(host, paths, r.value)) &&
              (r.Err? ==> r == Err(NoCandidates(d)))
  {
    var d := host.resolve(directory);
    if !host.present(d) || !host.isDir(d) then Err(InvalidDirectory(d))
    else
      match LibConfig.RecencyExclude(data)
      case Err(_) => Err(PickFailed)
      case Ok(excludes) =>
        var recent := LibHistory.RecentEntries(history, now, timeout);
        match LoopTimeout(data, recent)
        case Err(_) => Err(PickFailed)
        case Ok(t) =>
          var paths := RecentPaths(host, recent, now, t, ExcludeDirs(host, excludes));
          var candidates := Candidates(host, d, paths);
          if candidates == [] then Err(NoCandidates(d))
          else Ok(candidates[draw % |candidates|])
  }

  /** The given path, the queue and the configured directory, in that order (`use_dir` aside). */
  function SelectOther(host: Host, data: Json, history: seq<Entry>, timeout: int, now: int,
                       queue: QueueFile.TextFile, canWrite: bool, path: Option<string>, draw: nat)
    : (r: Selected)
    ensures path.Some? && path.value != [] ==> r.queue.None?
    ensures path.Some? && path.value != [] ==>
              var t := path.value;
              if !host.present(t) then r.result == Err(PathMissing(t))
              else if host.isDir(t) then r.result == Pick(host, data, history, timeout, now, t, draw)
              else if !host.isImage(t) then r.result == Err(NotAnImage(t))
              else r.result == Ok(t)
    ensures !(path.Some? && path.value != []) && CliQueueManager.Get(queue).Err? ==> r == Selected(Err(Unexpected), None)
    ensures !(path.Some? && path.value != []) && CliQueueManager.Get(queue).Ok? && CliQueueManager.Get(queue).value != [] ==>
              var next := CliQueueManager.Get(queue).value[0];
              var written := CliQueueManager.Remove(queue, [next], canWrite);
              if written.Err? then r == Selected(Err(Unexpected), None)
              else r.queue == Some(written.value) &&
                   (if !host.present(next) then r.result == Err(QueuedMissing(next))
                    else if !host.isImage(next) then r.result == Err(QueuedNotAnImage(next))
                    else r.result == Ok(next))
    ensures !(path.Some? && path.value != []) && CliQueueManager.Get(queue) == Ok([]) ==>
              r.queue.None? &&
              match LibConfig.WallpaperDir(data)
              case Err(_) => r.result == Err(Unexpected)
              case Ok(w) => r.result == Pick(host, data, history, timeout, now, w, draw)
  {
    if path.Some? && path.value != [] then
      var t := path.value;
      if !host.present(t) then Selected(Err(PathMissing(t)), None)
      else if host.isDir(t) then Selected(Pick(host, data, history, timeout, now, t, draw), None)
      else if !host.isImage(t) then Selected(Err(NotAnImage(t)), None)
      else Selected(Ok(t), None)
    else
      match CliQueueManager.Get(queue)
      case Err(_) => Selected(Err(Unexpected), None)
      case Ok(queued) =>
        if queued != [] then
          var next := queued[0];
          match CliQueueManager.Remove(queue, [next], canWrite)
          case Err(_) => Selected(Err(Unexpected), None)
          case Ok(text) =>
            if !host.present(next) then Selected(Err(QueuedMissing(next)), Some(text))
            else if !host.isImage(next) then Selected(Err(QueuedNotAnImage(next)), Some(text))
            else Selected(Ok(next), Some(text))
        else
          match LibConfig.WallpaperDir(data)
          case Err(_) => Selected(Err(Unexpected), None)
          case Ok(w) => Selected(Pick(host, data, history, timeout, now, w, draw), None)
  }

  /**
   * `select_wallpaper` as written.  With `use_dir`, a non-empty history
   * gives a `HistoryEntry`, which `Path(...)` refuses with a `TypeError`
   * that becomes the wrapped error.
   */
  function Select(host: Host, data: Json, history: seq<Entry>, timeout: int, now: int,
                  queue: QueueFile.TextFile, canWrite: bool, path: Option<string>, useDir: bool, draw: nat)
    : (r: Selected)
    ensures useDir ==> r.queue.None? && r.result.Err?
    ensures useDir && history == [] ==> r.result == Err(NoCurrentWallpaper)
    ensures useDir && history != [] ==> r.result == Err(Unexpected)
    ensures !useDir ==> r == SelectOther(host, data, history, timeout, now, queue, canWrite, path, draw)
  {
    if useDir then
      match LibHistory.Get(history, -1)
      case None => Selected(Err(NoCurrentWallpaper), None)
      case Some(_) => Selected(Err(Unexpected), None)
    else SelectOther(host, data, history, timeout, now, queue, canWrite, path, draw)
  }

  /** `use_dir` never yields a wallpaper, whatever the history and the directories hold. */
  lemma UseDirNeverSelects(host: Host, data: Json, history: seq<Entry>, timeout: int, now: int,
                           queue: QueueFile.TextFile, canWrite: bool, path: Option<string>, draw: nat)
    requires history != []
    requires var d := host.resolve(host.parent(history[|history| - 1].path));
             host.present(d) && host.isDir(d) && LibConfig.RecencyExclude(data) == Ok([]) &&
             (forall f :: f in host.listDir(d) ==> host.isFile(f) && host.isImage(f)) &&
             host.listDir(d) != [] && LibConfig.RecencyTimeout(data) == Ok(0)
    ensures Select(host, data, history, timeout, now, queue, canWrite, path, true, draw).result == Err(Unexpected)
    ensures SelectIntended(host, data, history, timeout, now, queue, canWrite, path, true, draw).result.Ok?
  {
    var d := host.resolve(host.parent(history[|history| - 1].path));
    var recent := LibHistory.RecentEntries(history, now, timeout);
    assert LoopTimeout(data, recent) == Ok(0);
    ZeroTimeoutIgnoresRecency(host, recent, now, ExcludeDirs(host, []));
    var f := host.listDir(d)[0];
    assert f in host.listDir(d) && Candidate(host, {}, f);
  }

  /** `select_wallpaper` with `use_dir` picking from the directory of the newest entry's path. */
  function SelectIntended(host: Host, data: Json, history: seq<Entry>, timeout: int, now: int,
                          queue: QueueFile.TextFile, canWrite: bool, path: Option<string>, useDir: bool, draw: nat)
    : (r: Selected)
    ensures useDir ==> r.queue.None?
    ensures useDir && history == [] ==> r.result == Err(NoCurrentWallpaper)
    ensures useDir && history != [] ==>
              r.result == Pick(host, data, history, timeout, now, host.parent(history[|history| - 1].path), draw)
    ensures useDir && history != [] && r.result.Ok? ==>
              r.result.value in host.listDir(host.resolve(host.parent(history[|history| - 1].path)))
    ensures !useDir ==> r == SelectOther(host, data, history, timeout, now, queue, canWrite, path, draw)
  {
    if useDir then
      match LibHistory.Get(history, -1)
      case None => Selected(Err(NoCurrentWallpaper), None)
      case Some(e) => Selected(Pick(host, data, history, timeout, now, host.parent(e.path), draw), None)
    else SelectOther(host, data, history, timeout, now, queue, canWrite, path, draw)
  }

  /** Every candidate is chosen by some draw. */
  lemma EveryCandidateReachable(host: Host, dir: string, recentPaths: set<string>, f: string)
    requires f in host.listDir(dir) && Candidate(host, recentPaths, f)
    ensures exists draw: nat :: var c := Candidates(host, dir, recentPaths); draw < |c| && c[draw] == f
  {
    var c := Candidates(host, dir, recentPaths);
    var i := PySeq.IndexOf(c, f);
    assert i < |c| && c[i] == f;
  }

  /** A zero timeout in the configuration switches recency off: every image file may be chosen. */
  lemma ZeroTimeoutIgnoresRecency(host: Host, recent: seq<Entry>, now: int, dirs: seq<string>)
    ensures RecentPaths(host, recent, now, 0, dirs) == {}
  {
  }

  /** A file whose directory is excluded is never held back by recency. */
  lemma ExcludedNeverRecent(host: Host, recent: seq<Entry>, now: int, timeout: int, dirs: seq<string>, f: string)
    requires Excluded(host, host.parent(f), dirs)
    ensures f !in RecentPaths(host, recent, now, timeout, dirs)
  {
  }

  /** An entry exactly `timeout` seconds old no longer blocks its file. */
  lemma AgeAtTimeoutDoesNotBlock(host: Host, e: Entry, timeout: int, dirs: seq<string>)
    ensures !Blocks(host, e, e.time + timeout, timeout, dirs)
  {
  }

  /** A queued path is taken off the queue even when it is then refused. */
  lemma QueueHeadDropped(host: Host, data: Json, history: seq<Entry>, timeout: int, now: int,
                         queue: QueueFile.TextFile, draw: nat)
    requires CliQueueManager.Get(queue).Ok? && CliQueueManager.Get(queue).value != []
    ensures var r := Select(host, data, history, timeout, now, queue, true, None, false, draw);
            var q := CliQueueManager.Get(queue).value;
            r.queue.Some? && q[0] !in CliQueueManager.Get(QueueFile.Text(r.queue.value)).value
  {
    var q := CliQueueManager.Get(queue).value;
    CliQueueManager.RemoveThenGet(queue, [q[0]]);
  }
}
