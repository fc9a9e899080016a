/**
 * `favorite add` and `favorite rm` of `sw_cli/cmds/favorite.py`, over the
 * transitional history manager.  The favourites are the list
 * `CONFIG.get("favorites", [])` returned (the configuration module of this
 * generation is not part of this model); `Path(p).expanduser().resolve()`
 * is the parameter `resolve`.  Every failure ends the command with an
 * error message; a command that succeeds stores the list it returns.
 */
module CliFavorite {
  import opened Base
  import opened PyStr
  import opened Json
  import PySeq
  import CliHistory
  import opened FavoriteChange

  datatype FavoriteError =
    | NoCurrentWallpaper           // `get_current_wallpaper` on an empty history
    | BadIndexFormat(path: string) // `int(path[1:])` raised `ValueError`
    | HistoryIndex(index: int)     // `get_by_index` raised `HistoryIndexError`
    | FavoriteIndex(index: int)    // `rm @N` outside the favourites (`IndexError`)

  /** `if not path:` — no argument, or an empty one. */
  predicate Missing(path: Option<string>) {
    path.None? || path.value == []
  }

  /** The number in `@N`: `int(path[1:])`. */
  function IndexNumber(path: string): Option<int> {
    ParseInt(PySeq.SliceFrom(path, 1))
  }

  /** `get_current_wallpaper`: the newest entry's path. */
  function CurrentWallpaper(history: seq<CliHistory.Entry>): (r: Result<string, FavoriteError>)
    ensures r.Ok? <==> history != []
    ensures r.Ok? ==> r.value == history[|history| - 1].path
    ensures r.Err? ==> r.error == NoCurrentWallpaper
  {
    match CliHistory.GetByIndex(history, -1)
    case Err(_) => Err(NoCurrentWallpaper)
    case Ok(p) => Ok(p)
  }

  /**
   * The path `add` means, unresolved: the current wallpaper when none is
   * given, and then, if the text starts with `@`, the history entry at
   * `int(path[1:]) - 1` as a Python index (so `@0` is the newest).
   */
  function AddTarget(history: seq<CliHistory.Entry>, path: Option<string>): (r: Result<string, FavoriteError>)
    ensures Missing(path) && history == [] ==> r == Err(NoCurrentWallpaper)
    ensures var p := if Missing(path) then CurrentWallpaper(history) else Ok(path.value);
            p.Ok? && StartsWith(p.value, "@") ==> r == HistoryTarget(history, p.value)
    ensures var p := if Missing(path) then CurrentWallpaper(history) else Ok(path.value);
            p.Ok? && !StartsWith(p.value, "@") ==> r == p
  {
    var given := if Missing(path) then CurrentWallpaper(history) else Ok(path.value);
    match given
    case Err(e) => Err(e)
    case Ok(p) => if !StartsWith(p, "@") then Ok(p) else HistoryTarget(history, p)
  }

  /** The history entry an `@N` text names. */
  function HistoryTarget(history: seq<CliHistory.Entry>, p: string): (r: Result<string, FavoriteError>)
    ensures var k := IndexNumber(p);
            (k.None? ==> r == Err(BadIndexFormat(p))) &&
            (k.Some? ==> var n := k.value;
              (r.Ok? <==> -|history| <= n - 1 < |history|) &&
              (r.Ok? ==> r.value == history[PySeq.Normalize(|history|, n - 1)].path) &&
              (r.Err? ==> r.error == HistoryIndex(n - 1)))
  {
    var k := IndexNumber(p);
    if k.None? then Err(BadIndexFormat(p)) else EntryBefore(history, k.value)
  }

  /** `get_by_index(n - 1)`, its `HistoryIndexError` reported with the index. */
  function EntryBefore(history: seq<CliHistory.Entry>, n: int): (r: Result<string, FavoriteError>)
    ensures r.Ok? <==> -|history| <= n - 1 < |history|
    ensures r.Ok? ==> r.value == history[PySeq.Normalize(|history|, n - 1)].path
    ensures r.Err? ==> r.error == HistoryIndex(n - 1)
  {
    match CliHistory.GetByIndex(history, n - 1)
    case Err(_) => Err(HistoryIndex(n - 1))
    case Ok(q) => Ok(q)
  }

  /** `favorite add`: the resolved path is appended unless it is there already. */
  function Add(favorites: seq<Json>, history: seq<CliHistory.Entry>, path: Option<string>, resolve: string -> string)
    : (r: Result<Change<Json>, FavoriteError>)
    ensures r.Err? <==> AddTarget(history, path).Err?
    ensures r.Ok? ==> var p := Str(resolve(AddTarget(history, path).value));
              (p in favorites <==> r.value == Noted(AlreadyPresent)) &&
              (p !in favorites ==> r.value == Written(favorites + [p], p))
  {
    match AddTarget(history, path)
    case Err(e) => Err(e)
    case Ok(p) => Ok(AddTo(favorites, Str(resolve(p))))
  }

  /** `@0` names the current wallpaper: `int("0") - 1` is the Python index `-1` (unless the current path itself starts with `@`). */
  lemma AddAtZero(favorites: seq<Json>, history: seq<CliHistory.Entry>, resolve: string -> string)
    requires history != [] && !StartsWith(history[|history| - 1].path, "@")
    ensures Add(favorites, history, Some("@0"), resolve) == Add(favorites, history, None, resolve)
  {
    TargetAtZero(history);
  }

  lemma TargetAtZero(history: seq<CliHistory.Entry>)
    requires history != [] && !StartsWith(history[|history| - 1].path, "@")
    ensures AddTarget(history, Some("@0")) == AddTarget(history, None) == Ok(history[|history| - 1].path)
  {
    ZeroText();
    TargetAt(history, "@0", 0);
  }

  /** An `@N` text whose index is in range names that history entry. */
  lemma TargetAt(history: seq<CliHistory.Entry>, p: string, n: int)
    requires p != [] && StartsWith(p, "@") && IndexNumber(p) == Some(n) && -|history| <= n - 1 < |history|
    ensures AddTarget(history, Some(p)) == Ok(history[PySeq.Normalize(|history|, n - 1)].path)
  {
    assert !Missing(Some(p));
  }

  /** `@-k` names the wallpaper `k` places before the current one, the Python index `-k - 1`. */
  lemma AddAtNegative(favorites: seq<Json>, history: seq<CliHistory.Entry>, k: nat, resolve: string -> string)
    requires 1 <= k < |history|
    ensures Add(favorites, history, Some("@" + IntToString(-(k as int))), resolve) ==
            Ok(AddTo(favorites, Str(resolve(history[|history| - 1 - k].path))))
  {
    var n := -(k as int);
    var p := "@" + IntToString(n);
    assert p[..1] == "@";
    IndexNumberOf(n);
    AddAt(favorites, history, p, n, resolve);
  }

  /** Adding by an `@N` text whose index is in range adds that history entry. */
  lemma AddAt(favorites: seq<Json>, history: seq<CliHistory.Entry>, p: string, n: int, resolve: string -> string)
    requires p != [] && StartsWith(p, "@") && IndexNumber(p) == Some(n) && -|history| <= n - 1 < |history|
    ensures Add(favorites, history, Some(p), resolve) ==
            Ok(AddTo(favorites, Str(resolve(history[PySeq.Normalize(|history|, n - 1)].path))))
  {
    TargetAt(history, p, n);
  }

  /** What follows the marker of `"@" + str(i)` is `str(i)`. */
  lemma IndexNumberOf(i: int)
    ensures IndexNumber("@" + IntToString(i)) == Some(i)
  {
    assert PySeq.SliceFrom("@" + IntToString(i), 1) == IntToString(i);
    ParseIntToString(i);
  }

  lemma ZeroText()
    ensures StartsWith("@0", "@") && IndexNumber("@0") == Some(0) && !Missing(Some("@0"))
  {
    assert IntToString(0) == "0";
    assert "@" + IntToString(0) == "@0";
    IndexNumberOf(0);
  }


  /** `rm @N`: the `N`-th favourite is popped after a range check. */
  function RmIndexed(favorites: seq<Json>, path: string): (r: Result<Change<Json>, FavoriteError>)
    ensures IndexNumber(path).None? ==> r == Err(BadIndexFormat(path))
    ensures IndexNumber(path).Some? ==> var n := IndexNumber(path).value;
              if 1 <= n <= |favorites| then r == Ok(PopAt(favorites, n - 1)) && r.value.path == favorites[n - 1]
              else r == Err(FavoriteIndex(n))
  {
    match IndexNumber(path)
    case None => Err(BadIndexFormat(path))
    case Some(n) =>
      var index := n - 1;
      if index < 0 || index >= |favorites| then Err(FavoriteIndex(index + 1))
      else Ok(PopAt(favorites, index))
  }

  /**
   * `favorite rm`: `@N` goes through `RmIndexed`; otherwise the resolved
   * path (the current wallpaper when none is given) is removed if it is
   * there.
   */
  function Rm(favorites: seq<Json>, history: seq<CliHistory.Entry>, path: Option<string>, resolve: string -> string)
    : (r: Result<Change<Json>, FavoriteError>)
    ensures Missing(path) && history == [] ==> r == Err(NoCurrentWallpaper)
    ensures Missing(path) && history != [] ==> r == Ok(RemoveFrom(favorites, Str(resolve(history[|history| - 1].path))))
    ensures !Missing(path) && StartsWith(path.value, "@") ==> r == RmIndexed(favorites, path.value)
    ensures !Missing(path) && !StartsWith(path.value, "@") ==> r == Ok(RemoveFrom(favorites, Str(resolve(path.value))))
  {
    if Missing(path) then
      match CurrentWallpaper(history)
      case Err(e) => Err(e)
      case Ok(p) => Ok(RemoveFrom(favorites, Str(resolve(p))))
    else if StartsWith(path.value, "@") then RmIndexed(favorites, path.value)
    else Ok(RemoveFrom(favorites, Str(resolve(path.value))))
  }

  /** Adding a plain path and then removing it by the same text gives the list back. */
  lemma AddThenRm(favorites: seq<Json>, history: seq<CliHistory.Entry>, p: string, resolve: string -> string)
    requires p != [] && !StartsWith(p, "@")
    requires Str(resolve(p)) !in favorites
    ensures Add(favorites, history, Some(p), resolve) == Ok(Written(favorites + [Str(resolve(p))], Str(resolve(p))))
    ensures Rm(favorites + [Str(resolve(p))], history, Some(p), resolve) == Ok(Written(favorites, Str(resolve(p))))
  {
    AddThenRemove(favorites, Str(resolve(p)));
  }
}
