/**
 * `favorite add` and `favorite rm` of `sw/cmds/favorite.py`, over the
 * original history manager.  The favourites are the list
 * `CONFIG.get("favorites", [])` returned; `Path(p).expanduser().resolve()`
 * is the parameter `resolve`.  A bad `@N` only prints a message here; the
 * one failure is an empty history where the current wallpaper is needed,
 * whose `ValueError` nothing catches.
 */
module SwFavorite {
  import opened Base
  import opened PyStr
  import opened Json
  import PySeq
  import SwHistory
  import opened FavoriteChange

  datatype FavoriteError = NoCurrentWallpaper

  /** `if not path:` — no argument, or an empty one. */
  predicate Missing(path: Option<string>) {
    path.None? || path.value == []
  }

  /** The number in `@N`: `int(path[1:])`. */
  function IndexNumber(path: string): Option<int> {
    ParseInt(PySeq.SliceFrom(path, 1))
  }

  /** `get_current_wallpaper`: the newest entry's path. */
  function CurrentWallpaper(history: seq<SwHistory.Entry>): (r: Result<string, FavoriteError>)
    ensures r.Ok? <==> history != []
    ensures r.Ok? ==> r.value == history[|history| - 1].path
  {
    match SwHistory.GetByIndex(history, -1)
    case Err(_) => Err(NoCurrentWallpaper)
    case Ok(p) => Ok(p)
  }

  /** The history path `@N` names in `add`, as the Python index `N - 1`; `None` prints "Invalid history index". */
  function HistoryAt(history: seq<SwHistory.Entry>, p: string): (r: Option<string>)
    ensures r.Some? <==> IndexNumber(p).Some? && -|history| <= IndexNumber(p).value - 1 < |history|
    ensures r.Some? ==> r.value == history[PySeq.Normalize(|history|, IndexNumber(p).value - 1)].path
  {
    match IndexNumber(p)
    case None => None
    case Some(n) =>
      match SwHistory.GetByIndex(history, n - 1)
      case Err(_) => None
      case Ok(q) => Some(q)
  }

  /**
   * `favorite add`: the current wallpaper when no path is given; a text
   * starting with `@` is looked up in the history; the resolved path is
   * appended unless it is there already.
   */
  function Add(favorites: seq<Json>, history: seq<SwHistory.Entry>, path: Option<string>, resolve: string -> string)
    : (r: Result<Change<Json>, FavoriteError>)
    ensures Missing(path) ==> (r.Err? <==> history == [])
    ensures !Missing(path) ==> r.Ok?
    ensures var p := if Missing(path) then CurrentWallpaper(history) else Ok(path.value);
            p.Ok? && StartsWith(p.value, "@") ==>
              if HistoryAt(history, p.value).None? then r == Ok(Noted(InvalidIndex))
              else r == Ok(AddTo(favorites, Str(resolve(HistoryAt(history, p.value).value))))
    ensures var p := if Missing(path) then CurrentWallpaper(history) else Ok(path.value);
            p.Ok? && !StartsWith(p.value, "@") ==> r == Ok(AddTo(favorites, Str(resolve(p.value))))
  {
    var given := if Missing(path) then CurrentWallpaper(history) else Ok(path.value);
    match given
    case Err(e) => Err(e)
    case Ok(p) =>
      if !StartsWith(p, "@") then Ok(AddTo(favorites, Str(resolve(p))))
      else
        match HistoryAt(history, p)
        case None => Ok(Noted(InvalidIndex))
        case Some(q) => Ok(AddTo(favorites, Str(resolve(q))))
  }

  /** `rm @N`: the `N`-th favourite is popped; a bad or out-of-range `N` prints "Invalid index". */
  function RmIndexed(favorites: seq<Json>, path: string): (r: Change<Json>)
    ensures IndexNumber(path).None? ==> r == Noted(InvalidIndex)
    ensures IndexNumber(path).Some? ==> var n := IndexNumber(path).value;
              if 1 <= n <= |favorites| then r == PopAt(favorites, n - 1) && r.path == favorites[n - 1]
              else r == Noted(InvalidIndex)
  {
    match IndexNumber(path)
    case None => Noted(InvalidIndex)
    case Some(n) =>
      var index := n - 1;
      if index < 0 || index >= |favorites| then Noted(InvalidIndex)
      else PopAt(favorites, index)
  }

  /**
   * `favorite rm`: `@N` goes through `RmIndexed`; otherwise the resolved
   * path (the current wallpaper when none is given) is removed if it is
   * there.
   */
  function Rm(favorites: seq<Json>, history: seq<SwHistory.Entry>, path: Option<string>, resolve: string -> string)
    : (r: Result<Change<Json>, FavoriteError>)
    ensures Missing(path) && history == [] ==> r == Err(NoCurrentWallpaper)
    ensures Missing(path) && history != [] ==> r == Ok(RemoveFrom(favorites, Str(resolve(history[|history| - 1].path))))
    ensures !Missing(path) && StartsWith(path.value, "@") ==> r == Ok(RmIndexed(favorites, path.value))
    ensures !Missing(path) && !StartsWith(path.value, "@") ==> r == Ok(RemoveFrom(favorites, Str(resolve(path.value))))
  {
    if Missing(path) then
      match CurrentWallpaper(history)
      case Err(e) => Err(e)
      case Ok(p) => Ok(RemoveFrom(favorites, Str(resolve(p))))
    else if StartsWith(path.value, "@") then Ok(RmIndexed(favorites, path.value))
    else Ok(RemoveFrom(favorites, Str(resolve(path.value))))
  }

  lemma AtZeroText()
    ensures StartsWith("@0", "@") && IndexNumber("@0") == Some(0) && !Missing(Some("@0"))
  {
    assert PySeq.SliceFrom("@0", 1) == IntToString(0);
    ParseIntToString(0);
  }

  /** `@0` means the newest history entry to `add` but is refused by `rm`. */
  lemma AtZeroAsymmetry(favorites: seq<Json>, history: seq<SwHistory.Entry>, resolve: string -> string)
    requires history != []
    ensures Add(favorites, history, Some("@0"), resolve) == Ok(AddTo(favorites, Str(resolve(history[|history| - 1].path))))
    ensures Rm(favorites, history, Some("@0"), resolve) == Ok(Noted(InvalidIndex))
  {
    AtZeroText();
    assert HistoryAt(history, "@0") == Some(history[|history| - 1].path);
  }

  /** Adding a plain path and then removing it by the same text gives the list back. */
  lemma AddThenRm(favorites: seq<Json>, history: seq<SwHistory.Entry>, p: string, resolve: string -> string)
    requires p != [] && !StartsWith(p, "@")
    requires Str(resolve(p)) !in favorites
    ensures Add(favorites, history, Some(p), resolve) == Ok(Written(favorites + [Str(resolve(p))], Str(resolve(p))))
    ensures Rm(favorites + [Str(resolve(p))], history, Some(p), resolve) == Ok(Written(favorites, Str(resolve(p))))
  {
    AddThenRemove(favorites, Str(resolve(p)));
  }
}
