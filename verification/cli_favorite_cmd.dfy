/**
 * `favorite add` and `favorite rm` of `sw_cli/cmds/favorite_cmd.py`, over
 * the library configuration and history manager.  The commands start from
 * the favourites as `config.favorites` gives them (resolved path strings)
 * and the loaded history; `Path(p).expanduser().resolve()` is the
 * parameter `resolve`.  Both commands stop early when there are no
 * favourites yet, `add` included (see `FirstFavoriteRefused`).
 */
module CliFavoriteCmd {
  import opened Base
  import opened PyStr
  import opened LibHistoryEntry
  import LibHistory
  import CliCommon
  import opened FavoriteChange

  datatype FavoriteError =
    | BadIndex(index: string)    // `resolve_indexed_path` raised `ValueError`
    | NoCurrentWallpaper         // `hm.get(-1)` on an empty history

  /** `if path:` — an argument was given and it is not empty. */
  predicate Given(path: Option<string>) {
    path.Some? && path.value != []
  }

  /** The current wallpaper: the newest history entry, resolved. */
  function Current(history: seq<Entry>, resolve: string -> string): (r: Result<string, FavoriteError>)
    ensures r.Ok? <==> history != []
    ensures r.Ok? ==> r.value == resolve(history[|history| - 1].path)
    ensures r.Err? ==> r.error == NoCurrentWallpaper
  {
    match LibHistory.Get(history, -1)
    case None => Err(NoCurrentWallpaper)
    case Some(e) => Ok(resolve(e.path))
  }

  /** The path `add` means: `@N` counts into the history, a plain path is taken as given. */
  function AddTarget(history: seq<Entry>, path: Option<string>, resolve: string -> string): (r: Result<string, FavoriteError>)
    ensures !Given(path) ==> r == Current(history, resolve)
    ensures Given(path) && StartsWith(path.value, "@") ==>
              (r.Ok? <==> CliCommon.ResolveIndexedPath(path.value, history).Ok?) &&
              (r.Ok? ==> r.value == resolve(CliCommon.ResolveIndexedPath(path.value, history).value.path)) &&
              (r.Err? ==> r.error == BadIndex(path.value))
    ensures Given(path) && !StartsWith(path.value, "@") ==> r == Ok(resolve(path.value))
  {
    if !Given(path) then Current(history, resolve)
    else if StartsWith(path.value, "@") then
      match CliCommon.ResolveIndexedPath(path.value, history)
      case Err(_) => Err(BadIndex(path.value))
      case Ok(e) => Ok(resolve(e.path))
    else Ok(resolve(path.value))
  }

  /** The path `rm` means: `@N` counts into the favourites themselves. */
  function RmTarget(favorites: seq<string>, history: seq<Entry>, path: Option<string>, resolve: string -> string)
    : (r: Result<string, FavoriteError>)
    ensures !Given(path) ==> r == Current(history, resolve)
    ensures Given(path) && StartsWith(path.value, "@") ==>
              (r.Ok? <==> CliCommon.ResolveIndexedPath(path.value, favorites).Ok?) &&
              (r.Ok? ==> r.value == resolve(CliCommon.ResolveIndexedPath(path.value, favorites).value)) &&
              (r.Err? ==> r.error == BadIndex(path.value))
    ensures Given(path) && !StartsWith(path.value, "@") ==> r == Ok(resolve(path.value))
  {
    if !Given(path) then Current(history, resolve)
    else if StartsWith(path.value, "@") then
      match CliCommon.ResolveIndexedPath(path.value, favorites)
      case Err(_) => Err(BadIndex(path.value))
      case Ok(f) => Ok(resolve(f))
    else Ok(resolve(path.value))
  }

  /** `favorite add` as written: an empty list of favourites ends it before anything is added. */
  function Add(favorites: seq<string>, history: seq<Entry>, path: Option<string>, resolve: string -> string)
    : (r: Result<Change<string>, FavoriteError>)
    ensures favorites == [] ==> r == Ok(Noted(NoFavorites))
    ensures favorites != [] ==> r == AddFavorite(favorites, history, path, resolve)
  {
    if favorites == [] then Ok(Noted(NoFavorites))
    else AddFavorite(favorites, history, path, resolve)
  }

  /** However it is named, no path ever becomes the first favourite. */
  lemma FirstFavoriteRefused(history: seq<Entry>, p: string, resolve: string -> string)
    requires p != [] && !StartsWith(p, "@")
    ensures Add([], history, Some(p), resolve) == Ok(Noted(NoFavorites))
    ensures AddFavorite([], history, Some(p), resolve) == Ok(Written([resolve(p)], resolve(p)))
  {
    assert [] + [resolve(p)] == [resolve(p)];
  }

  /** `favorite add` without the early return: the named path is stored unless it is there already. */
  function AddFavorite(favorites: seq<string>, history: seq<Entry>, path: Option<string>, resolve: string -> string)
    : (r: Result<Change<string>, FavoriteError>)
    ensures r.Err? <==> AddTarget(history, path, resolve).Err?
    ensures r.Ok? ==> var p := AddTarget(history, path, resolve).value;
              (p in favorites <==> r.value == Noted(AlreadyPresent)) &&
              (p !in favorites ==> r.value.Written? && r.value.path == p && r.value.favorites == favorites + [p])
  {
    match AddTarget(history, path, resolve)
    case Err(e) => Err(e)
    case Ok(p) => Ok(AddTo(favorites, p))
  }

  /** `favorite rm`: an empty list ends it; otherwise the named path goes if it is there. */
  function Rm(favorites: seq<string>, history: seq<Entry>, path: Option<string>, resolve: string -> string)
    : (r: Result<Change<string>, FavoriteError>)
    ensures favorites == [] ==> r == Ok(Noted(NoFavorites))
    ensures favorites != [] ==> (r.Err? <==> RmTarget(favorites, history, path, resolve).Err?)
    ensures favorites != [] && r.Ok? ==> var p := RmTarget(favorites, history, path, resolve).value;
              (p !in favorites <==> r.value == Noted(NotPresent)) &&
              (p in favorites ==> r.value == RemoveFrom(favorites, p) && r.value.Written? && r.value.path == p &&
                                  multiset(r.value.favorites) + multiset{p} == multiset(favorites))
  {
    if favorites == [] then Ok(Noted(NoFavorites))
    else
      match RmTarget(favorites, history, path, resolve)
      case Err(e) => Err(e)
      case Ok(p) => Ok(RemoveFrom(favorites, p))
  }

  /** `rm @N` removes the N-th favourite, the favourites being paths `resolve` leaves alone. */
  lemma RmByIndex(favorites: seq<string>, history: seq<Entry>, k: nat, resolve: string -> string)
    requires k < |favorites| && resolve(favorites[k]) == favorites[k]
    ensures Rm(favorites, history, Some("@" + IntToString(k + 1)), resolve) == Ok(RemoveFrom(favorites, favorites[k]))
  {
    var index := "@" + IntToString(k + 1);
    assert index[..1] == "@";
    CliCommon.IndexNumberOf(k + 1);
    RmNamed(favorites, history, index, k, resolve);
  }

  /** `rm` by any text that resolves to favourite `k` removes it. */
  lemma RmNamed(favorites: seq<string>, history: seq<Entry>, index: string, k: nat, resolve: string -> string)
    requires k < |favorites| && resolve(favorites[k]) == favorites[k]
    requires index != [] && StartsWith(index, "@") && CliCommon.IndexNumber(index) == Some(k + 1)
    ensures Rm(favorites, history, Some(index), resolve) == Ok(RemoveFrom(favorites, favorites[k]))
  {
    CliCommon.ResolveEveryEntry(index, favorites, k);
    assert RmTarget(favorites, history, Some(index), resolve) == Ok(favorites[k]);
  }

  /** Adding the current wallpaper and then removing it (no path either time) gives the list back. */
  lemma AddThenRmCurrent(favorites: seq<string>, history: seq<Entry>, resolve: string -> string)
    requires favorites != [] && history != []
    requires resolve(history[|history| - 1].path) !in favorites
    ensures var p := resolve(history[|history| - 1].path);
            Add(favorites, history, None, resolve) == Ok(Written(favorites + [p], p)) &&
            Rm(favorites + [p], history, None, resolve) == Ok(Written(favorites, p))
  {
    AddThenRemove(favorites, resolve(history[|history| - 1].path));
  }
}
