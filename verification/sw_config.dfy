/**
 * The configuration store of the original generation (`sw`): one flat
 * JSON object.  Reads take an optional default; writes are limited to
 * the names of the class's properties.
 */
module SwConfig {
  import opened Base
  import opened Json

  datatype ConfigError =
    | FileMissing
    | Unreadable              // invalid JSON or an OS error while reading
    | NotAnObject
    | MissingKey(key: string)
    | InvalidKey(key: string)
    | NotAList(key: string)
    | InvalidInt(key: string)
    | NotAPath                // `Path(value)` raises `TypeError` for a non-string

  datatype ConfigFile = Missing | Broken | Parsed(doc: Json)

  /** The names declared as properties on the class, the only keys `set` accepts. */
  const Properties: seq<string> := [
    "config_file", "favorites", "hyprpaper_config_file", "hyprlock_config_file",
    "history_file", "history_limit", "queue_file", "recency_timeout",
    "recency_exclude", "wallpaper_dir"]

  /** `_is_valid_key`. */
  predicate IsValidKey(key: string) {
    key in Properties
  }

  /** `Config()`: the file must exist, parse, and hold an object. */
  function Load(file: ConfigFile): (r: Result<seq<Field>, ConfigError>)
    ensures r.Ok? <==> file.Parsed? && file.doc.Obj?
    ensures r.Ok? ==> r.value == file.doc.fields
  {
    match file
    case Missing => Err(FileMissing)
    case Broken => Err(Unreadable)
    case Parsed(doc) => if doc.Obj? then Ok(doc.fields) else Err(NotAnObject)
  }

  /**
   * `get(key, default)`: an absent key is an error only without a default;
   * a present key returns its stored value, even `null`.
   */
  function Get(data: seq<Field>, key: string, default: Json): (r: Result<Json, ConfigError>)
    ensures r.Err? <==> key !in Keys(data) && default == Null
    ensures r.Err? ==> r.error == MissingKey(key)
    ensures key in Keys(data) ==> r == Ok(Lookup(data, key).value)
    ensures key !in Keys(data) && default != Null ==> r == Ok(default)
  {
    if key !in Keys(data) && default == Null then Err(MissingKey(key))
    else Ok(Lookup(data, key).GetOr(default))
  }

  /** `set(key, value)` on the in-memory data; the key is validated before anything changes. */
  function Set(data: seq<Field>, key: string, v: Json): (r: Result<seq<Field>, ConfigError>)
    ensures r.Err? <==> !IsValidKey(key)
    ensures r.Err? ==> r.error == InvalidKey(key)
  {
    if !IsValidKey(key) then Err(InvalidKey(key)) else Ok(Put(data, key, v))
  }

  /** After a successful `set`, `get` returns the new value and every other key is as before. */
  lemma SetThenGet(data: seq<Field>, key: string, v: Json, other: string, default: Json)
    requires Set(data, key, v).Ok?
    ensures Get(Set(data, key, v).value, key, default) == Ok(v)
    ensures other != key ==> Get(Set(data, key, v).value, other, default) == Get(data, other, default)
  {
    PutLookup(data, key, v, other);
  }

  // ---- typed accessors ----

  /**
   * What reading a path setting yields: the default when the key is
   * absent, the stored text when it is a string, and `NotAPath` otherwise.
   */
  predicate PathRead(data: seq<Field>, key: string, default: string, r: Result<string, ConfigError>) {
    (key !in Keys(data) ==> r == Ok(default)) &&
    (key in Keys(data) ==> (r.Ok? <==> Lookup(data, key).value.Str?)) &&
    (key in Keys(data) && r.Ok? ==> Lookup(data, key) == Some(Str(r.value))) &&
    (r.Err? ==> r.error == NotAPath)
  }

  /** A path-valued setting with a string default: `Path(get(key, default))`. */
  function PathSetting(data: seq<Field>, key: string, default: string): (r: Result<string, ConfigError>)
    ensures PathRead(data, key, default, r)
  {
    match Lookup(data, key)
    case None => Ok(default)
    case Some(v) => if v.Str? then Ok(v.s) else Err(NotAPath)
  }

  function HyprpaperConfigFile(data: seq<Field>): (r: Result<string, ConfigError>)
    ensures PathRead(data, "hyprpaper_config_file", "~/.config/hypr/hyprpaper.conf", r)
  {
    PathSetting(data, "hyprpaper_config_file", "~/.config/hypr/hyprpaper.conf")
  }

  function HyprlockConfigFile(data: seq<Field>): (r: Result<string, ConfigError>)
    ensures PathRead(data, "hyprlock_config_file", "~/.config/hypr/hyprlock.conf", r)
  {
    PathSetting(data, "hyprlock_config_file", "~/.config/hypr/hyprlock.conf")
  }

  function HistoryFile(data: seq<Field>): (r: Result<string, ConfigError>)
    ensures PathRead(data, "history_file", "~/.cache/sw-history", r)
  {
    PathSetting(data, "history_file", "~/.cache/sw-history")
  }

  function QueueFile(data: seq<Field>): (r: Result<string, ConfigError>)
    ensures PathRead(data, "queue_file", "~/.cache/sw-queue", r)
  {
    PathSetting(data, "queue_file", "~/.cache/sw-queue")
  }

  /**
   * What reading an integer setting yields: the default when the key is
   * absent, the stored value as `int()` converts it, and `InvalidInt`
   * when the conversion fails.
   */
  predicate IntRead(data: seq<Field>, key: string, default: int, r: Result<int, ConfigError>) {
    (key !in Keys(data) ==> r == Ok(default)) &&
    (key in Keys(data) ==> (r.Ok? <==> ToInt(Lookup(data, key).value).Ok?)) &&
    (key in Keys(data) && r.Ok? ==> r == Ok(ToInt(Lookup(data, key).value).value)) &&
    (r.Err? ==> r.error == InvalidInt(key))
  }

  /** An integer setting with a default: `int(get(key, default))`, conversion failures re-raised. */
  function IntSetting(data: seq<Field>, key: string, default: int): (r: Result<int, ConfigError>)
    ensures IntRead(data, key, default, r)
  {
    match Get(data, key, Int(default))
    case Err(e) => Err(e)
    case Ok(v) => (match ToInt(v) case Ok(n) => Ok(n) case Err(_) => Err(InvalidInt(key)))
  }

  /** `history_limit`, 500 when absent; a stored `null` is an error, not the default. */
  function HistoryLimit(data: seq<Field>): (r: Result<int, ConfigError>)
    ensures IntRead(data, "history_limit", 500, r)
  {
    IntSetting(data, "history_limit", 500)
  }

  /** `recency_timeout`, 3600 when absent. */
  function RecencyTimeout(data: seq<Field>): (r: Result<int, ConfigError>)
    ensures IntRead(data, "recency_timeout", 3600, r)
  {
    IntSetting(data, "recency_timeout", 3600)
  }

  /**
   * What reading a list of paths yields: `[]` when the key is absent,
   * `NotAList` for a stored non-list, and otherwise the strings of the
   * list, which must all be strings.
   */
  predicate PathListRead(data: seq<Field>, key: string, r: Result<seq<string>, ConfigError>) {
    (key !in Keys(data) ==> r == Ok([])) &&
    (key in Keys(data) && !Lookup(data, key).value.Arr? ==> r == Err(NotAList(key))) &&
    (key in Keys(data) && Lookup(data, key).value.Arr? ==>
       var items := Lookup(data, key).value.items;
       (r.Ok? <==> forall i :: 0 <= i < |items| ==> items[i].Str?) &&
       (r.Ok? ==> |r.value| == |items| && forall i :: 0 <= i < |items| ==> Str(r.value[i]) == items[i]))
  }

  /** A list of paths with `[]` as the default. */
  function PathListSetting(data: seq<Field>, key: string): (r: Result<seq<string>, ConfigError>)
    ensures PathListRead(data, key, r)
  {
    match Get(data, key, Arr([]))
    case Err(e) => Err(e)
    case Ok(v) => if v.Arr? then Strings(v.items) else Err(NotAList(key))
  }

  /** The strings of a JSON list; any other item makes `Path(item)` raise. */
  function Strings(items: seq<Json>): (r: Result<seq<string>, ConfigError>)
    ensures r.Ok? <==> forall i :: 0 <= i < |items| ==> items[i].Str?
    ensures r.Ok? ==> |r.value| == |items| && forall i :: 0 <= i < |items| ==> Str(r.value[i]) == items[i]
  {
    if items == [] then Ok([])
    else if !items[0].Str? then Err(NotAPath)
    else
      match Strings(items[1..])
      case Ok(rest) => Ok([items[0].s] + rest)
      case Err(e) => Err(e)
  }

  function Favorites(data: seq<Field>): (r: Result<seq<string>, ConfigError>)
    ensures PathListRead(data, "favorites", r)
  {
    PathListSetting(data, "favorites")
  }

  function RecencyExclude(data: seq<Field>): (r: Result<seq<string>, ConfigError>)
    ensures PathListRead(data, "recency_exclude", r)
  {
    PathListSetting(data, "recency_exclude")
  }

  /** A path or a number stored with `set` under a valid key is what the typed readers then return. */
  lemma SetThenRead(data: seq<Field>, key: string, text: string, n: int, default: string, defaultInt: int)
    requires IsValidKey(key)
    ensures PathSetting(Set(data, key, Str(text)).value, key, default) == Ok(text)
    ensures IntSetting(Set(data, key, Int(n)).value, key, defaultInt) == Ok(n)
  {
    SetThenGet(data, key, Str(text), key, Null);
    SetThenGet(data, key, Int(n), key, Null);
  }

  /** `wallpaper_dir`: required, and a falsy value counts as missing. */
  function WallpaperDir(data: seq<Field>): (r: Result<string, ConfigError>)
    ensures r.Ok? <==> HasWallpaperDir(data)
    ensures r.Ok? ==> Lookup(data, "wallpaper_dir") == Some(Str(r.value)) && r.value != []
  {
    match Get(data, "wallpaper_dir", Null)
    case Err(e) => Err(e)
    case Ok(v) =>
      if !Truthy(v) then Err(MissingKey("wallpaper_dir"))
      else if v.Str? then Ok(v.s)
      else Err(NotAPath)
  }

  /** `wallpaper_dir` holds a non-empty string. */
  predicate HasWallpaperDir(data: seq<Field>) {
    var v := Lookup(data, "wallpaper_dir");
    v.Some? && v.value.Str? && v.value.s != []
  }

  /** A limit stored through `set` is what `history_limit` reads back. */
  lemma SetHistoryLimit(data: seq<Field>, n: int)
    ensures Set(data, "history_limit", Int(n)).Ok?
    ensures HistoryLimit(Set(data, "history_limit", Int(n)).value) == Ok(n)
  {
    PutLookup(data, "history_limit", Int(n), "history_limit");
  }
}
