/**
 * `config set` and `config unset` of `sw/cmds/config.py`, over the flat
 * configuration store of the original generation.  A key is a list key
 * when the class declares it as a property typed as a list; only
 * property names may be written at all.  `set` is modelled on the
 * in-memory data; saving it to disk is left out.
 */
module SwConfigCmd {
  import opened Base
  import opened PyStr
  import opened Json
  import SwConfig
  import opened ConfigValues

  /** Which message a successful `set` prints. */
  datatype Action = AppendedTo | RemovedFrom | ListSet | Scalar(value: Json)

  datatype SetError =
    | ConfigFailed(error: SwConfig.ConfigError)
    | NotAList(key: string)       // `update_list_key` on a value that is not a list
    | NoListFlags(key: string)    // `--append` or `--remove` for a key that is not a list
    | SingleValue(key: string)    // several values for a key that is not a list

  datatype Updated = Updated(data: seq<Field>, action: Action)

  /** The properties whose return type is `list[Path]` or `list`. */
  const ListProperties: seq<string> := ["favorites", "recency_exclude"]

  /** `is_list_property`: decided by the class, not by what the file holds. */
  function IsListProperty(key: string): (r: bool)
    ensures r ==> SwConfig.IsValidKey(key)
  {
    key in ListProperties
  }

  /** What `get(key, [])` gives as a list: an absent key reads as `[]`; `None` when the value is no list. */
  function CurrentList(data: seq<Field>, key: string): Option<seq<Json>> {
    match Lookup(data, key)
    case None => Some([])
    case Some(v) => if v.Arr? then Some(v.items) else None
  }

  /** The list an update stores: `--append` wins over `--remove`, and without either the words replace it. */
  function NewList(current: seq<Json>, values: seq<string>, append: bool, remove: bool): seq<Json> {
    if append then Appended(current, values)
    else if remove then Removed(current, values)
    else Words(values)
  }

  function ListAction(append: bool, remove: bool): Action {
    if append then AppendedTo else if remove then RemovedFrom else ListSet
  }

  /** `update_list_key`: a value that is no list is refused before `set` checks the name. */
  function UpdateListKey(data: seq<Field>, key: string, values: seq<string>, append: bool, remove: bool)
    : (r: Result<Updated, SetError>)
    ensures CurrentList(data, key).None? ==> r == Err(NotAList(key))
    ensures CurrentList(data, key).Some? && !SwConfig.IsValidKey(key) ==> r == Err(ConfigFailed(SwConfig.InvalidKey(key)))
    ensures r.Ok? <==> CurrentList(data, key).Some? && SwConfig.IsValidKey(key)
    ensures r.Ok? ==> Lookup(r.value.data, key) == Some(Arr(NewList(CurrentList(data, key).value, values, append, remove)))
    ensures r.Ok? ==> forall other :: other != key ==> Lookup(r.value.data, other) == Lookup(data, other)
    ensures r.Ok? ==> r.value.action == ListAction(append, remove)
  {
    var current := SwConfig.Get(data, key, Arr([])).value;
    if !current.Arr? then Err(NotAList(key))
    else
      var v := Arr(NewList(current.items, values, append, remove));
      match SwConfig.Set(data, key, v)
      case Err(e) => Err(ConfigFailed(e))
      case Ok(d) =>
        assert forall other :: other != key ==> Lookup(d, other) == Lookup(data, other) by {
          forall other | other != key
            ensures Lookup(d, other) == Lookup(data, other)
          {
            PutLookup(data, key, v, other);
          }
        }
        PutLookup(data, key, v, key);
        Ok(Updated(d, ListAction(append, remove)))
  }

  /**
   * `config set KEY VALUES...` (click demands at least one value): the key
   * is stripped, a list property goes through `update_list_key`, any other
   * key takes exactly one value, parsed by `parse_val`, and no flag; the
   * name check of `set` comes last.
   */
  function SetConfig(data: seq<Field>, rawKey: string, values: seq<string>, append: bool, remove: bool)
    : (r: Result<Updated, SetError>)
    requires |values| >= 1
    ensures var key := Strip(rawKey);
            IsListProperty(key) ==> r == UpdateListKey(data, key, values, append, remove)
    ensures var key := Strip(rawKey);
            !IsListProperty(key) ==>
              if append || remove then r == Err(NoListFlags(key))
              else if |values| > 1 then r == Err(SingleValue(key))
              else if !SwConfig.IsValidKey(key) then r == Err(ConfigFailed(SwConfig.InvalidKey(key)))
              else r.Ok? && r.value.action == Scalar(ParseVal(values[0])) &&
                   SwConfig.Get(r.value.data, key, Null) == Ok(ParseVal(values[0]))
    ensures r.Ok? ==> forall other :: other != Strip(rawKey) ==> Lookup(r.value.data, other) == Lookup(data, other)
  {
    var key := Strip(rawKey);
    if IsListProperty(key) then UpdateListKey(data, key, values, append, remove)
    else if append || remove then Err(NoListFlags(key))
    else if |values| > 1 then Err(SingleValue(key))
    else
      var v := ParseVal(values[0]);
      match SwConfig.Set(data, key, v)
      case Err(e) => Err(ConfigFailed(e))
      case Ok(d) =>
        assert forall other :: other != key ==> Lookup(d, other) == Lookup(data, other) by {
          forall other | other != key
            ensures Lookup(d, other) == Lookup(data, other)
          {
            PutLookup(data, key, v, other);
          }
        }
        PutLookup(data, key, v, key);
        Ok(Updated(d, Scalar(v)))
  }

  /**
   * `config unset KEY` as written: `set(key, None)`, so the name check
   * applies and the key stays in the file, holding `null`.
   */
  function Unset(data: seq<Field>, key: string): (r: Result<seq<Field>, SwConfig.ConfigError>)
    ensures r.Err? <==> !SwConfig.IsValidKey(key)
    ensures r.Ok? ==> key in Keys(r.value) && Lookup(r.value, key) == Some(Null)
  {
    PutLookup(data, key, Null, key);
    SwConfig.Set(data, key, Null)
  }

  /**
   * After `unset`, the accessors do not fall back to their defaults: a
   * stored `null` is no integer and no list, so `history_limit` and
   * `favorites` raise instead of giving 500 and `[]`.
   */
  lemma UnsetBreaksDefaults(data: seq<Field>)
    ensures SwConfig.HistoryLimit(Unset(data, "history_limit").value) == Err(SwConfig.InvalidInt("history_limit"))
    ensures SwConfig.Favorites(Unset(data, "favorites").value) == Err(SwConfig.NotAList("favorites"))
  {
    var h := Unset(data, "history_limit").value;
    var f := Unset(data, "favorites").value;
    assert ToInt(Lookup(h, "history_limit").value) == Err(TypeError);
    assert SwConfig.Get(f, "favorites", Arr([])) == Ok(Null);
  }

  /**
   * `unset` as its help text describes it: the key is removed from the
   * file, after the same name check.
   */
  function UnsetKey(data: seq<Field>, key: string): (r: Result<seq<Field>, SwConfig.ConfigError>)
    ensures r.Err? <==> !SwConfig.IsValidKey(key)
    ensures r.Err? ==> r.error == SwConfig.InvalidKey(key)
    ensures r.Ok? ==> key !in Keys(r.value)
    ensures r.Ok? ==> forall other :: other != key ==> Lookup(r.value, other) == Lookup(data, other)
  {
    if !SwConfig.IsValidKey(key) then Err(SwConfig.InvalidKey(key))
    else
      var d := Remove(data, key);
      assert forall other :: other != key ==> Lookup(d, other) == Lookup(data, other) by {
        forall other | other != key
          ensures Lookup(d, other) == Lookup(data, other)
        {
          RemoveLookup(data, key, other);
        }
      }
      RemoveLookup(data, key, key);
      Ok(d)
  }

  /** With the key removed, every accessor with a default gives that default again. */
  lemma UnsetKeyRestoresDefaults(data: seq<Field>)
    ensures SwConfig.HistoryLimit(UnsetKey(data, "history_limit").value) == Ok(500)
    ensures SwConfig.RecencyTimeout(UnsetKey(data, "recency_timeout").value) == Ok(3600)
    ensures SwConfig.Favorites(UnsetKey(data, "favorites").value) == Ok([])
    ensures SwConfig.RecencyExclude(UnsetKey(data, "recency_exclude").value) == Ok([])
  {
  }
}
