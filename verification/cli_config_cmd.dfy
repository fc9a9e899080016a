/**
 * `config set` of `sw_cli/cmds/config_cmd.py`, over the library
 * configuration document: whether a dotted key holds a list, how
 * `--append`, `--remove` and a plain value change it, and which argument
 * combinations are refused.  `set` is modelled on the in-memory
 * document; saving it to disk is left out.
 */
module CliConfigCmd {
  import opened Base
  import opened PyStr
  import opened Json
  import PySeq
  import LibConfig
  import opened ConfigValues

  /** Which message a successful `set` prints. */
  datatype Action = AppendedTo | RemovedFrom | ListSet | Scalar(value: Json)

  datatype SetError =
    | ConfigFailed(error: LibConfig.ConfigError)
    | NotAList(key: string)       // `update_list_key` on a value that is not a list
    | NoListFlags(key: string)    // `--append` or `--remove` for a key that is not a list
    | SingleValue(key: string)    // several values for a key that is not a list

  datatype Updated = Updated(data: seq<Field>, action: Action)

  /** The value a dotted key reaches in the document, if any. */
  function Stored(data: seq<Field>, key: string): Option<Json> {
    LibConfig.Walk(Obj(data), Split(key, '.'))
  }

  /** `is_list_property`: `get(key, None)` raises for a key the document lacks. */
  function IsListProperty(data: seq<Field>, key: string): (r: Result<bool, LibConfig.ConfigError>)
    ensures r.Err? <==> Stored(data, key).None?
    ensures r.Err? ==> r.error == LibConfig.InvalidKey(key)
    ensures r == Ok(true) <==> Stored(data, key).Some? && Stored(data, key).value.Arr?
  {
    match LibConfig.Get(Obj(data), key, Null)
    case Err(e) => Err(e)
    case Ok(v) => Ok(v.Arr?)
  }

  /** What `get(key, [])` gives as a list: an absent key reads as `[]`; `None` when the value is no list. */
  function CurrentList(data: seq<Field>, key: string): Option<seq<Json>> {
    match Stored(data, key)
    case None => Some([])
    case Some(v) => if v.Arr? then Some(v.items) else None
  }

  /** The list an update stores: `--append` wins over `--remove`, and without either the words replace it. */
  function NewList(current: seq<Json>, values: seq<string>, append: bool, remove: bool): seq<Json> {
    if append then Appended(current, values)
    else if remove then Removed(current, values)
    else Words(values)
  }

  function ListAction(append: bool, remove: bool): Action {
    if append then AppendedTo else if remove then RemovedFrom else ListSet
  }

  /** `update_list_key`. */
  function UpdateListKey(data: seq<Field>, key: string, values: seq<string>, append: bool, remove: bool)
    : (r: Result<Updated, SetError>)
    ensures r.Err? <==> CurrentList(data, key).None?
    ensures r.Err? ==> r.error == NotAList(key)
    ensures r.Ok? ==> Stored(r.value.data, key) == Some(Arr(NewList(CurrentList(data, key).value, values, append, remove)))
    ensures r.Ok? ==> r.value.action == ListAction(append, remove)
  {
    var current := LibConfig.Get(Obj(data), key, Arr([])).value;
    if !current.Arr? then Err(NotAList(key))
    else Ok(Updated(LibConfig.Set(data, key, Arr(NewList(current.items, values, append, remove))), ListAction(append, remove)))
  }

  /** An update leaves every key that parts ways with the one updated as it was. */
  lemma UpdateKeepsOthers(data: seq<Field>, key: string, values: seq<string>, append: bool, remove: bool, p: seq<string>)
    requires UpdateListKey(data, key, values, append, remove).Ok?
    requires LibConfig.Diverge(p, Split(key, '.'))
    ensures LibConfig.Walk(Obj(UpdateListKey(data, key, values, append, remove).value.data), p) == LibConfig.Walk(Obj(data), p)
  {
    var v := Arr(NewList(CurrentList(data, key).value, values, append, remove));
    LibConfig.SetKeepsOthers(data, Split(key, '.'), v, p);
  }

  lemma UpdateKeepsAll(data: seq<Field>, key: string, values: seq<string>, append: bool, remove: bool)
    requires UpdateListKey(data, key, values, append, remove).Ok?
    ensures Unaffected(data, UpdateListKey(data, key, values, append, remove).value.data, key)
  {
    forall p | LibConfig.Diverge(p, Split(key, '.'))
      ensures LibConfig.Walk(Obj(UpdateListKey(data, key, values, append, remove).value.data), p) == LibConfig.Walk(Obj(data), p)
    {
      UpdateKeepsOthers(data, key, values, append, remove, p);
    }
  }

  /**
   * `config set KEY VALUES...` (click demands at least one value): the key
   * is stripped, a list key goes through `update_list_key`, any other key
   * takes exactly one value, parsed by `parse_val`, and no flag.
   */
  function SetConfig(data: seq<Field>, rawKey: string, values: seq<string>, append: bool, remove: bool)
    : (r: Result<Updated, SetError>)
    requires |values| >= 1
    ensures var key := Strip(rawKey);
            Stored(data, key).None? ==> r == Err(ConfigFailed(LibConfig.InvalidKey(key)))
    ensures var key := Strip(rawKey);
            Stored(data, key).Some? && Stored(data, key).value.Arr? ==>
              r.Ok? && r.value.action == ListAction(append, remove) &&
              Stored(r.value.data, key) == Some(Arr(NewList(Stored(data, key).value.items, values, append, remove)))
    ensures var key := Strip(rawKey);
            Stored(data, key).Some? && !Stored(data, key).value.Arr? ==>
              if append || remove then r == Err(NoListFlags(key))
              else if |values| > 1 then r == Err(SingleValue(key))
              else r.Ok? && r.value.action == Scalar(ParseVal(values[0])) && Stored(r.value.data, key) == Some(ParseVal(values[0]))
    ensures r.Ok? ==> Unaffected(data, r.value.data, Strip(rawKey))
  {
    var key := Strip(rawKey);
    var listed := IsListProperty(data, key);
    if listed.Err? then Err(ConfigFailed(listed.error))
    else if listed.value then
      assert CurrentList(data, key) == Some(Stored(data, key).value.items);
      UpdateKeepsAll(data, key, values, append, remove);
      UpdateListKey(data, key, values, append, remove)
    else SetScalar(data, key, values, append, remove)
  }

  /** The branch of `set_config_cmd` for a key that holds no list. */
  function SetScalar(data: seq<Field>, key: string, values: seq<string>, append: bool, remove: bool)
    : (r: Result<Updated, SetError>)
    requires |values| >= 1
    ensures append || remove ==> r == Err(NoListFlags(key))
    ensures !append && !remove && |values| > 1 ==> r == Err(SingleValue(key))
    ensures !append && !remove && |values| == 1 && Stored(data, key).Some? ==>
              r.Ok? && r.value.action == Scalar(ParseVal(values[0])) && Stored(r.value.data, key) == Some(ParseVal(values[0]))
    ensures r.Ok? ==> Unaffected(data, r.value.data, key)
  {
    if append || remove then Err(NoListFlags(key))
    else if |values| > 1 then Err(SingleValue(key))
    else
      var v := ParseVal(values[0]);
      SetKeepsDiverging(data, key, v);
      Ok(Updated(LibConfig.Set(data, key, v), Scalar(v)))
  }

  /** Every key path that parts ways with `key` reads the same in `after` as in `before`. */
  ghost predicate Unaffected(before: seq<Field>, after: seq<Field>, key: string) {
    forall p :: LibConfig.Diverge(p, Split(key, '.')) ==> LibConfig.Walk(Obj(after), p) == LibConfig.Walk(Obj(before), p)
  }

  lemma SetKeepsDiverging(data: seq<Field>, key: string, v: Json)
    ensures Unaffected(data, LibConfig.Set(data, key, v), key)
  {
    forall p | LibConfig.Diverge(p, Split(key, '.'))
      ensures LibConfig.Walk(Obj(LibConfig.Set(data, key, v)), p) == LibConfig.Walk(Obj(data), p)
    {
      LibConfig.SetKeepsOthers(data, Split(key, '.'), v, p);
    }
  }

  /** `config set --append` twice with the same words stores what the first one stored. */
  lemma AppendTwice(data: seq<Field>, rawKey: string, values: seq<string>)
    requires |values| >= 1
    requires IsListProperty(data, Strip(rawKey)) == Ok(true)
    ensures var first := SetConfig(data, rawKey, values, true, false);
            first.Ok? &&
            var second := SetConfig(first.value.data, rawKey, values, true, false);
            second.Ok? && Stored(second.value.data, Strip(rawKey)) == Stored(first.value.data, Strip(rawKey))
  {
    var key := Strip(rawKey);
    AppendIdempotent(Stored(data, key).value.items, values);
  }

  /** `--append` and then `--remove` of words a distinct list lacks gives the list back. */
  lemma AppendThenRemoveRestores(data: seq<Field>, rawKey: string, values: seq<string>)
    requires |values| >= 1
    requires IsListProperty(data, Strip(rawKey)) == Ok(true)
    requires PySeq.NoDuplicates(Stored(data, Strip(rawKey)).value.items)
    requires forall k :: 0 <= k < |values| ==> Str(values[k]) !in Stored(data, Strip(rawKey)).value.items
    ensures var first := SetConfig(data, rawKey, values, true, false);
            first.Ok? &&
            var second := SetConfig(first.value.data, rawKey, values, false, true);
            second.Ok? && Stored(second.value.data, Strip(rawKey)) == Stored(data, Strip(rawKey))
  {
    var key := Strip(rawKey);
    AppendThenRemove(Stored(data, key).value.items, values);
  }
}
