/**
 * The configuration store of the library generation (`sw_lib`): a
 * nested JSON document, addressed by dotted keys such as
 * `wallpaper.recency.timeout`, whose shape is fixed by built-in defaults.
 * A user file may only override keys the defaults already have.
 */
module LibConfig {
  import opened Base
  import opened PyStr
  import opened Json

  /** `Path(home) / rel` for a home directory string. */
  function UnderHome(home: string, rel: string): string {
    if |home| > 0 && home[|home| - 1] == '/' then home + rel else home + "/" + rel
  }

  /** The built-in defaults; `home` is the user's home directory. */
  function DefaultConfig(home: string): (r: Json)
    ensures r.Obj? && |r.fields| == 5
  {
    Obj([
      Field("wallpaper", Obj([
        Field("directory", Str(UnderHome(home, "Pictures/Wallpapers"))),
        Field("favorites", Arr([])),
        Field("recency", Obj([
          Field("exclude", Arr([])),
          Field("timeout", Int(28800))]))])),
      Field("hyprlock", Obj([
        Field("config", Str(UnderHome(home, ".config/hypr/hyprlock.conf")))])),
      Field("history", Obj([
        Field("file", Str("~/.cache/sw-history")),
        Field("limit", Int(500))])),
      Field("queue", Obj([
        Field("file", Str("~/.cache/sw-queue"))])),
      Field("daemon", Obj([
        Field("socket_path", Str("/tmp/sw-daemon.sock"))]))])
  }

  datatype LoadCause =
    | Unreadable            // the file could not be opened or is not JSON
    | NotAnObject           // the top level is not a JSON object
    | UnknownKey(path: string)  // an override names a key the defaults lack

  datatype ConfigError =
    | LoadFailed(cause: LoadCause)
    | InvalidKey(key: string)
    | MissingKey(key: string)
    | NotAList(key: string)
    | NotAPath
    | NotAnInt(failure: IntFailure)

  /** What opening and parsing the user's file produced. */
  datatype UserFile = Absent | Broken | Parsed(doc: Json)

  /** Follows `keys` from `data` through nested dicts; `None` when a step is missing or not a dict. */
  function Walk(data: Json, keys: seq<string>): (r: Option<Json>)
    decreases |keys|
  {
    if keys == [] then Some(data)
    else if data.Obj? && keys[0] in Keys(data.fields) then
      Walk(Lookup(data.fields, keys[0]).value, keys[1..])
    else None
  }

  /** A walk that succeeds passes a dict holding the next key at every step. */
  lemma {:induction false} WalkSteps(data: Json, keys: seq<string>, i: nat)
    requires Walk(data, keys).Some? && i < |keys|
    ensures Walk(data, keys[..i]).Some?
    ensures Walk(data, keys[..i]).value.Obj?
    ensures keys[i] in Keys(Walk(data, keys[..i]).value.fields)
    decreases |keys|
  {
    if i > 0 {
      var next := Lookup(data.fields, keys[0]).value;
      WalkSteps(next, keys[1..], i - 1);
      assert keys[1..][..i - 1] == keys[..i][1..];
    }
  }

  /** `_is_valid_key`: the dotted key names a path that exists in the defaults. */
  predicate IsValidKey(home: string, dotted: string) {
    Walk(DefaultConfig(home), Split(dotted, '.')).Some?
  }

  /** `_get_nested` / `get`: the stored value, else the default unless that is `None`. */
  function Get(data: Json, dotted: string, default: Json): (r: Result<Json, ConfigError>)
    ensures Walk(data, Split(dotted, '.')).Some? ==> r == Ok(Walk(data, Split(dotted, '.')).value)
    ensures Walk(data, Split(dotted, '.')).None? && default != Null ==> r == Ok(default)
    ensures Walk(data, Split(dotted, '.')).None? && default == Null ==> r == Err(InvalidKey(dotted))
  {
    match Walk(data, Split(dotted, '.'))
    case Some(v) => Ok(v)
    case None => if default != Null then Ok(default) else Err(InvalidKey(dotted))
  }

  /** `_set_nested` on the fields of a dict, for the split key `keys`. */
  function SetPath(fields: seq<Field>, keys: seq<string>, v: Json): seq<Field>
    requires |keys| >= 1
    decreases |keys|
  {
    if |keys| == 1 then Put(fields, keys[0], v)
    else
      var child := match Lookup(fields, keys[0]) case Some(Obj(f)) => f case _ => [];
      Put(fields, keys[0], Obj(SetPath(child, keys[1..], v)))
  }

  /** `_unset_nested` on the fields of a dict, for the split key `keys`. */
  function UnsetPath(fields: seq<Field>, keys: seq<string>): seq<Field>
    requires |keys| >= 1
    decreases |keys|
  {
    if |keys| == 1 then Remove(fields, keys[0])
    else
      match Lookup(fields, keys[0])
      case Some(Obj(f)) => Put(fields, keys[0], Obj(UnsetPath(f, keys[1..])))
      case _ => fields
  }

  /** `set(key, value)` on the in-memory document (saving to disk is left out). */
  function Set(data: seq<Field>, dotted: string, v: Json): (r: seq<Field>)
    ensures Walk(Obj(r), Split(dotted, '.')) == Some(v)
  {
    SetThenWalk(data, Split(dotted, '.'), v);
    SetPath(data, Split(dotted, '.'), v)
  }

  /** `unset(key)` on the in-memory document. */
  function Unset(data: seq<Field>, dotted: string): (r: seq<Field>)
    ensures Walk(Obj(r), Split(dotted, '.')) == None
    ensures Walk(Obj(data), Split(dotted, '.')) == None ==> r == data
  {
    UnsetThenWalk(data, Split(dotted, '.'));
    UnsetAbsent(data, Split(dotted, '.'));
    UnsetPath(data, Split(dotted, '.'))
  }

  lemma {:induction false} SetThenWalk(fields: seq<Field>, keys: seq<string>, v: Json)
    requires |keys| >= 1
    ensures Walk(Obj(SetPath(fields, keys, v)), keys) == Some(v)
    decreases |keys|
  {
    var child := match Lookup(fields, keys[0]) case Some(Obj(f)) => f case _ => [];
    if |keys| == 1 {
      PutLookup(fields, keys[0], v, keys[0]);
    } else {
      SetThenWalk(child, keys[1..], v);
      PutLookup(fields, keys[0], Obj(SetPath(child, keys[1..], v)), keys[0]);
    }
  }

  lemma {:induction false} UnsetThenWalk(fields: seq<Field>, keys: seq<string>)
    requires |keys| >= 1
    ensures Walk(Obj(UnsetPath(fields, keys)), keys) == None
    decreases |keys|
  {
    if |keys| == 1 {
      RemoveLookup(fields, keys[0], keys[0]);
    } else {
      match Lookup(fields, keys[0])
      case Some(Obj(f)) =>
        UnsetThenWalk(f, keys[1..]);
        PutLookup(fields, keys[0], Obj(UnsetPath(f, keys[1..])), keys[0]);
      case _ =>
    }
  }

  lemma {:induction false} UnsetAbsent(fields: seq<Field>, keys: seq<string>)
    requires |keys| >= 1
    ensures Walk(Obj(fields), keys) == None ==> UnsetPath(fields, keys) == fields
    decreases |keys|
  {
    if |keys| == 1 && keys[0] in Keys(fields) {
      assert keys[1..] == [];
      assert Walk(Lookup(fields, keys[0]).value, keys[1..]).Some?;
      assert Walk(Obj(fields), keys).Some?;
    }
    if Walk(Obj(fields), keys) == None {
      if |keys| == 1 {
        RemoveAbsent(fields, keys[0]);
      } else {
        match Lookup(fields, keys[0])
        case Some(Obj(f)) =>
          UnsetAbsent(f, keys[1..]);
          PutExisting(fields, keys[0]);
        case _ =>
      }
    }
  }

  /** Two split keys part ways at some position both of them have. */
  predicate Diverge(p: seq<string>, q: seq<string>) {
    exists i :: 0 <= i < |p| && i < |q| && p[i] != q[i]
  }

  /** `set` touches nothing reachable by a key that parts ways with the one set. */
  lemma {:induction false} SetKeepsOthers(fields: seq<Field>, keys: seq<string>, v: Json, p: seq<string>)
    requires |keys| >= 1 && Diverge(p, keys)
    ensures Walk(Obj(SetPath(fields, keys, v)), p) == Walk(Obj(fields), p)
    decreases |keys|
  {
    var i :| 0 <= i < |p| && i < |keys| && p[i] != keys[i];
    if p[0] != keys[0] {
      if |keys| == 1 {
        PutLookup(fields, keys[0], v, p[0]);
      } else {
        var child := match Lookup(fields, keys[0]) case Some(Obj(f)) => f case _ => [];
        PutLookup(fields, keys[0], Obj(SetPath(child, keys[1..], v)), p[0]);
      }
    } else {
      var child := match Lookup(fields, keys[0]) case Some(Obj(f)) => f case _ => [];
      assert p[1..][i - 1] != keys[1..][i - 1];
      SetKeepsOthers(child, keys[1..], v, p[1..]);
      PutLookup(fields, keys[0], Obj(SetPath(child, keys[1..], v)), keys[0]);
    }
  }

  /** `unset` touches nothing reachable by a key that parts ways with the one removed. */
  lemma {:induction false} UnsetKeepsOthers(fields: seq<Field>, keys: seq<string>, p: seq<string>)
    requires |keys| >= 1 && Diverge(p, keys)
    ensures Walk(Obj(UnsetPath(fields, keys)), p) == Walk(Obj(fields), p)
    decreases |keys|
  {
    var i :| 0 <= i < |p| && i < |keys| && p[i] != keys[i];
    if |keys| == 1 {
      RemoveLookup(fields, keys[0], p[0]);
    } else {
      match Lookup(fields, keys[0])
      case Some(Obj(f)) =>
        PutLookup(fields, keys[0], Obj(UnsetPath(f, keys[1..])), p[0]);
        if p[0] == keys[0] {
          assert p[1..][i - 1] != keys[1..][i - 1];
          UnsetKeepsOthers(f, keys[1..], p[1..]);
        }
      case _ =>
    }
  }

  // ---- merging a user file into the defaults ----

  /** `f"{path}.{key}" if path else key`. */
  function FullPath(path: string, key: string): string {
    if path == [] then key else path + "." + key
  }

  /** `_merge_dicts(base, override, path)`; the error is the dotted path of the unknown key. */
  function Merge(base: seq<Field>, over: seq<Field>, path: string): (r: Result<seq<Field>, string>)
    ensures r.Ok? ==> Keys(r.value) == Keys(base)
    decreases over
  {
    if over == [] then Ok(base)
    else
      var k := over[0].key;
      var v := over[0].val;
      if k !in Keys(base) then Err(FullPath(path, k))
      else
        var bv := Lookup(base, k).value;
        var merged :=
          if bv.Obj? && v.Obj? then
            (match Merge(bv.fields, v.fields, FullPath(path, k))
             case Ok(f) => Ok(Obj(f))
             case Err(e) => Err(e))
          else Ok(v);
        match merged
        case Err(e) => Err(e)
        case Ok(nv) =>
          PutKeys(base, k, nv);
          Merge(Put(base, k, nv), over[1..], path)
  }

  /** Every key of the override exists in the base, recursively wherever both sides are dicts. */
  predicate Accepts(base: seq<Field>, over: seq<Field>)
    decreases over
  {
    over == [] ||
    (over[0].key in Keys(base) &&
     (var bv := Lookup(base, over[0].key).value;
      bv.Obj? && over[0].val.Obj? ==> Accepts(bv.fields, over[0].val.fields)) &&
     Accepts(base, over[1..]))
  }

  /** Whether `Accepts` holds only depends on the base's values at the override's keys. */
  lemma {:induction false} AcceptsFrame(base: seq<Field>, base2: seq<Field>, over: seq<Field>)
    requires forall i :: 0 <= i < |over| ==> Lookup(base, over[i].key) == Lookup(base2, over[i].key)
    ensures Accepts(base, over) == Accepts(base2, over)
    decreases over
  {
    if over != [] {
      AcceptsFrame(base, base2, over[1..]);
    }
  }

  /** Merging fails exactly when the override names a key the base lacks. */
  lemma {:induction false} MergeOkIffAccepts(base: seq<Field>, over: seq<Field>, path: string)
    requires WfFields(over)
    ensures Merge(base, over, path).Ok? <==> Accepts(base, over)
    decreases over
  {
    if over != [] {
      var k := over[0].key;
      var v := over[0].val;
      assert Wf(over[0].val);
      var rest := over[1..];
      assert WfFields(rest) by {
        assert Keys(rest) == Keys(over)[1..];
      }
      if k in Keys(base) {
        var bv := Lookup(base, k).value;
        if bv.Obj? && v.Obj? {
          MergeOkIffAccepts(bv.fields, v.fields, FullPath(path, k));
        }
        var merged :=
          if bv.Obj? && v.Obj? then
            (match Merge(bv.fields, v.fields, FullPath(path, k))
             case Ok(f) => Ok(Obj(f))
             case Err(e) => Err(e))
          else Ok(v);
        if merged.Ok? {
          var nv := merged.value;
          MergeOkIffAccepts(Put(base, k, nv), rest, path);
          forall i | 0 <= i < |rest|
            ensures Lookup(Put(base, k, nv), rest[i].key) == Lookup(base, rest[i].key)
          {
            assert Keys(over)[0] == k && Keys(over)[i + 1] == rest[i].key;
            PutLookup(base, k, nv, rest[i].key);
          }
          AcceptsFrame(Put(base, k, nv), base, rest);
        }
      }
    }
  }

  /** The value `Merge` stores for one override entry whose key the base has. */
  function MergedValue(bv: Json, v: Json, full: string): Result<Json, string> {
    if bv.Obj? && v.Obj? then
      (match Merge(bv.fields, v.fields, full)
       case Ok(f) => Ok(Obj(f))
       case Err(e) => Err(e))
    else Ok(v)
  }

  /** One step of `Merge`: the first override entry is folded into the base, then the rest follow. */
  lemma MergeStep(base: seq<Field>, over: seq<Field>, path: string)
    requires Merge(base, over, path).Ok? && over != []
    ensures over[0].key in Keys(base)
    ensures MergedValue(Lookup(base, over[0].key).value, over[0].val, FullPath(path, over[0].key)).Ok?
    ensures var nv := MergedValue(Lookup(base, over[0].key).value, over[0].val, FullPath(path, over[0].key)).value;
            Merge(base, over, path) == Merge(Put(base, over[0].key, nv), over[1..], path)
  {
  }

  /** After a successful merge, a key the override does not name keeps the base's value. */
  lemma {:induction false} MergeKeepsUnnamed(base: seq<Field>, over: seq<Field>, path: string, k: string)
    requires Merge(base, over, path).Ok? && k !in Keys(over)
    ensures Lookup(Merge(base, over, path).value, k) == Lookup(base, k)
    decreases over
  {
    if over != [] {
      var k0 := over[0].key;
      MergeStep(base, over, path);
      var nv := MergedValue(Lookup(base, k0).value, over[0].val, FullPath(path, k0)).value;
      assert Keys(over) == [k0] + Keys(over[1..]);
      MergeKeepsUnnamed(Put(base, k0, nv), over[1..], path, k);
      PutLookup(base, k0, nv, k);
    }
  }

  /**
   * After a successful merge, an override entry that is not a dict merged
   * into a dict replaces the base's value.
   */
  lemma {:induction false} MergeStoresOverride(base: seq<Field>, over: seq<Field>, path: string, i: nat)
    requires UniqueKeys(over) && Merge(base, over, path).Ok? && i < |over|
    requires !(over[i].key in Keys(base) && Lookup(base, over[i].key).value.Obj? && over[i].val.Obj?)
    ensures Lookup(Merge(base, over, path).value, over[i].key) == Some(over[i].val)
    decreases over, 1
  {
    if i == 0 {
      MergeStoresFirst(base, over, path);
    } else {
      MergeStoresLater(base, over, path, i);
    }
  }

  /** The case of `MergeStoresOverride` for an entry after the first. */
  lemma {:induction false} MergeStoresLater(base: seq<Field>, over: seq<Field>, path: string, i: nat)
    requires UniqueKeys(over) && Merge(base, over, path).Ok? && 0 < i < |over|
    requires !(over[i].key in Keys(base) && Lookup(base, over[i].key).value.Obj? && over[i].val.Obj?)
    ensures Lookup(Merge(base, over, path).value, over[i].key) == Some(over[i].val)
    decreases over, 0
  {
    var next, rest, e, merged := MergeLaterStep(base, over, path, i);
    MergeStoresOverride(next, rest, path, i - 1);
  }

  /**
   * Folding in the first override entry leaves a later entry's key as the
   * base had it, so the rest of the merge sees the same situation.
   */
  lemma MergeLaterStep(base: seq<Field>, over: seq<Field>, path: string, i: nat)
    returns (next: seq<Field>, rest: seq<Field>, e: Field, merged: seq<Field>)
    requires UniqueKeys(over) && Merge(base, over, path).Ok? && 0 < i < |over|
    requires !(over[i].key in Keys(base) && Lookup(base, over[i].key).value.Obj? && over[i].val.Obj?)
    ensures rest == over[1..] && e == over[i] && i - 1 < |rest| && rest[i - 1] == e
    ensures Merge(base, over, path) == Ok(merged) && Merge(next, rest, path) == Ok(merged)
    ensures UniqueKeys(rest)
    ensures !(e.key in Keys(next) && Lookup(next, e.key).value.Obj? && e.val.Obj?)
  {
    var k0 := over[0].key;
    MergeStep(base, over, path);
    var nv := MergedValue(Lookup(base, k0).value, over[0].val, FullPath(path, k0)).value;
    next := Put(base, k0, nv);
    merged := Merge(base, over, path).value;
    rest := over[1..];
    e := over[i];
    var key := over[i].key;
    assert rest[i - 1] == over[i];
    UniqueTail(over);
    assert key != k0 by {
      assert key == Keys(rest)[i - 1];
    }
    PutKeys(base, k0, nv);
    PutLookup(base, k0, nv, key);
  }

  /** The first override entry, when it is not a dict merged into a dict, is stored as given. */
  lemma MergeStoresFirst(base: seq<Field>, over: seq<Field>, path: string)
    requires UniqueKeys(over) && Merge(base, over, path).Ok? && over != []
    requires !(over[0].key in Keys(base) && Lookup(base, over[0].key).value.Obj? && over[0].val.Obj?)
    ensures Lookup(Merge(base, over, path).value, over[0].key) == Some(over[0].val)
  {
    var k0 := over[0].key;
    MergeStep(base, over, path);
    var nv := MergedValue(Lookup(base, k0).value, over[0].val, FullPath(path, k0)).value;
    UniqueTail(over);
    MergeKeepsUnnamed(Put(base, k0, nv), over[1..], path, k0);
    PutLookup(base, k0, nv, k0);
  }

  /** `_load_merged_config`: defaults, overridden by the user's file when there is one. */
  function LoadMerged(home: string, file: UserFile): (r: Result<Json, ConfigError>)
    ensures file.Absent? ==> r == Ok(DefaultConfig(home))
    ensures file.Broken? ==> r == Err(LoadFailed(Unreadable))
    ensures file.Parsed? && !file.doc.Obj? ==> r == Err(LoadFailed(NotAnObject))
    ensures r.Ok? ==> r.value.Obj? && Keys(r.value.fields) == Keys(DefaultConfig(home).fields)
  {
    match file
    case Absent => Ok(DefaultConfig(home))
    case Broken => Err(LoadFailed(Unreadable))
    case Parsed(doc) =>
      if !doc.Obj? then Err(LoadFailed(NotAnObject))
      else
        match Merge(DefaultConfig(home).fields, doc.fields, "")
        case Ok(f) => Ok(Obj(f))
        case Err(p) => Err(LoadFailed(UnknownKey(p)))
  }

  /** The one-key document `{"a": {"b": v}}` for the split key `["a", "b"]`. */
  function Nest(keys: seq<string>, v: Json): (r: seq<Field>)
    requires |keys| >= 1
    ensures Wf(v) ==> WfFields(r)
    decreases |keys|
  {
    if |keys| == 1 then [Field(keys[0], v)]
    else [Field(keys[0], Obj(Nest(keys[1..], v)))]
  }

  /** A one-key override along a path the base has is accepted, and a non-dict value is stored there. */
  lemma {:induction false} MergeNest(base: seq<Field>, keys: seq<string>, v: Json, path: string)
    requires |keys| >= 1 && Walk(Obj(base), keys).Some? && !v.Obj?
    ensures Merge(base, Nest(keys, v), path).Ok?
    ensures Walk(Obj(Merge(base, Nest(keys, v), path).value), keys) == Some(v)
    decreases |keys|
  {
    var k := keys[0];
    var bv := Lookup(base, k).value;
    var over := Nest(keys, v);
    if |keys| == 1 {
      assert over[1..] == [];
      PutLookup(base, k, v, k);
    } else {
      MergeNest(bv.fields, keys[1..], v, FullPath(path, k));
      var f := Merge(bv.fields, Nest(keys[1..], v), FullPath(path, k)).value;
      assert over[1..] == [];
      PutLookup(base, k, Obj(f), k);
    }
  }

  /**
   * A user file that sets one valid dotted key to a non-dict value loads,
   * and `get` then returns that value.
   */
  lemma ValidKeyLoads(home: string, dotted: string, v: Json)
    requires IsValidKey(home, dotted) && !v.Obj?
    ensures LoadMerged(home, Parsed(Obj(Nest(Split(dotted, '.'), v)))).Ok?
    ensures Get(LoadMerged(home, Parsed(Obj(Nest(Split(dotted, '.'), v)))).value, dotted, Null) == Ok(v)
  {
    MergeNest(DefaultConfig(home).fields, Split(dotted, '.'), v, "");
  }

  // ---- typed accessors ----

  /** The strings of a JSON list, or `NotAPath` when an item is not a string (`Path(item)` raises). */
  function PathList(items: seq<Json>): (r: Result<seq<string>, ConfigError>)
    ensures r.Ok? <==> forall i :: 0 <= i < |items| ==> items[i].Str?
    ensures r.Ok? ==> |r.value| == |items| && forall i :: 0 <= i < |items| ==> r.value[i] == items[i].s
    ensures r.Err? ==> r.error == NotAPath
  {
    if items == [] then Ok([])
    else if !items[0].Str? then Err(NotAPath)
    else
      match PathList(items[1..])
      case Ok(rest) => Ok([items[0].s] + rest)
      case Err(e) => Err(e)
  }

  /**
   * What reading a list of paths at `keys` yields: `[]` when nothing is
   * stored there, `NotAList` for a non-list, and otherwise the strings of
   * the list, which must all be strings.
   */
  predicate ListRead(data: Json, keys: seq<string>, dotted: string, r: Result<seq<string>, ConfigError>) {
    var w := Walk(data, keys);
    (w.None? ==> r == Ok([])) &&
    (w.Some? && !w.value.Arr? ==> r == Err(NotAList(dotted))) &&
    (w.Some? && w.value.Arr? ==>
       (r.Ok? <==> forall i :: 0 <= i < |w.value.items| ==> w.value.items[i].Str?) &&
       (r.Ok? ==> |r.value| == |w.value.items| && forall i :: 0 <= i < |r.value| ==> Str(r.value[i]) == w.value.items[i]) &&
       (r.Err? ==> r.error == NotAPath))
  }

  /** A list-valued setting read with `[]` as its default; `keys` is `dotted` split on dots. */
  function ListSetting(data: Json, keys: seq<string>, dotted: string): (r: Result<seq<string>, ConfigError>)
    ensures Walk(data, keys).None? ==> r == Ok([])
    ensures Walk(data, keys).Some? && !Walk(data, keys).value.Arr? ==> r == Err(NotAList(dotted))
    ensures Walk(data, keys).Some? && Walk(data, keys).value.Arr? ==> r == PathList(Walk(data, keys).value.items)
    ensures ListRead(data, keys, dotted, r)
  {
    match Walk(data, keys)
    case None => Ok([])
    case Some(v) => if v.Arr? then PathList(v.items) else Err(NotAList(dotted))
  }

  /** `favorites`. */
  function Favorites(data: Json): (r: Result<seq<string>, ConfigError>)
    ensures ListRead(data, ["wallpaper", "favorites"], "wallpaper.favorites", r)
  {
    ListSetting(data, ["wallpaper", "favorites"], "wallpaper.favorites")
  }

  /** `recency_exclude`. */
  function RecencyExclude(data: Json): (r: Result<seq<string>, ConfigError>)
    ensures ListRead(data, ["wallpaper", "recency", "exclude"], "wallpaper.recency.exclude", r)
  {
    ListSetting(data, ["wallpaper", "recency", "exclude"], "wallpaper.recency.exclude")
  }

  /**
   * What reading an integer at `keys` yields: `InvalidKey` when nothing
   * is stored there, and otherwise the value as `int()` converts it, its
   * failure wrapped.
   */
  predicate IntRead(data: Json, keys: seq<string>, dotted: string, r: Result<int, ConfigError>) {
    var w := Walk(data, keys);
    (w.None? ==> r == Err(InvalidKey(dotted))) &&
    (w.Some? ==> (r.Ok? <==> ToInt(w.value).Ok?)) &&
    (w.Some? && r.Ok? ==> r.value == ToInt(w.value).value) &&
    (w.Some? && r.Err? ==> r.error == NotAnInt(ToInt(w.value).error))
  }

  /** An integer setting read without a default: `int(get(key))`. */
  function IntSetting(data: Json, keys: seq<string>, dotted: string): (r: Result<int, ConfigError>)
    ensures Walk(data, keys).None? ==> r == Err(InvalidKey(dotted))
    ensures Walk(data, keys).Some? ==> r == ToInt(Walk(data, keys).value).MapErr(f => NotAnInt(f))
    ensures IntRead(data, keys, dotted, r)
  {
    match Walk(data, keys)
    case None => Err(InvalidKey(dotted))
    case Some(v) => ToInt(v).MapErr(f => NotAnInt(f))
  }

  /** `recency_timeout`. */
  function RecencyTimeout(data: Json): (r: Result<int, ConfigError>)
    ensures IntRead(data, ["wallpaper", "recency", "timeout"], "wallpaper.recency.timeout", r)
  {
    IntSetting(data, ["wallpaper", "recency", "timeout"], "wallpaper.recency.timeout")
  }

  /** `history_limit`. */
  function HistoryLimit(data: Json): (r: Result<int, ConfigError>)
    ensures IntRead(data, ["history", "limit"], "history.limit", r)
  {
    IntSetting(data, ["history", "limit"], "history.limit")
  }

  /**
   * A path setting read without a default, `Path(get(key))`: nothing
   * stored is `InvalidKey`, a stored non-string makes `Path` raise, and a
   * string is the path.
   */
  function PathSetting(data: Json, keys: seq<string>, dotted: string): (r: Result<string, ConfigError>)
    ensures Walk(data, keys).None? ==> r == Err(InvalidKey(dotted))
    ensures Walk(data, keys).Some? ==> (r.Ok? <==> Walk(data, keys).value.Str?)
    ensures r.Ok? ==> Walk(data, keys) == Some(Str(r.value))
    ensures Walk(data, keys).Some? && r.Err? ==> r.error == NotAPath
  {
    match Walk(data, keys)
    case None => Err(InvalidKey(dotted))
    case Some(v) => if v.Str? then Ok(v.s) else Err(NotAPath)
  }

  /** A path setting that must be truthy: a missing or falsy value is an error. */
  function RequiredPath(data: Json, keys: seq<string>, dotted: string): (r: Result<string, ConfigError>)
    ensures r.Ok? <==> (var w := Walk(data, keys); w.Some? && w.value.Str? && w.value.s != [])
    ensures r.Ok? ==> Walk(data, keys) == Some(Str(r.value))
    ensures Walk(data, keys).None? ==> r == Err(InvalidKey(dotted))
    ensures Walk(data, keys).Some? && !Truthy(Walk(data, keys).value) ==> r == Err(MissingKey(dotted))
  {
    match Walk(data, keys)
    case None => Err(InvalidKey(dotted))
    case Some(v) =>
      if !Truthy(v) then Err(MissingKey(dotted))
      else if v.Str? then Ok(v.s)
      else Err(NotAPath)
  }

  /** `wallpaper_dir`: a missing or falsy value is an error. */
  function WallpaperDir(data: Json): (r: Result<string, ConfigError>)
    ensures r.Ok? <==> (var w := Walk(data, ["wallpaper", "directory"]);
                        w.Some? && w.value.Str? && w.value.s != [])
    ensures r.Ok? ==> Walk(data, ["wallpaper", "directory"]) == Some(Str(r.value))
    ensures Walk(data, ["wallpaper", "directory"]).None? ==> r == Err(InvalidKey("wallpaper.directory"))
  {
    RequiredPath(data, ["wallpaper", "directory"], "wallpaper.directory")
  }

  /** `hyprlock_config`: a missing or falsy value is an error. */
  function HyprlockConfig(data: Json): (r: Result<string, ConfigError>)
    ensures r.Ok? <==> (var w := Walk(data, ["hyprlock", "config"]);
                        w.Some? && w.value.Str? && w.value.s != [])
    ensures r.Ok? ==> Walk(data, ["hyprlock", "config"]) == Some(Str(r.value))
    ensures Walk(data, ["hyprlock", "config"]).None? ==> r == Err(InvalidKey("hyprlock.config"))
  {
    RequiredPath(data, ["hyprlock", "config"], "hyprlock.config")
  }

  /** `socket_path`: a missing or falsy value is an error. */
  function SocketPath(data: Json): (r: Result<string, ConfigError>)
    ensures r.Ok? <==> (var w := Walk(data, ["daemon", "socket_path"]);
                        w.Some? && w.value.Str? && w.value.s != [])
    ensures r.Ok? ==> Walk(data, ["daemon", "socket_path"]) == Some(Str(r.value))
    ensures Walk(data, ["daemon", "socket_path"]).None? ==> r == Err(InvalidKey("daemon.socket_path"))
  {
    RequiredPath(data, ["daemon", "socket_path"], "daemon.socket_path")
  }

  /** `history_file`. */
  function HistoryFile(data: Json): (r: Result<string, ConfigError>)
    ensures Walk(data, ["history", "file"]).None? ==> r == Err(InvalidKey("history.file"))
    ensures r.Ok? <==> (var w := Walk(data, ["history", "file"]); w.Some? && w.value.Str?)
    ensures r.Ok? ==> Walk(data, ["history", "file"]) == Some(Str(r.value))
  {
    PathSetting(data, ["history", "file"], "history.file")
  }

  /** `queue_file`. */
  function QueueFile(data: Json): (r: Result<string, ConfigError>)
    ensures Walk(data, ["queue", "file"]).None? ==> r == Err(InvalidKey("queue.file"))
    ensures r.Ok? <==> (var w := Walk(data, ["queue", "file"]); w.Some? && w.value.Str?)
    ensures r.Ok? ==> Walk(data, ["queue", "file"]) == Some(Str(r.value))
  {
    PathSetting(data, ["queue", "file"], "queue.file")
  }

  /** Read from the built-in defaults, every setting has its documented default value. */
  lemma DefaultsRead(home: string)
    ensures Favorites(DefaultConfig(home)) == Ok([])
    ensures RecencyExclude(DefaultConfig(home)) == Ok([])
    ensures RecencyTimeout(DefaultConfig(home)) == Ok(28800)
    ensures HistoryLimit(DefaultConfig(home)) == Ok(500)
    ensures WallpaperDir(DefaultConfig(home)) == Ok(UnderHome(home, "Pictures/Wallpapers"))
    ensures HyprlockConfig(DefaultConfig(home)) == Ok(UnderHome(home, ".config/hypr/hyprlock.conf"))
    ensures HistoryFile(DefaultConfig(home)) == Ok("~/.cache/sw-history")
    ensures QueueFile(DefaultConfig(home)) == Ok("~/.cache/sw-queue")
    ensures SocketPath(DefaultConfig(home)) == Ok("/tmp/sw-daemon.sock")
  {
    DefaultWallpaper(home);
    DefaultRecency(home);
    DefaultHistory(home);
    DefaultFiles(home);
    DefaultSocket(home);
  }

  lemma DefaultSocket(home: string)
    ensures Walk(DefaultConfig(home), ["daemon", "socket_path"]) == Some(Str("/tmp/sw-daemon.sock"))
  {
    LookupAt(DefaultConfig(home).fields, 4, "daemon");
  }

  lemma DefaultFiles(home: string)
    ensures Walk(DefaultConfig(home), ["hyprlock", "config"]) == Some(Str(UnderHome(home, ".config/hypr/hyprlock.conf")))
    ensures Walk(DefaultConfig(home), ["history", "file"]) == Some(Str("~/.cache/sw-history"))
    ensures Walk(DefaultConfig(home), ["queue", "file"]) == Some(Str("~/.cache/sw-queue"))
  {
    DefaultHyprlockFile(home);
    DefaultHistoryFile(home);
    DefaultQueueFile(home);
  }

  lemma DefaultHyprlockFile(home: string)
    ensures Walk(DefaultConfig(home), ["hyprlock", "config"]) == Some(Str(UnderHome(home, ".config/hypr/hyprlock.conf")))
  {
    LookupAt(DefaultConfig(home).fields, 1, "hyprlock");
  }

  lemma DefaultHistoryFile(home: string)
    ensures Walk(DefaultConfig(home), ["history", "file"]) == Some(Str("~/.cache/sw-history"))
  {
    LookupAt(DefaultConfig(home).fields, 2, "history");
  }

  lemma DefaultQueueFile(home: string)
    ensures Walk(DefaultConfig(home), ["queue", "file"]) == Some(Str("~/.cache/sw-queue"))
  {
    LookupAt(DefaultConfig(home).fields, 3, "queue");
  }

  /** The value of the first field holding key `k`. */
  lemma {:induction false} LookupAt(fields: seq<Field>, i: nat, k: string)
    requires i < |fields| && fields[i].key == k
    requires forall m :: 0 <= m < i ==> fields[m].key != k
    ensures Lookup(fields, k) == Some(fields[i].val)
  {
    if i > 0 {
      LookupAt(fields[1..], i - 1, k);
    }
  }

  lemma DefaultWallpaper(home: string)
    ensures Walk(DefaultConfig(home), ["wallpaper", "favorites"]) == Some(Arr([]))
    ensures Walk(DefaultConfig(home), ["wallpaper", "directory"]) == Some(Str(UnderHome(home, "Pictures/Wallpapers")))
  {
    var w := DefaultConfig(home).fields[0].val;
    assert w.fields[0].key != "favorites";
    assert Lookup(w.fields, "favorites") == Lookup(w.fields[1..], "favorites") == Some(Arr([]));
  }

  lemma DefaultRecency(home: string)
    ensures Walk(DefaultConfig(home), ["wallpaper", "recency", "exclude"]) == Some(Arr([]))
    ensures Walk(DefaultConfig(home), ["wallpaper", "recency", "timeout"]) == Some(Int(28800))
  {
    var w := DefaultConfig(home).fields[0].val;
    var rec := w.fields[2].val;
    assert w.fields[0].key != "recency" && w.fields[1].key != "recency";
    assert Lookup(w.fields, "recency") == Lookup(w.fields[1..], "recency") == Lookup(w.fields[2..], "recency") == Some(rec);
    assert rec.fields[0].key != "timeout";
    assert Lookup(rec.fields, "timeout") == Lookup(rec.fields[1..], "timeout") == Some(Int(28800));
  }

  lemma DefaultHistory(home: string)
    ensures Walk(DefaultConfig(home), ["history", "limit"]) == Some(Int(500))
  {
    var d := DefaultConfig(home);
    var h := d.fields[2].val;
    assert d.fields[0].key != "history" && d.fields[1].key != "history";
    assert Lookup(d.fields, "history") == Lookup(d.fields[1..], "history") == Lookup(d.fields[2..], "history") == Some(h);
    assert h.fields[0].key != "limit";
    assert Lookup(h.fields, "limit") == Lookup(h.fields[1..], "limit") == Some(Int(500));
  }
}
