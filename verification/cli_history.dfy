/**
 * The history manager of the transitional generation (`sw_cli`).  Every
 * operation re-reads the JSON file and writes the result back; this model
 * gives the file's reading and writing as functions and each operation
 * as the list it would write, starting from what `read` returned.
 */
module CliHistory {
  import opened Base
  import opened Json
  import PySeq

  datatype Entry = Entry(path: string, time: int)

  datatype HistoryError =
    | ReadError               // `HistoryReadError`
    | IndexError(index: int)  // `HistoryIndexError`

  /** The history file: unreadable (missing, OS error, invalid JSON) or parsed. */
  datatype HistoryFile = Unreadable | Parsed(doc: Json)

  /** `HistoryEntry.to_dict`. */
  function ToDict(e: Entry): (r: Json)
    ensures r.Obj? && Keys(r.fields) == ["path", "time"]
    ensures Lookup(r.fields, "path") == Some(Str(e.path))
    ensures Lookup(r.fields, "time") == Some(Int(e.time))
  {
    Obj([Field("path", Str(e.path)), Field("time", Int(e.time))])
  }

  /** `HistoryEntry.from_dict`; `None` for any record it cannot read. */
  function FromDict(d: Json): (r: Option<Entry>)
    ensures r.Some? ==> d.Obj? && Lookup(d.fields, "path") == Some(Str(r.value.path))
                        && Lookup(d.fields, "time") == Some(Int(r.value.time))
  {
    if !d.Obj? then None
    else
      match (Lookup(d.fields, "path"), Lookup(d.fields, "time"))
      case (Some(Str(p)), Some(Int(t))) => Some(Entry(p, t))
      case _ => None
  }

  function FromDicts(items: seq<Json>): (r: Option<seq<Entry>>)
    ensures r.Some? ==> |r.value| == |items|
    ensures r.Some? <==> forall i :: 0 <= i < |items| ==> FromDict(items[i]).Some?
    ensures r.Some? ==> forall i :: 0 <= i < |items| ==> FromDict(items[i]) == Some(r.value[i])
  {
    PySeq.MapAll(items, FromDict)
  }

  /** `read`: the file must hold a list of records; every failure is `HistoryReadError`. */
  function Read(file: HistoryFile): (r: Result<seq<Entry>, HistoryError>)
    ensures r.Err? ==> r.error == ReadError
    ensures file.Parsed? && !file.doc.Arr? ==> r.Err?
    ensures file.Unreadable? ==> r.Err?
  {
    match file
    case Unreadable => Err(ReadError)
    case Parsed(doc) =>
      if !doc.Arr? then Err(ReadError)
      else
        match FromDicts(doc.items)
        case Some(es) => Ok(es)
        case None => Err(ReadError)
  }

  /** `write`: the JSON list of the entries' dicts. */
  function Write(entries: seq<Entry>): (r: Json)
    ensures r.Arr? && |r.items| == |entries|
    ensures forall i :: 0 <= i < |entries| ==> r.items[i] == ToDict(entries[i])
  {
    Arr(seq(|entries|, i requires 0 <= i < |entries| => ToDict(entries[i])))
  }

  lemma FromToDict(e: Entry)
    ensures FromDict(ToDict(e)) == Some(e)
  {
    var f := ToDict(e).fields;
    assert Lookup(f, "path") == Some(Str(e.path));
    assert Lookup(f, "time") == Some(Int(e.time));
  }

  /** Reading what `write` wrote gives the same entries back. */
  lemma ReadWrite(entries: seq<Entry>)
    ensures Read(Parsed(Write(entries))) == Ok(entries)
  {
    var items := Write(entries).items;
    forall i | 0 <= i < |items|
      ensures FromDict(items[i]) == Some(entries[i])
    {
      FromToDict(entries[i]);
    }
    assert FromDicts(items).value == entries;
  }

  /** No two neighbouring entries name the same wallpaper. */
  predicate NoRepeats(entries: seq<Entry>) {
    forall i :: 0 < i < |entries| ==> entries[i - 1].path != entries[i].path
  }

  /**
   * `add(path)`: append unless the newest entry already has this path;
   * only the appending branch trims to `entries[-limit:]`.
   */
  function Add(entries: seq<Entry>, path: string, now: int, limit: int): (r: seq<Entry>)
    ensures entries != [] && entries[|entries| - 1].path == path ==> r == entries
    ensures entries == [] || entries[|entries| - 1].path != path ==>
              PySeq.KeepsNewest(r, entries + [Entry(path, now)], limit)
    ensures (entries == [] || entries[|entries| - 1].path != path) && limit >= 1 ==>
              r != [] && r[|r| - 1] == Entry(path, now)
  {
    if entries == [] || entries[|entries| - 1].path != path then
      PySeq.SliceFromNewest(entries + [Entry(path, now)], limit);
      PySeq.SliceFrom(entries + [Entry(path, now)], -limit)
    else entries
  }

  /** Setting the current wallpaper again leaves the history as it is, untrimmed. */
  lemma AddRepeat(entries: seq<Entry>, path: string, now: int, limit: int)
    requires entries != [] && entries[|entries| - 1].path == path
    ensures Add(entries, path, now, limit) == entries
  {
  }

  /** A new path with a positive limit ends the history, which keeps at most `limit` entries. */
  lemma AddNew(entries: seq<Entry>, path: string, now: int, limit: int)
    requires entries == [] || entries[|entries| - 1].path != path
    requires limit >= 1
    ensures var r := Add(entries, path, now, limit);
            1 <= |r| <= limit && r[|r| - 1] == Entry(path, now) &&
            r[..|r| - 1] == entries[|entries| + 1 - |r|..]
  {
    var full := entries + [Entry(path, now)];
    var r := Add(entries, path, now, limit);
    assert r == full[|full| - |r|..];
    assert r[..|r| - 1] == full[|full| - |r|..|full| - 1];
  }

  /** `add` never creates two neighbouring entries for the same wallpaper. */
  lemma AddKeepsNoRepeats(entries: seq<Entry>, path: string, now: int, limit: int)
    requires NoRepeats(entries)
    ensures NoRepeats(Add(entries, path, now, limit))
  {
    if entries == [] || entries[|entries| - 1].path != path {
      var full := entries + [Entry(path, now)];
      forall i | 0 < i < |full|
        ensures full[i - 1].path != full[i].path
      {
        if i < |entries| {
          assert full[i - 1] == entries[i - 1] && full[i] == entries[i];
        }
      }
      NoRepeatsSuffix(full, |full| - |Add(entries, path, now, limit)|);
    }
  }

  /** Dropping the oldest entries keeps neighbours distinct. */
  lemma NoRepeatsSuffix(s: seq<Entry>, off: nat)
    requires NoRepeats(s) && off <= |s|
    ensures NoRepeats(s[off..])
  {
    forall i | 0 < i < |s| - off
      ensures s[off..][i - 1].path != s[off..][i].path
    {
      assert s[off..][i - 1] == s[off + i - 1] && s[off..][i] == s[off + i];
    }
  }

  /** `remove_by_index(idx)`: only `0 <= idx < len` is accepted, negative indices included in the refusal. */
  function RemoveByIndex(entries: seq<Entry>, idx: int): (r: Result<seq<Entry>, HistoryError>)
    ensures r.Ok? <==> 0 <= idx < |entries|
    ensures r.Err? ==> r.error == IndexError(idx)
    ensures r.Ok? ==> r.value == entries[..idx] + entries[idx + 1..]
  {
    if idx < 0 || idx >= |entries| then Err(IndexError(idx))
    else Ok(PySeq.RemoveAt(entries, idx))
  }

  /** `remove_all`: the file is overwritten with an empty list. */
  function RemoveAll(): (r: Json)
    ensures Read(Parsed(r)) == Ok([])
  {
    Arr([])
  }

  /** `get_recent_paths`: paths of entries at or after `now - timeout`. */
  function RecentPaths(entries: seq<Entry>, now: int, timeout: int): (r: set<string>)
    ensures forall i :: 0 <= i < |entries| && entries[i].time >= now - timeout ==> entries[i].path in r
    ensures forall p :: p in r ==> exists i :: 0 <= i < |entries| && entries[i].path == p && entries[i].time >= now - timeout
  {
    set i | 0 <= i < |entries| && entries[i].time >= now - timeout :: entries[i].path
  }

  /**
   * A newly added wallpaper counts as recent for any timeout that is not
   * negative.  (Setting the current wallpaper again does not refresh its
   * time: `AddRepeat` leaves the old entry in place.)
   */
  lemma AddedIsRecent(entries: seq<Entry>, path: string, now: int, limit: int, timeout: int)
    requires entries == [] || entries[|entries| - 1].path != path
    requires limit >= 1 && timeout >= 0
    ensures path in RecentPaths(Add(entries, path, now, limit), now, timeout)
  {
    var r := Add(entries, path, now, limit);
    RecentAt(r, |r| - 1, now, timeout);
  }

  /** An entry at or after the cut-off puts its path among the recent ones. */
  lemma RecentAt(entries: seq<Entry>, i: int, now: int, timeout: int)
    requires 0 <= i < |entries| && entries[i].time >= now - timeout
    ensures entries[i].path in RecentPaths(entries, now, timeout)
  {
  }

  /** A longer timeout never makes fewer paths recent. */
  lemma RecentPathsMonotone(entries: seq<Entry>, now: int, t1: int, t2: int)
    requires t1 <= t2
    ensures RecentPaths(entries, now, t1) <= RecentPaths(entries, now, t2)
  {
  }

  /** `get_by_index(index)`: the path at a Python index; out of range is `HistoryIndexError`. */
  function GetByIndex(entries: seq<Entry>, index: int): (r: Result<string, HistoryError>)
    ensures r.Ok? <==> -|entries| <= index < |entries|
    ensures r.Ok? ==> r.value == entries[PySeq.Normalize(|entries|, index)].path
    ensures r.Err? ==> r.error == IndexError(index)
  {
    match PySeq.At(entries, index)
    case Some(e) => Ok(e.path)
    case None => Err(IndexError(index))
  }

  /** Reading accepts `-1` (the current wallpaper) where removing refuses it. */
  lemma NegativeIndexAsymmetry(entries: seq<Entry>)
    requires entries != []
    ensures GetByIndex(entries, -1) == Ok(entries[|entries| - 1].path)
    ensures RemoveByIndex(entries, -1) == Err(IndexError(-1))
  {
  }
}
