/**
 * The history manager of the original generation (`sw`).  Like the
 * transitional one it re-reads and rewrites the JSON file around every
 * operation, but a file it cannot read counts as an empty history.
 */
module SwHistory {
  import opened Base
  import opened Json
  import PySeq

  datatype Entry = Entry(path: string, time: int)

  /** The only error the operations raise themselves: `IndexError`. */
  datatype HistoryError = IndexError(index: int)

  datatype HistoryFile = Unreadable | Parsed(doc: Json)

  function ToDict(e: Entry): (r: Json)
    ensures r.Obj? && Keys(r.fields) == ["path", "time"]
    ensures Lookup(r.fields, "path") == Some(Str(e.path))
    ensures Lookup(r.fields, "time") == Some(Int(e.time))
  {
    Obj([Field("path", Str(e.path)), Field("time", Int(e.time))])
  }

  function FromDict(d: Json): (r: Option<Entry>)
    ensures r.Some? ==> d.Obj? && Lookup(d.fields, "path") == Some(Str(r.value.path))
                        && Lookup(d.fields, "time") == Some(Int(r.value.time))
  {
    if !d.Obj? then None
    else
      match (Lookup(d.fields, "path"), Lookup(d.fields, "time"))
      case (Some(Str(p)), Some(Int(t))) => Some(Entry(p, t))
      case _ => None
  }

  function FromDicts(items: seq<Json>): (r: Option<seq<Entry>>)
    ensures r.Some? <==> forall i :: 0 <= i < |items| ==> FromDict(items[i]).Some?
    ensures r.Some? ==> |r.value| == |items| &&
                        forall i :: 0 <= i < |items| ==> FromDict(items[i]) == Some(r.value[i])
  {
    PySeq.MapAll(items, FromDict)
  }

  /**
   * `read`: any failure (unreadable file, invalid JSON, a record without
   * `path` or `time`) yields the empty list.  Iterating a JSON value that
   * is not a list never yields a readable record, so it also reads as `[]`.
   */
  function Read(file: HistoryFile): (r: seq<Entry>)
    ensures file.Unreadable? ==> r == []
    ensures file.Parsed? && !file.doc.Arr? ==> r == []
    ensures file.Parsed? && file.doc.Arr? && FromDicts(file.doc.items).None? ==> r == []
  {
    match file
    case Unreadable => []
    case Parsed(doc) =>
      if !doc.Arr? then []
      else FromDicts(doc.items).GetOr([])
  }

  function Write(entries: seq<Entry>): (r: Json)
    ensures r.Arr? && |r.items| == |entries|
    ensures forall i :: 0 <= i < |entries| ==> r.items[i] == ToDict(entries[i])
  {
    Arr(seq(|entries|, i requires 0 <= i < |entries| => ToDict(entries[i])))
  }

  lemma FromToDict(e: Entry)
    ensures FromDict(ToDict(e)) == Some(e)
  {
    var f := ToDict(e).fields;
    assert Lookup(f, "path") == Some(Str(e.path));
    assert Lookup(f, "time") == Some(Int(e.time));
  }

  /** Reading what `write` wrote gives the same entries back. */
  lemma ReadWrite(entries: seq<Entry>)
    ensures Read(Parsed(Write(entries))) == entries
  {
    var items := Write(entries).items;
    forall i | 0 <= i < |items|
      ensures FromDict(items[i]) == Some(entries[i])
    {
      FromToDict(entries[i]);
    }
    assert FromDicts(items).value == entries;
  }

  /** `add(path)`: append unless the newest entry has this path; then trim to `entries[-limit:]`. */
  function Add(entries: seq<Entry>, path: string, now: int, limit: int): (r: seq<Entry>)
    ensures entries != [] && entries[|entries| - 1].path == path ==> r == entries
    ensures entries == [] || entries[|entries| - 1].path != path ==>
              PySeq.KeepsNewest(r, entries + [Entry(path, now)], limit)
    ensures (entries == [] || entries[|entries| - 1].path != path) && limit >= 1 ==>
              r != [] && r[|r| - 1] == Entry(path, now)
  {
    if entries == [] || entries[|entries| - 1].path != path then
      PySeq.SliceFromNewest(entries + [Entry(path, now)], limit);
      PySeq.SliceFrom(entries + [Entry(path, now)], -limit)
    else entries
  }

  /** Setting the current wallpaper again leaves the history as it is. */
  lemma AddRepeat(entries: seq<Entry>, path: string, now: int, limit: int)
    requires entries != [] && entries[|entries| - 1].path == path
    ensures Add(entries, path, now, limit) == entries
  {
  }

  /** A new path with a positive limit ends the history, which keeps at most `limit` entries. */
  lemma AddNew(entries: seq<Entry>, path: string, now: int, limit: int)
    requires entries == [] || entries[|entries| - 1].path != path
    requires limit >= 1
    ensures var r := Add(entries, path, now, limit);
            1 <= |r| <= limit && r[|r| - 1] == Entry(path, now) &&
            r[..|r| - 1] == entries[|entries| + 1 - |r|..]
  {
    var full := entries + [Entry(path, now)];
    var r := Add(entries, path, now, limit);
    assert r == full[|full| - |r|..];
    assert r[..|r| - 1] == full[|full| - |r|..|full| - 1];
  }

  /** Adding a path with a positive limit leaves it newest, and the history grows by one entry at most. */
  lemma AddEndsWith(history: seq<Entry>, p: string, now: int, limit: int)
    requires limit >= 1
    ensures var h := Add(history, p, now, limit);
            h != [] && h[|h| - 1].path == p && |h| <= limit + |history|
  {
    if history != [] && history[|history| - 1].path == p {
      AddRepeat(history, p, now, limit);
    } else {
      AddNewEndsWith(history, p, now, limit);
    }
  }

  /** The new-path case of `AddEndsWith`. */
  lemma AddNewEndsWith(history: seq<Entry>, p: string, now: int, limit: int)
    requires limit >= 1
    requires history == [] || history[|history| - 1].path != p
    ensures var h := Add(history, p, now, limit);
            h != [] && h[|h| - 1].path == p && |h| <= limit + |history|
  {
    AddNew(history, p, now, limit);
  }

  /** `remove_by_index(idx)`: only `0 <= idx < len` is accepted. */
  function RemoveByIndex(entries: seq<Entry>, idx: int): (r: Result<seq<Entry>, HistoryError>)
    ensures r.Ok? <==> 0 <= idx < |entries|
    ensures r.Err? ==> r.error == IndexError(idx)
    ensures r.Ok? ==> r.value == entries[..idx] + entries[idx + 1..]
  {
    if idx < 0 || idx >= |entries| then Err(IndexError(idx))
    else Ok(PySeq.RemoveAt(entries, idx))
  }

  /** `remove_all`: the file is overwritten with an empty list. */
  function RemoveAll(): (r: Json)
    ensures Read(Parsed(r)) == []
  {
    Arr([])
  }

  /** `get_recent_paths`: paths of entries at or after `now - timeout`. */
  function RecentPaths(entries: seq<Entry>, now: int, timeout: int): (r: set<string>)
    ensures forall i :: 0 <= i < |entries| && entries[i].time >= now - timeout ==> entries[i].path in r
    ensures forall p :: p in r ==> exists i :: 0 <= i < |entries| && entries[i].path == p && entries[i].time >= now - timeout
  {
    set i | 0 <= i < |entries| && entries[i].time >= now - timeout :: entries[i].path
  }

  /** `get_by_index(index)`: the path at a Python index. */
  function GetByIndex(entries: seq<Entry>, index: int): (r: Result<string, HistoryError>)
    ensures r.Ok? <==> -|entries| <= index < |entries|
    ensures r.Ok? ==> r.value == entries[PySeq.Normalize(|entries|, index)].path
    ensures r.Err? ==> r.error == IndexError(index)
  {
    match PySeq.At(entries, index)
    case Some(e) => Ok(e.path)
    case None => Err(IndexError(index))
  }
}
