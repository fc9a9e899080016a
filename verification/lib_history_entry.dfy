/**
 * One wallpaper history record of the library generation: the image's
 * path and the Unix time it was set, stored on disk as
 * `{"path": ..., "time": ...}`.
 */
module LibHistoryEntry {
  import opened Base
  import opened PyStr
  import opened Json

  datatype Entry = Entry(path: string, time: int)

  /** Why a stored record could not become an entry. */
  datatype EntryError =
    | NotADict                 // indexing a non-dict raises `TypeError`
    | MissingKey(key: string)  // `KeyError`
    | BadValue(key: string)    // a value of a type the model does not carry

  /** `to_dict`. */
  function ToDict(e: Entry): (r: Json)
    ensures r.Obj? && Keys(r.fields) == ["path", "time"]
    ensures Lookup(r.fields, "path") == Some(Str(e.path))
    ensures Lookup(r.fields, "time") == Some(Int(e.time))
  {
    Obj([Field("path", Str(e.path)), Field("time", Int(e.time))])
  }

  /** `from_dict`: reads `path`, then `time`. */
  function FromDict(d: Json): (r: Result<Entry, EntryError>)
    ensures r.Ok? ==> d.Obj? && Lookup(d.fields, "path") == Some(Str(r.value.path))
                      && Lookup(d.fields, "time") == Some(Int(r.value.time))
    ensures d.Obj? && "path" !in Keys(d.fields) ==> r == Err(MissingKey("path"))
  {
    if !d.Obj? then Err(NotADict)
    else
      match Lookup(d.fields, "path")
      case None => Err(MissingKey("path"))
      case Some(p) =>
        if !p.Str? then Err(BadValue("path"))
        else
          match Lookup(d.fields, "time")
          case None => Err(MissingKey("time"))
          case Some(t) => if t.Int? then Ok(Entry(p.s, t.i)) else Err(BadValue("time"))
  }

  /** Reading back what `to_dict` wrote gives the same entry. */
  lemma FromToDict(e: Entry)
    ensures FromDict(ToDict(e)) == Ok(e)
  {
  }

  /** A record holding exactly `path` and `time` is the dict of the entry it reads as. */
  lemma ToFromDict(d: Json)
    requires FromDict(d).Ok?
    requires forall i :: 0 <= i < |d.fields| ==> d.fields[i].key in ["path", "time"]
    ensures SameDict(ToDict(FromDict(d).value).fields, d.fields)
  {
  }

  const ReprPrefix: string := "<HistoryEntry path="
  const ReprTime: string := " time="

  /** `__repr__`. */
  function Repr(e: Entry): (r: string)
    ensures StartsWith(r, ReprPrefix) && r[|r| - 1] == '>'
  {
    ReprPrefix + e.path + ReprTime + IntToString(e.time) + ">"
  }

  /** A rendered number is at least as long as any number it ends a string with. */
  lemma NumberTailLength(p1: string, p2: string, i1: int, i2: int)
    requires p1 + ReprTime + IntToString(i1) == p2 + ReprTime + IntToString(i2)
    ensures |IntToString(i1)| >= |IntToString(i2)|
  {
    EqualsBeforeNumber(p1, IntToString(i1));
    NoEqualsInNumber(p2, i2);
  }

  lemma EqualsBeforeNumber(p: string, d: string)
    ensures (p + ReprTime + d)[|p + ReprTime + d| - |d| - 1] == '='
  {
    assert (p + ReprTime + d)[|p| + 5] == ReprTime[5];
  }

  lemma NoEqualsInNumber(p: string, i: int)
    ensures forall j :: |p + ReprTime| <= j < |p + ReprTime + IntToString(i)| ==>
              (p + ReprTime + IntToString(i))[j] != '='
  {
    var d := IntToString(i);
    forall j | |p + ReprTime| <= j < |p + ReprTime + d|
      ensures (p + ReprTime + d)[j] != '='
    {
      assert (p + ReprTime + d)[j] == d[j - |p + ReprTime|];
    }
  }

  lemma StripFrame(a: string, x1: string, x2: string, b: string)
    requires a + x1 + b == a + x2 + b
    ensures x1 == x2
  {
    assert x1 == (a + x1 + b)[|a|..|a| + |x1|];
  }

  lemma SplitTail(p1: string, d1: string, p2: string, d2: string)
    requires p1 + ReprTime + d1 == p2 + ReprTime + d2 && |d1| == |d2|
    ensures p1 == p2 && d1 == d2
  {
    var x := p1 + ReprTime + d1;
    assert d1 == x[|x| - |d1|..];
    assert p1 == x[..|p1|];
  }

  lemma ReprShape(e: Entry)
    ensures Repr(e) == ReprPrefix + (e.path + ReprTime + IntToString(e.time)) + ">"
  {
  }

  /** Different entries never print alike: the number after the last ` time=` is the time. */
  lemma ReprInjective(e1: Entry, e2: Entry)
    requires Repr(e1) == Repr(e2)
    ensures e1 == e2
  {
    var d1 := IntToString(e1.time);
    var d2 := IntToString(e2.time);
    ReprShape(e1);
    ReprShape(e2);
    StripFrame(ReprPrefix, e1.path + ReprTime + d1, e2.path + ReprTime + d2, ">");
    NumberTailLength(e1.path, e2.path, e1.time, e2.time);
    NumberTailLength(e2.path, e1.path, e2.time, e1.time);
    SplitTail(e1.path, d1, e2.path, d2);
    IntToStringInjective(e1.time, e2.time);
  }
}
