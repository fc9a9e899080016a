/**
 * JSON values as the `json` module hands them to Python: `None`, `bool`,
 * `int`, `str`, `list` and `dict`.  A `dict` is its ordered list of
 * fields, because Python dicts remember insertion order and the tool's
 * output depends on it.  Keys are unique in every dict the tool builds.
 */
module Json {
  import opened Base
  import opened PyStr
  import PySeq

  datatype Json =
    | Null
    | Bool(b: bool)
    | Int(i: int)
    | Str(s: string)
    | Arr(items: seq<Json>)
    | Obj(fields: seq<Field>)

  datatype Field = Field(key: string, val: Json)

  function Keys(fields: seq<Field>): (r: seq<string>)
    ensures |r| == |fields|
    ensures forall k :: 0 <= k < |fields| ==> r[k] == fields[k].key
  {
    if fields == [] then [] else [fields[0].key] + Keys(fields[1..])
  }

  predicate UniqueKeys(fields: seq<Field>) {
    PySeq.NoDuplicates(Keys(fields))
  }

  /** `d.get(k)`: the value stored under `k`, if any. */
  function Lookup(fields: seq<Field>, k: string): (r: Option<Json>)
    ensures r.Some? <==> k in Keys(fields)
  {
    if fields == [] then None
    else if fields[0].key == k then Some(fields[0].val)
    else Lookup(fields[1..], k)
  }

  /** `d[k] = v`: an existing key keeps its position, a new key goes last. */
  function Put(fields: seq<Field>, k: string, v: Json): (r: seq<Field>)
  {
    if fields == [] then [Field(k, v)]
    else if fields[0].key == k then [Field(k, v)] + fields[1..]
    else [fields[0]] + Put(fields[1..], k, v)
  }

  /** `d.pop(k, None)`: the dict without the key `k`. */
  function Remove(fields: seq<Field>, k: string): (r: seq<Field>)
    ensures |r| <= |fields|
  {
    if fields == [] then []
    else if fields[0].key == k then Remove(fields[1..], k)
    else [fields[0]] + Remove(fields[1..], k)
  }

  lemma {:induction false} PutLookup(fields: seq<Field>, k: string, v: Json, other: string)
    ensures Lookup(Put(fields, k, v), k) == Some(v)
    ensures other != k ==> Lookup(Put(fields, k, v), other) == Lookup(fields, other)
  {
    if fields != [] && fields[0].key != k {
      PutLookup(fields[1..], k, v, other);
    }
  }

  lemma {:induction false} PutKeys(fields: seq<Field>, k: string, v: Json)
    ensures k in Keys(fields) ==> Keys(Put(fields, k, v)) == Keys(fields)
    ensures k !in Keys(fields) ==> Keys(Put(fields, k, v)) == Keys(fields) + [k]
  {
    if fields != [] && fields[0].key != k {
      PutKeys(fields[1..], k, v);
      assert Keys(fields) == [fields[0].key] + Keys(fields[1..]);
    }
  }

  /** Without its first entry a dict with unique keys keeps them unique, and no longer has that key. */
  lemma UniqueTail(fields: seq<Field>)
    requires UniqueKeys(fields) && fields != []
    ensures UniqueKeys(fields[1..]) && fields[0].key !in Keys(fields[1..])
  {
    var keys, rest := Keys(fields), Keys(fields[1..]);
    assert forall k :: 0 <= k < |rest| ==> rest[k] == keys[k + 1];
  }

  lemma PutUnique(fields: seq<Field>, k: string, v: Json)
    requires UniqueKeys(fields)
    ensures UniqueKeys(Put(fields, k, v))
  {
    PutKeys(fields, k, v);
  }

  /** Storing the value a key already has changes nothing. */
  lemma {:induction false} PutExisting(fields: seq<Field>, k: string)
    requires k in Keys(fields)
    ensures Put(fields, k, Lookup(fields, k).value) == fields
  {
    if fields[0].key != k {
      PutExisting(fields[1..], k);
    }
  }

  lemma {:induction false} RemoveLookup(fields: seq<Field>, k: string, other: string)
    ensures Lookup(Remove(fields, k), k) == None
    ensures other != k ==> Lookup(Remove(fields, k), other) == Lookup(fields, other)
  {
    if fields != [] {
      RemoveLookup(fields[1..], k, other);
    }
  }

  lemma {:induction false} RemoveAbsent(fields: seq<Field>, k: string)
    requires k !in Keys(fields)
    ensures Remove(fields, k) == fields
  {
    if fields != [] {
      assert Keys(fields) == [fields[0].key] + Keys(fields[1..]);
      RemoveAbsent(fields[1..], k);
    }
  }

  /** Every dict inside the value has unique keys, as every Python dict does. */
  predicate Wf(j: Json) {
    match j
    case Arr(items) => forall i :: 0 <= i < |items| ==> Wf(items[i])
    case Obj(fields) => WfFields(fields)
    case _ => true
  }

  predicate WfFields(fields: seq<Field>) {
    UniqueKeys(fields) && forall i :: 0 <= i < |fields| ==> Wf(fields[i].val)
  }

  /** Python truthiness: `None`, `False`, `0`, `""`, `[]` and `{}` are false. */
  predicate Truthy(j: Json) {
    match j
    case Null => false
    case Bool(b) => b
    case Int(i) => i != 0
    case Str(s) => s != []
    case Arr(items) => items != []
    case Obj(fields) => fields != []
  }

  datatype IntFailure = TypeError | ValueError

  /** `int(v)` for a JSON value: booleans count as 0 and 1, strings are parsed. */
  function ToInt(j: Json): (r: Result<int, IntFailure>)
    ensures j.Int? ==> r == Ok(j.i)
    ensures (j.Null? || j.Arr? || j.Obj?) ==> r == Err(TypeError)
    ensures j.Str? ==> (r.Ok? <==> ParseInt(j.s).Some?)
  {
    match j
    case Int(i) => Ok(i)
    case Bool(b) => Ok(if b then 1 else 0)
    case Str(s) => (match ParseInt(s) case Some(n) => Ok(n) case None => Err(ValueError))
    case _ => Err(TypeError)
  }

  /** `int(str(i)) == i` as a JSON value: an integer written as a string reads back. */
  lemma ToIntOfString(i: int)
    ensures ToInt(Str(IntToString(i))) == Ok(i)
  {
    ParseIntToString(i);
  }

  /** Two dicts with the same keys and the same value per key (`==` on dicts ignores order). */
  predicate SameDict(a: seq<Field>, b: seq<Field>) {
    (forall i :: 0 <= i < |a| ==> Lookup(b, a[i].key) == Lookup(a, a[i].key)) &&
    (forall j :: 0 <= j < |b| ==> b[j].key in Keys(a))
  }
}
