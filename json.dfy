/** The Python values that travel from the scoring oracle to the quote
    records: what `json.loads` produces (floats aside), with Python's
    truthiness, dictionary lookup and update, ordering against an int, and
    hashing. */
module Json {
  import opened Wrappers

  /** A decoded JSON value. An object keeps its members in document order;
      a repeated key is resolved as a Python dict resolves it (the last value
      wins), see `Get`. */
  datatype Json =
    | Null
    | Bool(b: bool)
    | Int(i: int)
    | Str(s: string)
    | Arr(items: seq<Json>)
    | Obj(fields: seq<(string, Json)>)

  /** A Python dict with string keys, in insertion order. */
  type Dict = seq<(string, Json)>

  /** `bool(v)` in Python. */
  predicate Truthy(v: Json) {
    match v
    case Null => false
    case Bool(b) => b
    case Int(i) => i != 0
    case Str(s) => s != ""
    case Arr(xs) => xs != []
    case Obj(fs) => fs != []
  }

  /** `d.get(k)`: the value stored under `k`, the last one if `k` repeats. */
  function Get(d: Dict, k: string): Option<Json> {
    if d == [] then None
    else
      var later := Get(d[1..], k);
      if later.Some? then later
      else if d[0].0 == k then Some(d[0].1)
      else None
  }

  /** `d.get(k, default)` */
  function GetOr(d: Dict, k: string, default: Json): Json {
    Get(d, k).GetOr(default)
  }

  function Keys(d: Dict): seq<string> {
    seq(|d|, i requires 0 <= i < |d| => d[i].0)
  }

  predicate DistinctKeys(d: Dict) {
    forall i, j | 0 <= i < j < |d| :: d[i].0 != d[j].0
  }

  /** `d[k] = v`: overwrite in place when `k` is present, else append. */
  function Put(d: Dict, k: string, v: Json): Dict {
    if d == [] then [(k, v)]
    else if d[0].0 == k then [(k, v)] + d[1..]
    else [d[0]] + Put(d[1..], k, v)
  }

  /** `{**d, **q}`: `d` updated by each member of `q` in order. */
  function Update(d: Dict, q: Dict): Dict
    decreases |q|
  {
    if q == [] then d else Update(Put(d, q[0].0, q[0].1), q[1..])
  }

  lemma {:induction false} GetNone(d: Dict, k: string)
    ensures Get(d, k).None? <==> k !in Keys(d)
  {
    if d != [] {
      GetNone(d[1..], k);
      assert Keys(d) == [d[0].0] + Keys(d[1..]);
    }
  }

  /** Writing a key leaves the order of the existing keys alone and adds a new key at the end. */
  lemma {:induction false} PutKeys(d: Dict, k: string, v: Json)
    ensures Keys(Put(d, k, v)) == if k in Keys(d) then Keys(d) else Keys(d) + [k]
  {
    if d != [] {
      var r := Put(d, k, v);
      KeysCons(d);
      KeysCons(r);
      if d[0].0 == k {
        assert r[0].0 == k && r[1..] == d[1..];
      } else {
        assert r[0] == d[0] && r[1..] == Put(d[1..], k, v);
        PutKeys(d[1..], k, v);
        assert k in Keys(d) <==> k in Keys(d[1..]);
        if k !in Keys(d) {
          assert [d[0].0] + (Keys(d[1..]) + [k]) == [d[0].0] + Keys(d[1..]) + [k];
        }
      }
    }
  }

  lemma KeysCons(d: Dict)
    requires d != []
    ensures Keys(d) == [d[0].0] + Keys(d[1..])
  {
  }

  /** A written key reads back its new value; every other key reads as before. */
  lemma GetPut(d: Dict, k: string, v: Json, k': string)
    requires DistinctKeys(d)
    ensures DistinctKeys(Put(d, k, v))
    ensures Get(Put(d, k, v), k') == if k == k' then Some(v) else Get(d, k')
  {
    PutDistinct(d, k, v);
    GetPutRead(d, k, v, k');
  }

  lemma PutDistinct(d: Dict, k: string, v: Json)
    requires DistinctKeys(d)
    ensures DistinctKeys(Put(d, k, v))
  {
    var r := Put(d, k, v);
    PutKeys(d, k, v);
    forall i, j | 0 <= i < j < |r| ensures r[i].0 != r[j].0 {
      assert r[i].0 == Keys(r)[i] && r[j].0 == Keys(r)[j];
      assert Keys(r)[i] == Keys(d)[i] == d[i].0;
      if j < |d| {
        assert Keys(r)[j] == Keys(d)[j] == d[j].0;
      }
    }
  }

  lemma {:induction false} GetPutRead(d: Dict, k: string, v: Json, k': string)
    requires DistinctKeys(d)
    ensures Get(Put(d, k, v), k') == if k == k' then Some(v) else Get(d, k')
  {
    if d == [] {
    } else if d[0].0 == k {
      var r := Put(d, k, v);
      assert r[1..] == d[1..];
      GetNone(d[1..], k);
    } else {
      var r := Put(d, k, v);
      assert r[1..] == Put(d[1..], k, v);
      GetPutRead(d[1..], k, v, k');
    }
  }

  /** After `{**d, **q}` a key reads its value from `q` when `q` has it and
      from `d` otherwise, and no key is repeated. */
  lemma {:induction false} GetUpdate(d: Dict, q: Dict, k: string)
    requires DistinctKeys(d)
    decreases |q|
    ensures DistinctKeys(Update(d, q))
    ensures Get(Update(d, q), k) == if Get(q, k).Some? then Get(q, k) else Get(d, k)
  {
    if q != [] {
      var d' := Put(d, q[0].0, q[0].1);
      GetPut(d, q[0].0, q[0].1, k);
      GetUpdate(d', q[1..], k);
    }
  }

  /** `{**d, **q}` keeps the keys of `d` first, in their order. */
  lemma {:induction false} UpdateKeysPrefix(d: Dict, q: Dict)
    decreases |q|
    ensures |Update(d, q)| >= |d|
    ensures Keys(Update(d, q))[..|d|] == Keys(d)
  {
    if q != [] {
      var d' := Put(d, q[0].0, q[0].1);
      PutKeys(d, q[0].0, q[0].1);
      assert |Keys(d')| >= |Keys(d)| && Keys(d')[..|d|] == Keys(d);
      UpdateKeysPrefix(d', q[1..]);
      assert Keys(Update(d, q))[..|d'|][..|d|] == Keys(Update(d, q))[..|d|];
    }
  }

  /** The integer a value counts as when Python compares it with an int
      (`bool` is a subclass of `int`); `None` when the comparison raises
      `TypeError`. */
  function AsInt(v: Json): (r: Option<int>)
    ensures r.Some? <==> v.Int? || v.Bool?
  {
    match v
    case Int(i) => Some(i)
    case Bool(b) => Some(if b then 1 else 0)
    case _ => None
  }

  /** What a value is as a member of a Python set: equal hash keys are the
      same member (`True == 1`, `False == 0`); `None` for the unhashable list
      and dict. */
  function HashKey(v: Json): (r: Option<Json>)
    ensures r.Some? <==> !(v.Arr? || v.Obj?)
    ensures r.Some? ==> !r.value.Bool?
  {
    match v
    case Arr(_) => None
    case Obj(_) => None
    case Bool(b) => Some(Int(if b then 1 else 0))
    case _ => Some(v)
  }
}
