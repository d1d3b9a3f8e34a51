/** JSON values as the scripts see them once `resp.json()` has parsed a body,
    with the few Python operations the scripts apply to them: truthiness,
    `dict.get`, iteration and the type name that appears in error text. */
module Json {
  import opened Results

  /** An object keeps its fields in the order the body lists them, as a
      Python dict keeps insertion order. Numbers with a fraction are not
      modelled (see README). */
  datatype Value =
    | Null
    | Bool(b: bool)
    | Int(i: int)
    | Str(s: string)
    | List(items: seq<Value>)
    | Object(fields: seq<(string, Value)>)

  /** `bool(v)`. */
  predicate Truthy(v: Value)
  {
    match v
    case Null => false
    case Bool(b) => b
    case Int(i) => i != 0
    case Str(s) => s != []
    case List(xs) => xs != []
    case Object(fs) => fs != []
  }

  /** `type(v).__name__`. */
  function TypeName(v: Value): string
  {
    match v
    case Null => "NoneType"
    case Bool(_) => "bool"
    case Int(_) => "int"
    case Str(_) => "str"
    case List(_) => "list"
    case Object(_) => "dict"
  }

  function Keys(fields: seq<(string, Value)>): seq<string>
  {
    seq(|fields|, i requires 0 <= i < |fields| => fields[i].0)
  }

  /** `d.get(k)` on a parsed object: when a key is repeated in the body the
      last occurrence wins, as `json.loads` builds the dict (`GetLastWins`). */
  function Get(fields: seq<(string, Value)>, k: string): (r: Option<Value>)
    ensures r.Some? <==> k in Keys(fields)
    ensures r.Some? ==> (k, r.value) in fields
  {
    if fields == [] then None
    else
      var n := |fields| - 1;
      assert Keys(fields) == Keys(fields[..n]) + [fields[n].0];
      assert forall j :: 0 <= j < n ==> fields[..n][j] == fields[j];
      if fields[n].0 == k then Some(fields[n].1) else Get(fields[..n], k)
  }

  /** The value of a key is the one at its last occurrence in the body. */
  lemma {:induction false} GetLastWins(fields: seq<(string, Value)>, k: string, i: nat)
    requires i < |fields| && fields[i].0 == k
    requires forall j :: i < j < |fields| ==> fields[j].0 != k
    ensures Get(fields, k) == Some(fields[i].1)
  {
    var n := |fields| - 1;
    if i < n {
      assert fields[n].0 != k;
      var init := fields[..n];
      assert init[i] == fields[i];
      forall j | i < j < |init|
        ensures init[j].0 != k
      {
        assert init[j] == fields[j];
      }
      GetLastWins(init, k, i);
    }
  }

  /** The text of the `AttributeError` raised by `v.<name>` on a value
      that lacks that method. */
  function AttributeError(v: Value, name: string): string
  {
    "'" + TypeName(v) + "' object has no attribute '" + name + "'"
  }

  /** `v.get(k, default)`: only a dict has `get`; a present key gives its
      value even when that value is `None`. */
  function DictGet(v: Value, k: string, default: Value): (r: Result<Value>)
    ensures r.Ok? <==> v.Object?
    ensures r.Err? ==> r.error == AttributeError(v, "get")
    ensures v.Object? && k !in Keys(v.fields) ==> r == Ok(default)
    ensures v.Object? && k in Keys(v.fields) ==> (k, r.value) in v.fields
  {
    match v
    case Object(fs) => Ok(match Get(fs, k) case Some(x) => x case None => default)
    case _ => Err(AttributeError(v, "get"))
  }

  /** `v or default`. */
  function Or(v: Value, default: Value): Value
  {
    if Truthy(v) then v else default
  }

  /** The items `for item in v` visits: a list's elements, a dict's keys, a
      string's characters; other values raise `TypeError`. */
  function Iterate(v: Value): Result<seq<Value>>
  {
    match v
    case List(xs) => Ok(xs)
    case Object(fs) => Ok(seq(|fs|, i requires 0 <= i < |fs| => Str(fs[i].0)))
    case Str(s) => Ok(seq(|s|, i requires 0 <= i < |s| => Str([s[i]])))
    case _ => Err("'" + TypeName(v) + "' object is not iterable")
  }
}
