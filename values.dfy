/**
 * The values a node's `data_in` / `data_out` may hold
 * (`Optional[Union[int, float, str, bool, list, dict]]`, app/schemas.py:51-52),
 * as a tagged variant, and the Python `type()` of such a value.
 */
module Values {

  /** A JSON-like value. Only the tag of a float matters in this model. */
  datatype Value =
    | VNone
    | VBool(b: bool)
    | VInt(i: int)
    | VFloat(f: real)
    | VStr(s: string)
    | VList(items: seq<Value>)
    | VDict(entries: map<string, Value>)

  /** The result of Python's `type(v)`: `bool` and `int` are distinct types, and so are `int` and `float`. */
  datatype TypeTag = NoneType | BoolType | IntType | FloatType | StrType | ListType | DictType

  function TypeOf(v: Value): TypeTag
  {
    match v
    case VNone => NoneType
    case VBool(_) => BoolType
    case VInt(_) => IntType
    case VFloat(_) => FloatType
    case VStr(_) => StrType
    case VList(_) => ListType
    case VDict(_) => DictType
  }

  /** A node's `data_in` or `data_out` dictionary. */
  type DataMap = map<string, Value>

  /** `m.get(k)` and `m.get(k, None)`: an absent key reads as `None`. */
  function Get(m: DataMap, k: string): (v: Value)
    ensures k in m ==> v == m[k]
    ensures k !in m ==> v == VNone
  {
    if k in m then m[k] else VNone
  }

  /** `dict.update`: the entries of `upd` replace those of `m` with the same key. */
  function Update(m: DataMap, upd: DataMap): (r: DataMap)
    ensures r.Keys == m.Keys + upd.Keys
    ensures forall k :: k in upd ==> r[k] == upd[k]
    ensures forall k :: k in m && k !in upd ==> r[k] == m[k]
  {
    m + upd
  }

  /** The type of the value a key reads as, `type(m.get(k, None))`. */
  function TypeAt(m: DataMap, k: string): TypeTag
  {
    TypeOf(Get(m, k))
  }

  /** An absent key and a key holding `None` have the same type, so absence on both sides matches. */
  lemma AbsentMatchesNone(m: DataMap, m': DataMap, k: string, k': string)
    requires k !in m
    requires k' in m' ==> m'[k'] == VNone
    ensures TypeAt(m, k) == TypeAt(m', k') == NoneType
  {
  }

  /** An edge's `src_to_dst_data_keys`: a Python dict, so an ordered list of pairs with distinct source keys. */
  predicate UniqueSrcKeys(km: seq<(string, string)>)
  {
    forall i, j :: 0 <= i < j < |km| ==> km[i].0 != km[j].0
  }

  type KeyMap = km: seq<(string, string)> | UniqueSrcKeys(km) witness []

  /** Two key maps are equal as Python dicts when they hold the same pairs, whatever their order. */
  predicate SameKeyMap(a: KeyMap, b: KeyMap)
  {
    (set p | p in a) == (set p | p in b)
  }
}
