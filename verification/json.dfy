/** The JSON values a guided session keeps in its slots, with the two Python
    tests the guided API applies to them: truthiness (`if not v`) and the
    template-default test `v in (None, "", [], {})`. */
module Json {

  /** A JSON value as Python decodes it. Objects keep their key order, as a
      Python `dict` does; numbers are modelled as integers. */
  datatype Value =
    | Null
    | Bool(b: bool)
    | Num(n: int)
    | Str(s: string)
    | List(items: seq<Value>)
    | Obj(fields: seq<(string, Value)>)

  /** The slot dictionary of a session. */
  type Slots = map<string, Value>

  /** Python truthiness of a decoded JSON value. */
  predicate Truthy(v: Value) {
    match v
    case Null => false
    case Bool(b) => b
    case Num(n) => n != 0
    case Str(s) => s != ""
    case List(xs) => xs != []
    case Obj(fs) => fs != []
  }

  /** `slots.get(k)`: an absent key reads as `None`. */
  function Get(slots: Slots, k: string): Value {
    if k in slots then slots[k] else Null
  }

  /** `v in (None, "", [], {})`: the values a template default may replace. */
  predicate Blank(v: Value) {
    v == Null || v == Str("") || v == List([]) || v == Obj([])
  }

  /** Every blank value is falsy, but `False` and `0` are falsy without
      being blank, so a template never overwrites them. */
  lemma BlankIsFalsy(v: Value)
    ensures Blank(v) ==> !Truthy(v)
    ensures !Truthy(Bool(false)) && !Blank(Bool(false))
    ensures !Truthy(Num(0)) && !Blank(Num(0))
  {
  }
}
