/** Values held in records and in query conditions, and the rule that
    compares one field value against one condition value. */
module Values {

  /** A Python value as it appears in a record field or a condition.
      `Coll` stands for a list or a tuple, the iterables other than a
      string, bytes or a dict that the matching rule scans; `Dict` is a
      mapping with string keys. */
  datatype Value =
    | None
    | Bool(b: bool)
    | Int(i: int)
    | Str(s: string)
    | Bytes(bytes: seq<bv8>)
    | Dict(entries: map<string, Value>)
    | Coll(items: seq<Value>)

  /** A record: field name to value, with no fixed schema. */
  type Record = map<string, Value>

  /** `r.get(k)`: the field's value, or `None` when the record lacks it. */
  function Field(r: Record, k: string): Value {
    if k in r then r[k] else None
  }

  /** The type test of the matching rule: an iterable that is neither a
      string, nor bytes, nor a dict. */
  predicate IsCollection(v: Value) {
    v.Coll?
  }

  /** Python's `val in items` on a list: a left-to-right scan comparing
      each element with `==`. It finds `val` exactly when `val` is an
      element of `items`. */
  function Contains(items: seq<Value>, val: Value): (b: bool)
    ensures b <==> val in items
  {
    if items == [] then false
    else
      assert items == [items[0]] + items[1..];
      items[0] == val || Contains(items[1..], val)
  }

  /** The matching rule: membership when the condition is a collection,
      equality (strings, bytes and dicts included) otherwise. */
  function Match(val: Value, cond: Value): (b: bool)
    ensures IsCollection(cond) ==> (b <==> val in cond.items)
    ensures !IsCollection(cond) ==> (b <==> val == cond)
  {
    if IsCollection(cond) then Contains(cond.items, val)
    else
      val == cond
  }

  /** A field the record lacks reads as `None`: it matches the condition
      `None` and any collection holding `None`, and nothing else. */
  lemma MissingFieldMatch(r: Record, k: string, cond: Value)
    requires k !in r
    ensures Match(Field(r, k), cond) <==> cond == None || (cond.Coll? && None in cond.items)
  {
  }
}
