/**
 * The parsed TOML tree that the build-time configuration is read from.
 * Parsing itself is done by a foreign library and is not part of this model.
 */
module Toml {
  import opened Wrappers

  /**
   * A TOML value. Floats and datetimes are kept as bare tags: the
   * configuration reader only ever asks what kind of value it holds.
   */
  datatype Value =
    | Str(s: string)
    | Int(i: int)
    | Float
    | Bool(b: bool)
    | Datetime
    | Arr(items: seq<Value>)
    | Table(fields: map<string, Value>)

  /** `Value::get` with a string key: looks the key up in a table; no other value has keys. */
  function Get(v: Value, key: string): Option<Value>
  {
    if v.Table? && key in v.fields then Some(v.fields[key]) else None
  }

  /** The elements of the array stored under `key`, if `v` is a table holding an array there. */
  function ArrayAt(v: Value, key: string): Option<seq<Value>>
  {
    match Get(v, key)
    case Some(Arr(items)) => Some(items)
    case _ => None
  }

  /** An array of strings, as a configuration author writes `["a", "b"]`. */
  function StrArray(xs: seq<string>): (r: Value)
    ensures r.Arr? && |r.items| == |xs|
    ensures forall i :: 0 <= i < |xs| ==> r.items[i] == Str(xs[i])
  {
    Arr(seq(|xs|, i requires 0 <= i < |xs| => Str(xs[i])))
  }

  /** A table with the single entry `key = v`. */
  function Single(key: string, v: Value): (r: Value)
    ensures Get(r, key) == Some(v)
  {
    Table(map[key := v])
  }
}
