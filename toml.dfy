/**
 * The already-parsed TOML document that `from_toml` inspects. The parser itself is a
 * foreign library; its outcome is given as a `Document`.
 */
module Toml {
  import opened Wrappers

  /** The value kinds of the TOML library's `Value`; floats and dates are kept as their text. */
  datatype Value =
    | String(str: string)
    | Integer(i: int)
    | Float(repr: string)
    | Boolean(b: bool)
    | Datetime(stamp: string)
    | Array(items: seq<Value>)
    | Table(entries: map<string, Value>)

  /** What `Parser::parse` gives: the top-level table, or the parser's errors rendered as text. */
  datatype Document = Parsed(root: map<string, Value>) | Invalid(errors: string)

  /** `table.get(key)` */
  function Get(t: map<string, Value>, key: string): Option<Value> {
    if key in t then Some(t[key]) else None
  }

  /** `slice.get(i)` */
  function At(items: seq<Value>, i: nat): Option<Value> {
    if i < |items| then Some(items[i]) else None
  }

  /** `v.as_str()` lifted over `and_then` */
  function AsStr(v: Option<Value>): Option<string> {
    if v.Some? && v.value.String? then Some(v.value.str) else None
  }

  /** `v.as_slice()` lifted over `and_then` */
  function AsSlice(v: Option<Value>): Option<seq<Value>> {
    if v.Some? && v.value.Array? then Some(v.value.items) else None
  }
}
