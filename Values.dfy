/** The dynamic values that cross the Python boundaries modelled here:
    configuration blobs, request keyword arguments and JSON payloads. */
module Values {
  import Strings

  datatype Value =
    | Null
    | Bool(b: bool)
    | Int(i: int)
    | Num(r: real)
    | Str(s: string)
    | List(items: seq<Value>)
    | Object(fields: map<string, Value>)

  /** Python truthiness: `None`, `False`, zero, and empty strings, lists and
      dicts are false. */
  predicate Truthy(v: Value)
  {
    match v
    case Null => false
    case Bool(b) => b
    case Int(i) => i != 0
    case Num(r) => r != 0.0
    case Str(s) => s != ""
    case List(xs) => xs != []
    case Object(m) => m != map[]
  }

  /** A string list as a value. */
  function Strs(xs: seq<string>): (v: Value)
    ensures v.List? && |v.items| == |xs|
    ensures forall i :: 0 <= i < |xs| ==> v.items[i] == Str(xs[i])
  {
    List(seq(|xs|, i requires 0 <= i < |xs| => Str(xs[i])))
  }

  /** `str(n)` for any integer. */
  function IntToString(i: int): (s: string)
    ensures |s| >= 1
    ensures i >= 0 ==> s == Strings.NatToString(i)
    ensures i < 0 ==> s[0] == '-'
  {
    if i >= 0 then Strings.NatToString(i) else "-" + Strings.NatToString(-i)
  }

  /** How `str()` and f-strings render a value: strings as themselves,
      `None`, booleans and integers as Python prints them; floats, lists
      and dicts through `render`. */
  function Display(v: Value, render: Value -> string): string
  {
    match v
    case Str(s) => s
    case Null => "None"
    case Bool(b) => if b then "True" else "False"
    case Int(i) => IntToString(i)
    case _ => render(v)
  }
}
