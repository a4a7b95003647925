/** The Python values the core passes around in dictionaries: rows read from the database
    (`dict(row)`), the customer context built from them, and store rows. A record is a
    dict kept in insertion order. */
module Records {
  import opened Wrappers
  import opened Text

  /** A value held in a record: text, an integer, a float, `None`, or a list of rows (the
      customer's recent orders and active coupons). */
  datatype Value =
    | Str(s: string)
    | Int(i: int)
    | Float(x: real)
    | Null
    | Rows(rows: seq<Record>)

  datatype Field = Field(name: string, value: Value)

  /** A `dict` with string keys, fields in insertion order. */
  type Record = seq<Field>

  /** An exception the core can raise, with the text `str(e)` gives for it. */
  datatype PyError =
    | KeyError(key: string)
    | TypeError(detail: string)
    | ImportError(detail: string)
    | Raised(detail: string)

  /** `str(e)`: a `KeyError` shows its key in quotes. */
  function ErrorText(e: PyError): string
  {
    match e
    case KeyError(k) => "'" + k + "'"
    case TypeError(d) => d
    case ImportError(d) => d
    case Raised(d) => d
  }

  function Names(r: Record): (ns: seq<string>)
    ensures |ns| == |r| && forall i :: 0 <= i < |r| ==> ns[i] == r[i].name
  {
    if r == [] then [] else [r[0].name] + Names(r[1..])
  }

  /** `d[k]` when `k in d`, None otherwise. */
  function FieldOf(r: Record, k: string): (v: Option<Value>)
    ensures v.None? <==> k !in Names(r)
  {
    if r == [] then None
    else if r[0].name == k then Some(r[0].value)
    else FieldOf(r[1..], k)
  }

  /** `d.get(k, default)`. */
  function GetOr(r: Record, k: string, default: Value): Value
  {
    match FieldOf(r, k)
    case Some(v) => v
    case None => default
  }

  /** `d[k] = v`: an existing key keeps its place and takes the new value, a new key goes last. */
  function SetField(r: Record, k: string, v: Value): (r': Record)
    ensures Names(r') == if k in Names(r) then Names(r) else Names(r) + [k]
    ensures FieldOf(r', k) == Some(v)
    ensures forall k' :: k' != k ==> FieldOf(r', k') == FieldOf(r, k')
  {
    if r == [] then [Field(k, v)]
    else if r[0].name == k then [Field(k, v)] + r[1..]
    else [r[0]] + SetField(r[1..], k, v)
  }

  /** Python truthiness: empty text, zero, `None` and the empty list are false. */
  predicate Truthy(v: Value)
  {
    match v
    case Str(s) => s != []
    case Int(i) => i != 0
    case Float(x) => x != 0.0
    case Null => false
    case Rows(rows) => rows != []
  }

  /** `str(n)` for an integer, with a leading `-` when it is negative. */
  function IntToString(i: int): (r: string)
    ensures i >= 0 ==> r == NatToString(i)
    ensures i < 0 ==> r == "-" + NatToString(-i)
  {
    if i < 0 then "-" + NatToString(-i) else NatToString(i)
  }

  /** `str(v)` (and an f-string's `{v}`). Floats and lists of rows are rendered by `other`,
      since Python's shortest round-trip float repr is not part of this model. */
  function ToText(v: Value, other: Value -> string): string
  {
    match v
    case Str(s) => s
    case Int(i) => IntToString(i)
    case Null => "None"
    case Float(_) => other(v)
    case Rows(_) => other(v)
  }
}
