/** The backend's dynamically typed values: what a request may supply for a
    parameter and what `default` may hold, with Python's `str()` of each, and a
    stored parameter definition as `json.loads` gives it back. */
module Values {
  import opened Wrappers
  import opened Text

  /** A JSON scalar as Python sees it (`None`, `str`, `int`, `bool`). */
  datatype Value = NoneValue | Str(s: string) | Int(i: int) | Bool(b: bool)

  /** Python `str(v)`. */
  function ToStr(v: Value): string {
    match v
    case NoneValue => "None"
    case Str(s) => s
    case Int(i) => IntText(i)
    case Bool(b) => if b then "True" else "False"
  }

  /** A parameter definition as stored JSON: `required` and `default` are
      `None` when the key is absent from the object. */
  datatype ParamDef = ParamDef(
    name: string,
    description: string,
    kind: string,
    required: Option<bool>,
    default: Option<Value>)
}
