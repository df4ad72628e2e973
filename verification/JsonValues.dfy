/** JSON values as the release checker and the configuration loader see them after parsing. */
module JsonValues {
  import opened Wrappers

  /** A number is an integer, or anything else known only by its printed form. */
  datatype Json =
    | Null
    | Bool(b: bool)
    | Int(n: int)
    | Fraction(printed: string)
    | Str(s: string)
    | Arr(items: seq<Json>)
    | Obj(fields: map<string, Json>)

  const MAX_SAFE_INTEGER := 9007199254740991

  predicate IsSafeInteger(n: int) { -MAX_SAFE_INTEGER <= n <= MAX_SAFE_INTEGER }

  function Field(v: Json, name: string): Option<Json>
  {
    if v.Obj? && name in v.fields then Some(v.fields[name]) else None
  }

  function StringField(v: Json, name: string): Option<string>
  {
    match Field(v, name)
    case Some(Str(s)) => Some(s)
    case _ => None
  }

  function BoolField(v: Json, name: string): Option<bool>
  {
    match Field(v, name)
    case Some(Bool(b)) => Some(b)
    case _ => None
  }

  function ArrayField(v: Json, name: string): Option<seq<Json>>
  {
    match Field(v, name)
    case Some(Arr(items)) => Some(items)
    case _ => None
  }

  /** An integer of at least `low` that JavaScript represents exactly. */
  function SafeIntegerField(v: Json, name: string, low: int): Option<int>
  {
    match Field(v, name)
    case Some(Int(n)) => if IsSafeInteger(n) && n >= low then Some(n) else None
    case _ => None
  }
}
