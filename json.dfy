/**
 * A device response as json_decode leaves it: a tree of PHP values in which the
 * checker looks fields up by name. How json_decode parses the body is not part
 * of the model; a response is given as this tree.
 */
module Json {
  import opened Text

  /**
   * A decoded JSON value. Objects are sparse maps from field name to value;
   * numbers are integers. A string carries, beside its text, the integer that
   * PHP's intval reads from it (how intval parses the text is not modelled).
   */
  datatype Value =
    | Null
    | Bool(b: bool)
    | Num(n: int)
    | Str(text: string, asInt: int)
    | Arr(items: seq<Value>)
    | Obj(fields: map<string, Value>)

  /** The properties of an object; any other value has none. */
  function Fields(v: Value): map<string, Value> {
    if v.Obj? then v.fields else map[]
  }

  /** `$v->name`: a missing property, or a property of a non-object, reads as null. */
  function Field(v: Value, name: string): Value {
    if name in Fields(v) then Fields(v)[name] else Null
  }

  /** `isset($v->name)`: the property exists and is not null. */
  predicate IsSet(v: Value, name: string) {
    Field(v, name) != Null
  }

  /** What `foreach` visits: the elements of an array; anything else gives no iterations. */
  function Items(v: Value): seq<Value> {
    if v.Arr? then v.items else []
  }

  /**
   * PHP's conversion to string, as `.` applies it: null and false give "",
   * true gives "1", an array gives "Array". Converting an object raises an
   * Error in PHP; the model gives "" there.
   */
  function ToText(v: Value): string {
    match v
    case Null => ""
    case Bool(b) => if b then "1" else ""
    case Num(n) => IntToText(n)
    case Str(t, _) => t
    case Arr(_) => "Array"
    case Obj(_) => ""
  }

  /** PHP's intval. */
  function IntVal(v: Value): int {
    match v
    case Null => 0
    case Bool(b) => if b then 1 else 0
    case Num(n) => n
    case Str(_, i) => i
    case Arr(xs) => if xs == [] then 0 else 1
    case Obj(_) => 1
  }

  /**
   * PHP 8's loose comparison `lit == v` for the non-empty, non-numeric literals
   * the checker compares with ("OK", "Healthy", "N/A", "true", ...): a string
   * must match exactly, true matches every such literal, nothing else does.
   */
  predicate LooseEquals(v: Value, lit: string) {
    (v.Str? && v.text == lit) || v == Bool(true)
  }
}
