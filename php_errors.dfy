/** What a call into the PHP SDK throws instead of returning. */
module PhpErrors {
  import opened Json
  import Numbers

  datatype Thrown =
    | InvalidArgumentException(message: string)
    | RuntimeException(message: string)
    /** A value that cannot be assigned to a typed property or parameter. */
    | TypeError
    /** `Error: Call to undefined method Class::name()`. */
    | UndefinedMethod(name: string)

  /** PHP's conversion of a value to text inside a double-quoted string:
      arrays read as `Array`, null and `false` as the empty string. */
  function Interpolate(v: Json): (s: string)
    ensures v.JString? ==> s == v.s
    ensures v.JArray? || v.JObject? ==> s == "Array"
  {
    match v
    case JString(t) => t
    case JInt(i) => Numbers.IntToDecimal(i)
    case JBool(b) => if b then "1" else ""
    case JNull => ""
    case _ => "Array"
  }
}
