/** The few PHP value semantics the plugin's logic depends on. */
module Php {

  /** A value that may be null, or an index/key that may be absent. */
  datatype Option<+T> = None | Some(value: T) {

    /** The value, or `default` when absent (PHP's `isset($x) ? $x : default`). */
    function GetOr(default: T): T {
      match this
      case Some(v) => v
      case None => default
    }
  }

  /** PHP truthiness of a string: `if ($s)` and `!empty($s)` reject exactly "" and "0". */
  predicate Truthy(s: string) {
    s != "" && s != "0"
  }

  /** `!empty($a[$k])` for a string entry that may be absent. */
  predicate TruthyOpt(o: Option<string>) {
    o.Some? && Truthy(o.value)
  }

  /** A scalar widget setting as PHP stores it: null (absent), an integer or a string. */
  datatype Scalar = Null | Int(i: int) | Str(s: string)

  /** PHP truthiness of a scalar. */
  predicate TruthyScalar(v: Scalar) {
    match v
    case Null => false
    case Int(i) => i != 0
    case Str(s) => Truthy(s)
  }
}
