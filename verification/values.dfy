/** The dynamic values of the language: the closed set of runtime types that the
    interpreter's `Object` results can hold (null, Boolean, Double, String). */
module Values {

  /** `Num` carries a mathematical real: IEEE-754 rounding, NaN and signed zero are not modelled. */
  datatype Value =
    | Nil
    | Bool(b: bool)
    | Num(n: real)
    | Str(s: string)
}
