/** Small value types shared by the scene and the grasp modules. */
module Wrappers {

  datatype Option<+T> = None | Some(value: T)

  /** A `double` received from outside: the non-finite values are kept apart. */
  datatype Double = Finite(r: real) | PosInf | NegInf | NaN
  {
    /** `d > 0.0`, which plus infinity satisfies and not-a-number does not. */
    predicate Positive() {
      (Finite? && r > 0.0) || PosInf?
    }

    /** `std::isfinite(d) && d > 0.0` */
    predicate FinitePositive() {
      Finite? && r > 0.0
    }
  }
}
