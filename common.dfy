/** Small shared vocabulary: Python's `None`-or-value, and the attribute values a record holds. */
module Common {

  /** `Optional[T]`: a Python value that may be `None`. */
  datatype Option<+T> = None | Some(value: T) {
    predicate IsFailure() { None? }

    function PropagateFailure<U>(): Option<U>
      requires None?
    {
      None
    }

    function Extract(): T
      requires Some?
    {
      value
    }
  }

  /** A column or attribute value; `Null` is Python's `None`. */
  datatype Value = Null | Int(i: int) | Str(s: string) | Bool(b: bool)
}
