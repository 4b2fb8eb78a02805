/** The adapter object itself. Its only state of interest is the advisory
    in-transaction flag: the backend has no transaction control, so
    `transaction` only raises the flag around the body and lowers it again,
    whether the body returns or throws. */
module Adapter {

  /** How the body of a transaction ends: it returns a value or throws. */
  datatype Outcome<T, E> = Returned(value: T) | Threw(error: E)

  class SupabaseAdapter {
    /** `_inTransaction`, read through the `inTransaction` getter. */
    var inTransaction: bool

    /** A fresh adapter is not in a transaction. */
    constructor()
      ensures !inTransaction
    {
      inTransaction := false;
    }

    /** `transaction(fn)`: the body runs once, seeing the flag raised; its
        value is returned or its error re-thrown unchanged, and the flag is
        lowered on both paths. The body is given the flag it observes. */
    method Transaction<T, E>(body: bool -> Outcome<T, E>) returns (r: Outcome<T, E>)
      modifies this
      ensures r == body(true)
      ensures !inTransaction
    {
      inTransaction := true;
      var outcome := body(inTransaction);
      match outcome
      case Returned(v) =>
        inTransaction := false;
        r := Returned(v);
      case Threw(e) =>
        inTransaction := false;
        r := Threw(e);
    }
  }
}
