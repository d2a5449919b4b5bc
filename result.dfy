/** The status convention of the bridge (include/cpplua.h:14-29): every fallible
    operation returns an error text, and an EMPTY text means success. */
module LuaResult {

  /** `Result<T>`: an error text next to a value. The value is meaningful only
      when the error text is empty. */
  datatype Result<T> = Result(error: string, value: T) {

    /** `failed()`: the error text is not empty. */
    predicate Failed() {
      error != []
    }

    /** `ok()`: the error text is empty, which is always the negation of `failed()`. */
    predicate Ok()
      ensures Ok() <==> !Failed()
    {
      error == []
    }
  }

  /** `Result<void>`: the same convention without a value. */
  datatype VoidResult = VoidResult(error: string) {

    predicate Failed() {
      error != []
    }

    predicate Ok()
      ensures Ok() <==> !Failed()
    {
      error == []
    }
  }

  /** A default-constructed `Result<void>`: its member initialiser `{}` leaves
      the error text empty, so the result reports success. */
  function DefaultVoid(): (r: VoidResult)
    ensures r.Ok() && !r.Failed()
  {
    VoidResult("")
  }

  /** `ok()` holds exactly when the error text is the empty string, for every
      value type. */
  lemma OkIffEmptyError<T>(r: Result<T>)
    ensures r.Ok() <==> r.error == ""
    ensures r.Failed() <==> r.error != ""
  {
  }

  /** An optional value, used for the first failing check of `load_script`. */
  datatype Option<T> = None | Some(value: T)
}
