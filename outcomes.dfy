/** Result shapes shared by every module of the model.

    The JavaScript code reports outcomes in three ways, which the model keeps
    apart:
    - `[ null, value ]`  — success,                    modelled as `Ok(value)`;
    - `[ err ]`          — a returned error object,     modelled as `Err(error)`;
    - a thrown exception or a rejected promise,         modelled as `Throws(reason)`. */
module Outcomes {

  datatype Option<+T> = None | Some(value: T)

  /** The `{ code, message }` object built by `createError` in bin/util.js.
      The wrapped driver error is only logged by `createError`; it is not kept. */
  datatype Error = Error(code: int, message: string)

  datatype Answer<+T> = Ok(value: T) | Err(error: Error) | Throws(reason: string)
  {
    predicate IsFailure() {
      !Ok?
    }

    function PropagateFailure<U>(): (r: Answer<U>)
      requires !Ok?
      ensures r.Err? == Err? && r.Throws? == Throws?
    {
      if Err? then Err(error) else Throws(reason)
    }

    function Extract(): T
      requires Ok?
    {
      value
    }
  }

  /** Membership in a non-empty list: in its first part or its last. */
  lemma InSnoc<T>(s: seq<T>, x: T)
    requires s != []
    ensures x in s <==> x in s[..|s| - 1] || x == s[|s| - 1]
  {
    assert s == s[..|s| - 1] + [s[|s| - 1]];
  }
}
