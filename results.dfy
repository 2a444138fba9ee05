/** Value types shared by the whole harness: an optional value standing for a
    Java reference that may be null, and the outcome of one assertion. */
module Results {

  /** A Java reference that may be null: None is null. */
  datatype Option<+T> = None | Some(value: T) {
    function GetOr(default: T): T {
      match this
      case Some(v) => v
      case None => default
    }
  }

  /** Java's `a != null ? a.equals(b) : b == null` for values whose `equals`
      is value equality (Integer, String). */
  predicate NullSafeEquals<T(==)>(a: Option<T>, b: Option<T>) {
    match a
    case Some(x) => b.Some? && x == b.value
    case None => b.None?
  }

  lemma NullSafeEqualsIsEquality<T>(a: Option<T>, b: Option<T>)
    ensures NullSafeEquals(a, b) <==> a == b
  {
  }

  /** The outcome of one assertion of the harness. In the source a failing
      assertion logs the expected and actual values and then throws; here the
      failure is a value carrying what was expected and what was seen. */
  datatype Check = Pass | Fail(expected: string, actual: string) {

    /** Run `next` only if this check passed: the source's statement sequence
        `a(); b();` where `a` throws on failure. */
    function Then(next: Check): (c: Check)
      ensures c.Pass? <==> Pass? && next.Pass?
      ensures Fail? ==> c == this
    {
      if Fail? then this else next
    }
  }

  /** A check that passes exactly when `condition` holds. */
  function Require(condition: bool, expected: string, actual: string): (c: Check)
    ensures c.Pass? <==> condition
    ensures c.Fail? ==> c.expected == expected && c.actual == actual
  {
    if condition then Pass else Fail(expected, actual)
  }
}
