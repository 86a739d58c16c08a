/** Python values as the dashboard handles them, the exceptions its pandas and list calls
    raise, and the Result/Outcome wrappers the model uses in place of those exceptions. */
module Values {

  /** A Python value: a pandas cell or an argument of a request function. `NaN` is the
      missing value pandas writes where an index alignment finds no partner row. */
  datatype Value = None | NaN | Int(i: int) | Str(s: string)

  /** Python truthiness, as tested by `if v:`. */
  predicate Truthy(v: Value)
  {
    match v
    case None => false
    case NaN => true
    case Int(i) => i != 0
    case Str(s) => s != ""
  }

  /** The element-wise `==` of a pandas column against a scalar: a missing value equals nothing. */
  predicate PyEq(a: Value, b: Value)
  {
    !a.None? && !a.NaN? && !b.None? && !b.NaN? && a == b
  }

  /** The values `if v:` rejects are exactly `None`, `0` and the empty string; NaN passes. */
  lemma FalsyValues(v: Value)
    ensures !Truthy(v) <==> v == None || v == Int(0) || v == Str("")
    ensures Truthy(NaN)
  {
  }

  /** A missing value matches nothing, not even itself; present values match exactly when
      equal, in either order. */
  lemma MissingEqualsNothing(a: Value, b: Value)
    ensures (a.None? || a.NaN? || b.None? || b.NaN?) ==> !PyEq(a, b)
    ensures !a.None? && !a.NaN? ==> (PyEq(a, b) <==> a == b)
    ensures PyEq(a, b) <==> PyEq(b, a)
  {
  }

  /** The exceptions raised on the paths the model follows. */
  datatype Error =
    | KeyError(key: Value)                    // `df[name]` or `series[label]` with an absent label
    | MissingColumns(names: seq<string>)      // `df[[...]]` naming absent columns
    | NotInList(item: string)                 // ValueError from `list.remove`
    | AlreadyExists(column: string)           // ValueError from `DataFrame.insert`
    | LocOutOfBounds(loc: nat)                // IndexError from `DataFrame.insert`
    | NotNumeric                              // TypeError from `idxmax` over a non-numeric cell
    | LengthMismatch(axis: nat, given: nat)   // ValueError from assigning `DataFrame.columns`

  datatype Result<+T> = Success(value: T) | Failure(error: Error)
  {
    predicate IsFailure()
    {
      Failure?
    }

    function PropagateFailure<U>(): Result<U>
      requires Failure?
    {
      Failure(error)
    }

    function Extract(): T
      requires Success?
    {
      value
    }
  }

  /** The result of a statement that either completes or raises. */
  datatype Outcome = Pass | Fail(error: Error)
}
