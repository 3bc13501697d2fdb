/** `IsNotNull` for reference types and for `Nullable<T>` structs. Both
    overloads test the same thing, the absence of a value, which `Option`
    models for either kind of type, so they share one definition. */
module NullChecks {
  import opened Wrappers
  import opened Exceptions
  import opened Guards

  /** The error both overloads throw. */
  function NullError(name: string): (e: GuardError)
    ensures e.kind == NullArgument && e.paramName == name
  {
    GuardError(NullArgument, name, name + " should not be null.")
  }

  /** `IsNotNull`: fails, with `ArgumentNullException`, exactly when the value is
      absent; otherwise returns the guard untouched. */
  function IsNotNull<T>(g: Guard<Option<T>>): (r: Result<Guard<Option<T>>, GuardError>)
    ensures r.Failure? <==> g.value == None
    ensures r.Success? ==> r.value == g
    ensures r.Failure? ==> r.error == NullError(g.name)
  {
    if g.value.None? then Failure(NullError(g.name)) else Success(g)
  }

  /** Presence alone decides: every present value passes, whatever it is
      (`123 as int?`, `new object()`, `0`, `false`, `""`), and the guard
      built by `Requires` comes back as it went in. */
  lemma PresentValuesPass<T>(v: T, name: string)
    ensures IsNotNull(Requires(Some(v), name)) == Success(Guard(name, Some(v)))
  {
  }

  /** A null argument is reported as `ArgumentNullException` naming the argument. */
  lemma NullIsReported<T>(name: string)
    ensures IsNotNull<T>(Requires(None, name))
         == Failure(GuardError(NullArgument, name, name + " should not be null."))
  {
  }

  /** `IsNotNull` is a check that returns the guard it was given, so it can
      stand in any chain `Guards.ChainObservesOriginalGuard` describes. */
  lemma IsNotNullReturnsGuardUnchanged<T(!new)>()
    ensures ReturnsGuardUnchanged((g: Guard<Option<T>>) => IsNotNull(g))
  {
  }
}
