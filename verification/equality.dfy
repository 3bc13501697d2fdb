/** `IsEqualTo` and `IsNotEqualTo`, each with an optional equality comparer. */
module EqualityChecks {
  import opened Wrappers
  import opened Exceptions
  import opened Guards

  /** `IEqualityComparer<T>.Equals`. It decides null-handling itself. */
  type EqualityComparer<!T> = (T, T) -> bool

  /** `comparer ?? EqualityComparer<T>.Default`: the given comparer, or the
      type's own equality when none is given. */
  function ResolveEquality<T(==)>(comparer: Option<EqualityComparer<T>>): EqualityComparer<T> {
    comparer.GetOr((a, b) => a == b)
  }

  function IsEqualToError(name: string, expected: string): GuardError {
    GuardError(InvalidArgument, name, name + " should be equal to '" + expected + "'.")
  }

  function IsNotEqualToError(name: string, expected: string): GuardError {
    GuardError(InvalidArgument, name, name + " should not be equal to '" + expected + "'.")
  }

  /** `IsEqualTo(x, comparer)`: fails exactly when the comparer says the value
      is not equal to `x`; `toString` renders `x` in the message. */
  function IsEqualTo<T(==)>(g: Guard<T>, x: T, comparer: Option<EqualityComparer<T>>, toString: T -> string)
    : (r: Result<Guard<T>, GuardError>)
    ensures comparer.None? ==> (r.Failure? <==> g.value != x)
    ensures comparer.Some? ==> (r.Failure? <==> !comparer.value(g.value, x))
    ensures r.Success? ==> r.value == g
    ensures r.Failure? ==> r.error == IsEqualToError(g.name, toString(x))
  {
    if !ResolveEquality(comparer)(g.value, x) then
      Failure(IsEqualToError(g.name, toString(x)))
    else
      Success(g)
  }

  /** `IsNotEqualTo(x, comparer)`: fails exactly when the comparer says the
      value is equal to `x`. */
  function IsNotEqualTo<T(==)>(g: Guard<T>, x: T, comparer: Option<EqualityComparer<T>>, toString: T -> string)
    : (r: Result<Guard<T>, GuardError>)
    ensures comparer.None? ==> (r.Failure? <==> g.value == x)
    ensures comparer.Some? ==> (r.Failure? <==> comparer.value(g.value, x))
    ensures r.Success? ==> r.value == g
    ensures r.Failure? ==> r.error == IsNotEqualToError(g.name, toString(x))
  {
    if ResolveEquality(comparer)(g.value, x) then
      Failure(IsNotEqualToError(g.name, toString(x)))
    else
      Success(g)
  }

  /** With the same comparer, exactly one of `IsEqualTo(x)` and
      `IsNotEqualTo(x)` passes, for every value and every comparer. */
  lemma ExactlyOneOfEqualAndNotEqual<T>(g: Guard<T>, x: T, comparer: Option<EqualityComparer<T>>, toString: T -> string)
    ensures IsEqualTo(g, x, comparer, toString).Success? != IsNotEqualTo(g, x, comparer, toString).Success?
  {
  }

  /** Passing no comparer behaves exactly as passing the type's own equality. */
  lemma NoComparerIsDefaultEquality<T>(g: Guard<T>, x: T, toString: T -> string)
    ensures IsEqualTo(g, x, None, toString) == IsEqualTo(g, x, Some((a: T, b: T) => a == b), toString)
    ensures IsNotEqualTo(g, x, None, toString) == IsNotEqualTo(g, x, Some((a: T, b: T) => a == b), toString)
  {
  }

  /** Under a reflexive comparer (the default one included) a value is equal
      to itself: `IsEqualTo(value)` passes and `IsNotEqualTo(value)` fails. */
  lemma ReflexiveComparerAcceptsOwnValue<T>(g: Guard<T>, comparer: Option<EqualityComparer<T>>, toString: T -> string)
    requires comparer.Some? ==> forall a :: comparer.value(a, a)
    ensures IsEqualTo(g, g.value, comparer, toString).Success?
    ensures IsNotEqualTo(g, g.value, comparer, toString).Failure?
  {
  }

  /** A null string against "z" with the default equality: `IsEqualTo` fails
      and `IsNotEqualTo` passes. */
  lemma NullAgainstZ(toString: Option<string> -> string)
    ensures IsEqualTo(Requires(None, "value"), Some("z"), None, toString)
         == Failure(GuardError(InvalidArgument, "value", "value should be equal to '" + toString(Some("z")) + "'."))
    ensures IsNotEqualTo(Requires(None, "value"), Some("z"), None, toString).Success?
  {
    assert "value" + " should be equal to '" == "value should be equal to '";
  }
}
