/** The earlier snapshot's carrier: `Guard<T>` with `Value` and
    `ParameterName`, built by `Guard.Requires(value, parameterName)`. Kept
    apart from the current `Guards` module: the two snapshots differ. */
module LegacyGuards {

  /** The private setters are assigned only by the constructor, so both
      fields are fixed once built, as a datatype's are. */
  datatype Guard<T> = Guard(value: T, parameterName: string)

  /** `Guard.Requires(value, parameterName)`: never fails; both arguments are
      mandatory and land in the fields of the same name. */
  function Requires<T>(value: T, parameterName: string): (g: Guard<T>)
    ensures g.value == value
    ensures g.parameterName == parameterName
  {
    Guard(value, parameterName)
  }

  /** Every legacy guard is the one `Requires` builds from its own fields,
      and `Requires` keeps both of its arguments. */
  lemma RequiresIsBijective<T>(g: Guard<T>, value: T, parameterName: string)
    ensures Requires(g.value, g.parameterName) == g
    ensures Requires(value, parameterName) == g <==> g.value == value && g.parameterName == parameterName
  {
  }
}

/** The earlier snapshot's checks: null, empty, white space and the two
    composites. Its white-space check throws `ArgumentNullException` with
    its own wording, unlike the current snapshot. */
module LegacyChecks {
  import opened Wrappers
  import opened Exceptions
  import opened LegacyGuards
  import opened Text

  type StringGuard = Guard<Option<string>>
  type StringResult = Result<StringGuard, GuardError>

  function NullError(parameterName: string): GuardError {
    GuardError(NullArgument, parameterName, parameterName + " should not be null.")
  }

  function EmptyError(parameterName: string): GuardError {
    GuardError(InvalidArgument, parameterName, parameterName + " should not be an empty string.")
  }

  function WhiteSpaceError(parameterName: string): GuardError {
    GuardError(NullArgument, parameterName, parameterName + " should contain some non-white-space characters.")
  }

  /** `IsNotNull` (reference types only): fails with `ArgumentNullException`
      exactly when the value is null. */
  function IsNotNull<T>(g: Guard<Option<T>>): (r: Result<Guard<Option<T>>, GuardError>)
    ensures r.Failure? <==> g.value == None
    ensures r.Success? ==> r.value == g
    ensures r.Failure? ==> r.error == NullError(g.parameterName)
  {
    if g.value.None? then Failure(NullError(g.parameterName)) else Success(g)
  }

  /** `IsNotEmpty`: fails with `ArgumentException` exactly on ""; null passes. */
  function IsNotEmpty(g: StringGuard): (r: StringResult)
    ensures r.Failure? <==> g.value == Some("")
    ensures r.Success? ==> r.value == g
    ensures r.Failure? ==> r.error == EmptyError(g.parameterName)
  {
    if g.value.Some? && |g.value.value| == 0 then Failure(EmptyError(g.parameterName)) else Success(g)
  }

  /** `IsNotWhiteSpace`: fails exactly when the value is non-null, non-empty
      and all white space, and then with `ArgumentNullException`. */
  method IsNotWhiteSpace(g: StringGuard) returns (r: StringResult)
    ensures r.Failure? <==> g.value.Some? && |g.value.value| > 0 && AllWhiteSpace(g.value.value)
    ensures r.Success? ==> r.value == g
    ensures r.Failure? ==> r.error == WhiteSpaceError(g.parameterName)
  {
    if g.value.Some? && |g.value.value| > 0 {
      var s := g.value.value;
      var whitespace := true;
      for i := 0 to |s|
        invariant whitespace <==> forall j :: 0 <= j < i ==> IsWhiteSpace(s[j])
      {
        if !IsWhiteSpace(s[i]) {
          whitespace := false;
          break;
        }
      }
      if whitespace {
        return Failure(WhiteSpaceError(g.parameterName));
      }
    }
    return Success(g);
  }

  /** `IsNotNullOrEmpty`: `IsNotNull` then `IsNotEmpty`. */
  function IsNotNullOrEmpty(g: StringGuard): (r: StringResult)
    ensures g.value == None ==> r == Failure(NullError(g.parameterName))
    ensures g.value == Some("") ==> r == Failure(EmptyError(g.parameterName))
    ensures r.Success? <==> g.value.Some? && |g.value.value| > 0
    ensures r.Success? ==> r.value == g
  {
    var g1 :- IsNotNull(g);
    IsNotEmpty(g1)
  }

  /** `IsNotNullOrEmptyOrWhiteSpace`: null, then empty, then white space; the
      first failing check is the one reported. */
  method IsNotNullOrEmptyOrWhiteSpace(g: StringGuard) returns (r: StringResult)
    ensures g.value == None ==> r == Failure(NullError(g.parameterName))
    ensures g.value == Some("") ==> r == Failure(EmptyError(g.parameterName))
    ensures g.value.Some? && |g.value.value| > 0 && AllWhiteSpace(g.value.value)
            ==> r == Failure(WhiteSpaceError(g.parameterName))
    ensures r.Success? <==> g.value.Some? && |g.value.value| > 0 && !AllWhiteSpace(g.value.value)
    ensures r.Success? ==> r.value == g
  {
    var g1 :- IsNotNull(g);
    var g2 :- IsNotEmpty(g1);
    r := IsNotWhiteSpace(g2);
  }
}

/** How the two snapshots relate: they agree on the null and empty checks
    and differ only in the white-space failure. */
module SnapshotAgreement {
  import opened Wrappers
  import opened Exceptions
  import Guards
  import LegacyGuards
  import NullChecks
  import StringChecks
  import LegacyChecks
  import Text

  /** The error a check produced, if any. */
  function ErrorOf<G>(r: Result<G, GuardError>): Option<GuardError> {
    if r.Failure? then Some(r.error) else None
  }

  /** For the same value and name, the two snapshots' `IsNotNull`,
      `IsNotEmpty` and `IsNotNullOrEmpty` pass and fail together and throw
      identical errors. */
  lemma NullAndEmptyChecksAgree(value: Option<string>, name: string)
    ensures ErrorOf(NullChecks.IsNotNull(Guards.Requires(value, name)))
         == ErrorOf(LegacyChecks.IsNotNull(LegacyGuards.Requires(value, name)))
    ensures ErrorOf(StringChecks.IsNotEmpty(Guards.Requires(value, name)))
         == ErrorOf(LegacyChecks.IsNotEmpty(LegacyGuards.Requires(value, name)))
    ensures ErrorOf(StringChecks.IsNotNullOrEmpty(Guards.Requires(value, name)))
         == ErrorOf(LegacyChecks.IsNotNullOrEmpty(LegacyGuards.Requires(value, name)))
  {
  }

  /** The two white-space error values differ in class and wording: the
      current snapshot throws `ArgumentException`, the earlier one
      `ArgumentNullException`. `WhiteSpaceChecksDisagreeOnKind` states the
      same difference on the failures of the two checks themselves. */
  lemma WhiteSpaceErrorsDiffer(name: string)
    ensures StringChecks.WhiteSpaceError(name).kind == InvalidArgument
    ensures LegacyChecks.WhiteSpaceError(name).kind == NullArgument
    ensures StringChecks.WhiteSpaceError(name).message != LegacyChecks.WhiteSpaceError(name).message
  {
  }

  /** Both snapshots' `IsNotWhiteSpace` reject the same all-white-space value,
      under the same parameter name, but with different exception classes
      and different messages. */
  method WhiteSpaceChecksDisagreeOnKind(s: string, name: string)
    returns (current: StringChecks.StringResult, legacy: LegacyChecks.StringResult)
    requires |s| > 0 && Text.AllWhiteSpace(s)
    ensures current.Failure? && legacy.Failure?
    ensures current.error.paramName == legacy.error.paramName == name
    ensures current.error.kind == InvalidArgument && legacy.error.kind == NullArgument
    ensures current.error.message != legacy.error.message
  {
    current := StringChecks.IsNotWhiteSpace(Guards.Requires(Some(s), name));
    legacy := LegacyChecks.IsNotWhiteSpace(LegacyGuards.Requires(Some(s), name));
  }
}
