/** The string checks of the current snapshot. A C# `string` may be null, so a
    string guard holds an `Option<string>`. */
module StringChecks {
  import opened Wrappers
  import opened Exceptions
  import opened Guards
  import opened Text
  import NullChecks

  type StringGuard = Guard<Option<string>>
  type StringResult = Result<StringGuard, GuardError>

  function EmptyError(name: string): GuardError {
    GuardError(InvalidArgument, name, name + " should not be an empty string.")
  }

  function WhiteSpaceError(name: string): GuardError {
    GuardError(InvalidArgument, name, name + " should not consist only of white-space characters.")
  }

  /** `IsNotEmpty`: fails exactly on the zero-length string. Null is not
      empty here: it passes, since nullness is a separate check. */
  function IsNotEmpty(g: StringGuard): (r: StringResult)
    ensures r.Failure? <==> g.value == Some("")
    ensures r.Success? ==> r.value == g
    ensures r.Failure? ==> r.error == EmptyError(g.name)
  {
    if g.value.Some? && |g.value.value| == 0 then Failure(EmptyError(g.name)) else Success(g)
  }

  /** `IsNotWhiteSpace`: scans the string and fails exactly when it is
      non-null, non-empty and made only of white space. */
  method IsNotWhiteSpace(g: StringGuard) returns (r: StringResult)
    ensures r.Failure? <==> g.value.Some? && |g.value.value| > 0 && AllWhiteSpace(g.value.value)
    ensures r.Success? ==> r.value == g
    ensures r.Failure? ==> r.error == WhiteSpaceError(g.name)
  {
    if g.value.Some? && |g.value.value| > 0 {
      var s := g.value.value;
      var whitespace := true;
      for i := 0 to |s|
        invariant whitespace <==> forall j :: 0 <= j < i ==> IsWhiteSpace(s[j])
      {
        if !IsWhiteSpace(s[i]) {
          whitespace := false;
          break;
        }
      }
      if whitespace {
        return Failure(WhiteSpaceError(g.name));
      }
    }
    return Success(g);
  }

  /** `IsNotNullOrEmpty` is `IsNotNull` then `IsNotEmpty`: null is reported as
      `ArgumentNullException`, never as the empty-string error. */
  function IsNotNullOrEmpty(g: StringGuard): (r: StringResult)
    ensures g.value == None ==> r == Failure(NullChecks.NullError(g.name))
    ensures g.value == Some("") ==> r == Failure(EmptyError(g.name))
    ensures r.Success? <==> g.value.Some? && |g.value.value| > 0
    ensures r.Success? ==> r.value == g
  {
    var g1 :- NullChecks.IsNotNull(g);
    IsNotEmpty(g1)
  }

  /** `IsNotNullOrEmptyOrWhiteSpace` is `IsNotNull`, then `IsNotEmpty`, then
      `IsNotWhiteSpace`: the first failing check is the one reported, so ""
      gets the empty-string error and not the white-space one. */
  method IsNotNullOrEmptyOrWhiteSpace(g: StringGuard) returns (r: StringResult)
    ensures g.value == None ==> r == Failure(NullChecks.NullError(g.name))
    ensures g.value == Some("") ==> r == Failure(EmptyError(g.name))
    ensures g.value.Some? && |g.value.value| > 0 && AllWhiteSpace(g.value.value)
            ==> r == Failure(WhiteSpaceError(g.name))
    ensures r.Success? <==> g.value.Some? && |g.value.value| > 0 && !AllWhiteSpace(g.value.value)
    ensures r.Success? ==> r.value == g
  {
    var g1 :- NullChecks.IsNotNull(g);
    var g2 :- IsNotEmpty(g1);
    r := IsNotWhiteSpace(g2);
  }

  function StartsWithError(name: string, sub: string): GuardError {
    GuardError(InvalidArgument, name, name + " should start with '" + sub + "'.")
  }

  function EndsWithError(name: string, sub: string): GuardError {
    GuardError(InvalidArgument, name, name + " should end with '" + sub + "'.")
  }

  function ContainsError(name: string, sub: string): GuardError {
    GuardError(InvalidArgument, name, name + " should contain '" + sub + "'.")
  }

  /** `StartsWith(sub, mode)`: passes exactly when the value is non-null and its
      first |sub| characters equal `sub` under `mode`; a null value always fails. */
  function StartsWith(g: StringGuard, sub: string, mode: StringComparison): (r: StringResult)
    ensures r.Success? <==> (g.value.Some? && |sub| <= |g.value.value|
                             && forall j :: 0 <= j < |sub| ==> CharEquals(mode, g.value.value[j], sub[j]))
    ensures r.Success? ==> r.value == g
    ensures r.Failure? ==> r.error == StartsWithError(g.name, sub)
  {
    if g.value.None? || !Text.StartsWith(g.value.value, sub, mode) then
      Failure(StartsWithError(g.name, sub))
    else
      Success(g)
  }

  /** `EndsWith(sub, mode)`: passes exactly when the value is non-null and its
      last |sub| characters equal `sub` under `mode`; a null value always fails. */
  function EndsWith(g: StringGuard, sub: string, mode: StringComparison): (r: StringResult)
    ensures r.Success? <==> (g.value.Some? && |sub| <= |g.value.value|
                             && forall j :: 0 <= j < |sub| ==>
                                  CharEquals(mode, g.value.value[|g.value.value| - |sub| + j], sub[j]))
    ensures r.Success? ==> r.value == g
    ensures r.Failure? ==> r.error == EndsWithError(g.name, sub)
  {
    if g.value.None? || !Text.EndsWith(g.value.value, sub, mode) then
      Failure(EndsWithError(g.name, sub))
    else
      Success(g)
  }

  /** `Contains(sub, mode)`: fails when the value is null or `IndexOf` is
      negative, which is exactly when `sub` occurs nowhere in the value. */
  function Contains(g: StringGuard, sub: string, mode: StringComparison): (r: StringResult)
    ensures r.Success? <==> g.value.Some? && Occurs(g.value.value, sub, mode)
    ensures r.Success? ==> r.value == g
    ensures r.Failure? ==> r.error == ContainsError(g.name, sub)
  {
    if g.value.None? || IndexOf(g.value.value, sub, mode) < 0 then
      Failure(ContainsError(g.name, sub))
    else
      Success(g)
  }

  /** A null string fails all three matching checks, with `ArgumentException`. */
  lemma NullFailsMatching(name: string, sub: string, mode: StringComparison)
    ensures StartsWith(Requires(None, name), sub, mode).Failure?
    ensures EndsWith(Requires(None, name), sub, mode).Failure?
    ensures Contains(Requires(None, name), sub, mode).Failure?
  {
  }

  /** A value that starts or ends with `sub` also contains it. */
  lemma MatchImpliesContains(g: StringGuard, sub: string, mode: StringComparison)
    ensures StartsWith(g, sub, mode).Success? ==> Contains(g, sub, mode).Success?
    ensures EndsWith(g, sub, mode).Success? ==> Contains(g, sub, mode).Success?
  {
  }

  /** Ignoring case can only turn a failure into a pass, never the reverse. */
  lemma IgnoreCaseIsWeaker(g: StringGuard, sub: string)
    ensures StartsWith(g, sub, Ordinal).Success? ==> StartsWith(g, sub, OrdinalIgnoreCase).Success?
    ensures EndsWith(g, sub, Ordinal).Success? ==> EndsWith(g, sub, OrdinalIgnoreCase).Success?
    ensures Contains(g, sub, Ordinal).Success? ==> Contains(g, sub, OrdinalIgnoreCase).Success?
  {
    if Contains(g, sub, Ordinal).Success? {
      var k: nat :| MatchesAt(g.value.value, sub, k, Ordinal);
      OrdinalMatchIgnoresCase(g.value.value, sub, k);
    }
  }

  /** "example string" starts with "example" but not with "xxx" under
      `Ordinal`, and with "EXAMPLE" under `OrdinalIgnoreCase`. */
  lemma StartsWithExamples()
    ensures StartsWith(Requires(Some("example string"), "value"), "example", Ordinal).Success?
    ensures StartsWith(Requires(Some("example string"), "value"), "xxx", Ordinal)
         == Failure(GuardError(InvalidArgument, "value", "value should start with 'xxx'."))
    ensures StartsWith(Requires(Some("example string"), "value"), "EXAMPLE", OrdinalIgnoreCase).Success?
  {
    assert !CharEquals(Ordinal, "example string"[0], "xxx"[0]);
    assert "value" + " should start with '" + "xxx" + "'." == "value should start with 'xxx'.";
  }
}
