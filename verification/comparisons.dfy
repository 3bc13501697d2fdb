/** The ordering checks of the current snapshot. The plain overloads (on a
    reference type, where the value may be null) and the `T?` overloads (on a
    `Nullable<T>` struct) test the same condition, so each pair shares one
    definition over `Option<T>`; a plain value-type argument is `Some(v)`. */
module ComparisonChecks {
  import opened Wrappers
  import opened Exceptions
  import opened Guards

  /** `IComparer<T>.Compare`: negative, zero or positive. */
  type Comparer<!T> = (T, T) -> int

  /** What the constraint `T : IComparable<T>` and `Object.ToString` give the
      checks: the type's own `CompareTo` (what `Comparer<T>.Default` calls)
      and the rendering of the bound in messages. */
  datatype Comparable<!T> = Comparable(compareTo: Comparer<T>, toString: T -> string)

  /** `comparer ?? Comparer<T>.Default`. */
  function Effective<T>(comparer: Option<Comparer<T>>, t: Comparable<T>): Comparer<T> {
    comparer.GetOr(t.compareTo)
  }

  /** The `ArgumentOutOfRangeException` every ordering check throws. */
  function RangeError(name: string, relation: string, bound: string): (e: GuardError)
    ensures e.kind == OutOfRange && e.paramName == name
  {
    GuardError(OutOfRange, name, name + " should be " + relation + " " + bound + ".")
  }

  type OptionalGuard<T> = Guard<Option<T>>
  type OptionalResult<T> = Result<Guard<Option<T>>, GuardError>

  /** `IsGreaterThan(x)`: fails when the value is absent or compares `<= 0` to `x`. */
  function IsGreaterThan<T>(g: OptionalGuard<T>, x: T, comparer: Option<Comparer<T>>, t: Comparable<T>)
    : (r: OptionalResult<T>)
    ensures r.Success? <==> g.value.Some? && Effective(comparer, t)(g.value.value, x) > 0
    ensures r.Success? ==> r.value == g
    ensures r.Failure? ==> r.error == RangeError(g.name, "greater than", t.toString(x))
  {
    if g.value.None? || Effective(comparer, t)(g.value.value, x) <= 0 then
      Failure(RangeError(g.name, "greater than", t.toString(x)))
    else
      Success(g)
  }

  /** `IsNullOrGreaterThan(x)`: an absent value passes; a present one fails
      when it compares `<= 0` to `x`. */
  function IsNullOrGreaterThan<T>(g: OptionalGuard<T>, x: T, comparer: Option<Comparer<T>>, t: Comparable<T>)
    : (r: OptionalResult<T>)
    ensures r.Success? <==> g.value.None? || Effective(comparer, t)(g.value.value, x) > 0
    ensures r.Success? ==> r.value == g
    ensures r.Failure? ==> r.error == RangeError(g.name, "either null or greater than", t.toString(x))
  {
    if g.value.Some? && Effective(comparer, t)(g.value.value, x) <= 0 then
      Failure(RangeError(g.name, "either null or greater than", t.toString(x)))
    else
      Success(g)
  }

  /** `IsGreaterThanOrEqualTo(x)`: fails when the value is absent or compares `< 0` to `x`. */
  function IsGreaterThanOrEqualTo<T>(g: OptionalGuard<T>, x: T, comparer: Option<Comparer<T>>, t: Comparable<T>)
    : (r: OptionalResult<T>)
    ensures r.Success? <==> g.value.Some? && Effective(comparer, t)(g.value.value, x) >= 0
    ensures r.Success? ==> r.value == g
    ensures r.Failure? ==> r.error == RangeError(g.name, "greater than or equal to", t.toString(x))
  {
    if g.value.None? || Effective(comparer, t)(g.value.value, x) < 0 then
      Failure(RangeError(g.name, "greater than or equal to", t.toString(x)))
    else
      Success(g)
  }

  /** `IsNullOrGreaterThanOrEqualTo(x)`: an absent value passes; a present one
      fails when it compares `< 0` to `x`. */
  function IsNullOrGreaterThanOrEqualTo<T>(g: OptionalGuard<T>, x: T, comparer: Option<Comparer<T>>, t: Comparable<T>)
    : (r: OptionalResult<T>)
    ensures r.Success? <==> g.value.None? || Effective(comparer, t)(g.value.value, x) >= 0
    ensures r.Success? ==> r.value == g
    ensures r.Failure? ==> r.error == RangeError(g.name, "either null or greater than or equal to", t.toString(x))
  {
    if g.value.Some? && Effective(comparer, t)(g.value.value, x) < 0 then
      Failure(RangeError(g.name, "either null or greater than or equal to", t.toString(x)))
    else
      Success(g)
  }

  /** `IsLessThan(x)`: fails when the value is absent or compares `>= 0` to `x`. */
  function IsLessThan<T>(g: OptionalGuard<T>, x: T, comparer: Option<Comparer<T>>, t: Comparable<T>)
    : (r: OptionalResult<T>)
    ensures r.Success? <==> g.value.Some? && Effective(comparer, t)(g.value.value, x) < 0
    ensures r.Success? ==> r.value == g
    ensures r.Failure? ==> r.error == RangeError(g.name, "less than", t.toString(x))
  {
    if g.value.None? || Effective(comparer, t)(g.value.value, x) >= 0 then
      Failure(RangeError(g.name, "less than", t.toString(x)))
    else
      Success(g)
  }

  /** `IsNullOrLessThan(x)`: an absent value passes; a present one fails when
      it compares `>= 0` to `x`. */
  function IsNullOrLessThan<T>(g: OptionalGuard<T>, x: T, comparer: Option<Comparer<T>>, t: Comparable<T>)
    : (r: OptionalResult<T>)
    ensures r.Success? <==> g.value.None? || Effective(comparer, t)(g.value.value, x) < 0
    ensures r.Success? ==> r.value == g
    ensures r.Failure? ==> r.error == RangeError(g.name, "either null or less than", t.toString(x))
  {
    if g.value.Some? && Effective(comparer, t)(g.value.value, x) >= 0 then
      Failure(RangeError(g.name, "either null or less than", t.toString(x)))
    else
      Success(g)
  }

  /** `IsLessThanOrEqualTo(x)`: fails when the value is absent or compares `> 0` to `x`. */
  function IsLessThanOrEqualTo<T>(g: OptionalGuard<T>, x: T, comparer: Option<Comparer<T>>, t: Comparable<T>)
    : (r: OptionalResult<T>)
    ensures r.Success? <==> g.value.Some? && Effective(comparer, t)(g.value.value, x) <= 0
    ensures r.Success? ==> r.value == g
    ensures r.Failure? ==> r.error == RangeError(g.name, "less than or equal to", t.toString(x))
  {
    if g.value.None? || Effective(comparer, t)(g.value.value, x) > 0 then
      Failure(RangeError(g.name, "less than or equal to", t.toString(x)))
    else
      Success(g)
  }

  /** `IsNullOrLessThanOrEqualTo(x)`: an absent value passes; a present one
      fails when it compares `> 0` to `x`. */
  function IsNullOrLessThanOrEqualTo<T>(g: OptionalGuard<T>, x: T, comparer: Option<Comparer<T>>, t: Comparable<T>)
    : (r: OptionalResult<T>)
    ensures r.Success? <==> g.value.None? || Effective(comparer, t)(g.value.value, x) <= 0
    ensures r.Success? ==> r.value == g
    ensures r.Failure? ==> r.error == RangeError(g.name, "either null or less than or equal to", t.toString(x))
  {
    if g.value.Some? && Effective(comparer, t)(g.value.value, x) > 0 then
      Failure(RangeError(g.name, "either null or less than or equal to", t.toString(x)))
    else
      Success(g)
  }

  /** Every ordering check, for any bound and comparer, returns the guard it
      was given when it passes, so each one chains as
      `Guards.ChainObservesOriginalGuard` describes. */
  lemma OrderingChecksReturnGuardUnchanged<T(!new)>(x: T, comparer: Option<Comparer<T>>, t: Comparable<T>)
    ensures ReturnsGuardUnchanged((g: OptionalGuard<T>) => IsGreaterThan(g, x, comparer, t))
    ensures ReturnsGuardUnchanged((g: OptionalGuard<T>) => IsNullOrGreaterThan(g, x, comparer, t))
    ensures ReturnsGuardUnchanged((g: OptionalGuard<T>) => IsGreaterThanOrEqualTo(g, x, comparer, t))
    ensures ReturnsGuardUnchanged((g: OptionalGuard<T>) => IsNullOrGreaterThanOrEqualTo(g, x, comparer, t))
    ensures ReturnsGuardUnchanged((g: OptionalGuard<T>) => IsLessThan(g, x, comparer, t))
    ensures ReturnsGuardUnchanged((g: OptionalGuard<T>) => IsNullOrLessThan(g, x, comparer, t))
    ensures ReturnsGuardUnchanged((g: OptionalGuard<T>) => IsLessThanOrEqualTo(g, x, comparer, t))
    ensures ReturnsGuardUnchanged((g: OptionalGuard<T>) => IsNullOrLessThanOrEqualTo(g, x, comparer, t))
  {
  }

  /** Each `IsNullOr*` check inverts only absence: an absent value passes it
      while failing the plain check, and a present value passes it exactly
      when it passes the plain check, failing with the same exception class
      and parameter name. */
  lemma NullOrVariantsDifferOnlyOnAbsence<T>(g: OptionalGuard<T>, x: T, comparer: Option<Comparer<T>>, t: Comparable<T>)
    ensures g.value.None? ==>
      && IsNullOrGreaterThan(g, x, comparer, t) == Success(g) && IsGreaterThan(g, x, comparer, t).Failure?
      && IsNullOrGreaterThanOrEqualTo(g, x, comparer, t) == Success(g) && IsGreaterThanOrEqualTo(g, x, comparer, t).Failure?
      && IsNullOrLessThan(g, x, comparer, t) == Success(g) && IsLessThan(g, x, comparer, t).Failure?
      && IsNullOrLessThanOrEqualTo(g, x, comparer, t) == Success(g) && IsLessThanOrEqualTo(g, x, comparer, t).Failure?
    ensures g.value.Some? ==>
      && SameVerdict(IsNullOrGreaterThan(g, x, comparer, t), IsGreaterThan(g, x, comparer, t))
      && SameVerdict(IsNullOrGreaterThanOrEqualTo(g, x, comparer, t), IsGreaterThanOrEqualTo(g, x, comparer, t))
      && SameVerdict(IsNullOrLessThan(g, x, comparer, t), IsLessThan(g, x, comparer, t))
      && SameVerdict(IsNullOrLessThanOrEqualTo(g, x, comparer, t), IsLessThanOrEqualTo(g, x, comparer, t))
  {
  }

  /** Two outcomes agree on everything but the message text. */
  ghost predicate SameVerdict<T>(a: OptionalResult<T>, b: OptionalResult<T>) {
    && a.Success? == b.Success?
    && (a.Success? ==> a.value == b.value)
    && (a.Failure? ==> a.error.kind == b.error.kind && a.error.paramName == b.error.paramName)
  }

  /** On a present value the strict check of one direction and the non-strict
      check of the other are complements: exactly one of them passes. */
  lemma StrictAndNonStrictAreComplements<T>(v: T, name: string, x: T, comparer: Option<Comparer<T>>, t: Comparable<T>)
    ensures IsGreaterThan(Requires(Some(v), name), x, comparer, t).Success?
         != IsLessThanOrEqualTo(Requires(Some(v), name), x, comparer, t).Success?
    ensures IsLessThan(Requires(Some(v), name), x, comparer, t).Success?
         != IsGreaterThanOrEqualTo(Requires(Some(v), name), x, comparer, t).Success?
  {
  }

  /** At the boundary, where the value compares equal to `x`, the strict
      checks fail and the non-strict ones pass. */
  lemma BoundaryFailsStrictPassesNonStrict<T>(g: OptionalGuard<T>, x: T, comparer: Option<Comparer<T>>, t: Comparable<T>)
    requires g.value.Some? && Effective(comparer, t)(g.value.value, x) == 0
    ensures IsGreaterThan(g, x, comparer, t).Failure? && IsLessThan(g, x, comparer, t).Failure?
    ensures IsGreaterThanOrEqualTo(g, x, comparer, t) == Success(g)
    ensures IsLessThanOrEqualTo(g, x, comparer, t) == Success(g)
  {
  }

  /** A comparer that behaves like a total order: the sign flips when the
      operands are swapped, and "at most" is transitive. */
  ghost predicate IsTotalOrder<T(!new)>(cmp: Comparer<T>) {
    && (forall a, b :: cmp(a, b) < 0 <==> cmp(b, a) > 0)
    && (forall a, b, c :: cmp(a, b) <= 0 && cmp(b, c) <= 0 ==> cmp(a, c) <= 0)
  }

  /** Under a total order, "v is greater than x" and "x is less than v" are
      the same verdict, whatever the two arguments are called. */
  lemma GreaterThanMirrorsLessThan<T(!new)>(v: T, x: T, n: string, m: string, comparer: Option<Comparer<T>>, t: Comparable<T>)
    requires IsTotalOrder(Effective(comparer, t))
    ensures IsGreaterThan(Requires(Some(v), n), x, comparer, t).Success?
        <==> IsLessThan(Requires(Some(x), m), v, comparer, t).Success?
    ensures IsGreaterThanOrEqualTo(Requires(Some(v), n), x, comparer, t).Success?
        <==> IsLessThanOrEqualTo(Requires(Some(x), m), v, comparer, t).Success?
  {
  }

  /** For any comparer, the chain `IsGreaterThan(lo).IsLessThan(hi)` passes
      exactly when the value lies strictly between the bounds, and then returns
      the guard; under a total order it can pass only if `lo` is below `hi`. */
  lemma BetweenChain<T(!new)>(g: OptionalGuard<T>, lo: T, hi: T, comparer: Option<Comparer<T>>, t: Comparable<T>)
    ensures var chain := (var g1 :- IsGreaterThan(g, lo, comparer, t); IsLessThan(g1, hi, comparer, t));
      && (chain.Success? <==> g.value.Some? && Effective(comparer, t)(g.value.value, lo) > 0
                                            && Effective(comparer, t)(g.value.value, hi) < 0)
      && (chain.Success? ==> chain.value == g)
      && (IsTotalOrder(Effective(comparer, t)) && chain.Success? ==> Effective(comparer, t)(lo, hi) < 0)
  {
  }

  /** `Int32.CompareTo`: -1, 0 or 1 as `a` is below, equal to or above `b`. */
  function IntCompareTo(a: int, b: int): (c: int)
    ensures -1 <= c <= 1
    ensures c < 0 <==> a < b
    ensures c == 0 <==> a == b
  {
    if a < b then -1 else if a > b then 1 else 0
  }

  /** `Int32.ToString()` in the invariant culture: an optional minus sign
      followed by decimal digits, which read back as the number. */
  function IntToString(i: int): (s: string)
    ensures |s| >= 1
    ensures s[0] == '-' <==> i < 0
    ensures i >= 0 ==> IsDigits(s) && DecimalValue(s) == i
    ensures i < 0 ==> IsDigits(s[1..]) && DecimalValue(s[1..]) == -i
    ensures i >= 0 && s[0] == '0' ==> i == 0
    ensures i == 0 ==> s == "0"
    ensures i < 0 ==> |s| >= 2 && s[1] != '0'
  {
    NatToStringRoundTrip(if i < 0 then -i else i);
    if i < 0 then "-" + NatToString(-i) else NatToString(i)
  }

  /** The decimal digits of `n`, most significant first, without leading zeros. */
  function NatToString(n: nat): (s: string)
    ensures |s| >= 1
    ensures IsDigits(s)
    ensures s[0] == '0' ==> n == 0
  {
    if n < 10 then [Digit(n)] else NatToString(n / 10) + [Digit(n % 10)]
  }

  function Digit(d: nat): (c: char)
    requires d < 10
    ensures c as int == '0' as int + d
  {
    "0123456789"[d]
  }

  predicate IsDigits(s: string) {
    forall k :: 0 <= k < |s| ==> '0' <= s[k] <= '9'
  }

  /** The number a string of decimal digits denotes. */
  function DecimalValue(s: string): nat
    requires IsDigits(s)
  {
    if s == [] then 0 else DecimalValue(s[..|s| - 1]) * 10 + (s[|s| - 1] as int - '0' as int)
  }

  /** Reading the rendered digits back gives the number. */
  lemma {:induction false} NatToStringRoundTrip(n: nat)
    ensures DecimalValue(NatToString(n)) == n
  {
    if n >= 10 {
      var s := NatToString(n);
      assert s[..|s| - 1] == NatToString(n / 10);
      NatToStringRoundTrip(n / 10);
    }
  }

  /** The capabilities of `int`. */
  const IntComparable: Comparable<int> := Comparable(IntCompareTo, IntToString)

  /** The natural order of `int` is a total order. */
  lemma IntCompareIsTotalOrder()
    ensures IsTotalOrder(IntCompareTo)
  {
  }

  /** 5 passes `IsGreaterThan(1).IsLessThan(10)`, and the chain returns the guard. */
  lemma FiveIsBetweenOneAndTen()
    ensures (var g1 :- IsGreaterThan(Requires(Some(5), "value"), 1, None, IntComparable);
             IsLessThan(g1, 10, None, IntComparable))
         == Success(Guard("value", Some(5)))
  {
  }

  /** 110 fails `IsLessThan(100)` with an out-of-range error naming "parameter". */
  lemma OneHundredTenIsNotLessThanOneHundred()
    ensures IsLessThan(Requires(Some(110), "parameter"), 100, None, IntComparable)
         == Failure(GuardError(OutOfRange, "parameter", "parameter should be less than 100."))
  {
    assert NatToString(10) == "10";
    assert IntToString(100) == "100";
    assert "parameter" + " should be " + "less than" + " " + "100" + "." == "parameter should be less than 100.";
  }

  /** The value 1 against the bound 1: the strict checks fail, the non-strict
      ones pass; an absent value fails `IsGreaterThan(0)` and passes
      `IsNullOrGreaterThan(0)`. */
  lemma IntBoundaryExamples()
    ensures IsGreaterThan(Requires(Some(1), "value"), 1, None, IntComparable).Failure?
    ensures IsGreaterThanOrEqualTo(Requires(Some(1), "value"), 1, None, IntComparable).Success?
    ensures IsLessThan(Requires(Some(1), "value"), 1, None, IntComparable).Failure?
    ensures IsLessThanOrEqualTo(Requires(Some(1), "value"), 1, None, IntComparable).Success?
    ensures IsGreaterThan(Requires(None, "value"), 0, None, IntComparable).Failure?
    ensures IsNullOrGreaterThan(Requires(None, "value"), 0, None, IntComparable).Success?
  {
  }
}
