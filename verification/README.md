# NGuard in Dafny

A model of NGuard, a fluent argument-guard library for .NET. `Guard.Requires(value, name)`
wraps an argument in an immutable `Guard<T>` carrier. Each check (`IsNotNull`, `IsNotEmpty`,
`IsGreaterThan`, `StartsWith`, ...) either returns that same guard, so the next check can be
chained, or throws `ArgumentNullException`, `ArgumentException` or
`ArgumentOutOfRangeException`. The message names the argument.

How the model encodes it:

- A guard is a datatype. A thrown exception is `Failure(GuardError(kind, paramName, message))`
  of a `Result`. A returned guard is `Success(g)`. A fluent chain is Dafny's `:-`, so the first
  failure aborts the chain.
- A C# null reference and an empty `Nullable<T>` are both `None` of an `Option`. The reference
  and `Nullable<T>` overloads of `IsNotNull` test the same condition, and so do the plain and
  `T?` overloads of the four ordering checks. Each pair therefore shares one function. A plain
  value-type argument is written `Some(v)`.
- Comparers and equality comparers are function parameters. An absent comparer (`None`) falls
  back to the default, as `comparer ?? ...Default` does. For ordering, the default is the
  type's own `CompareTo`, supplied with its `ToString` in a `Comparable<T>` record, since
  `T : IComparable<T>` is a capability of the type. For equality, the default is Dafny's `==`.
- A Dafny `char` is a Unicode scalar value, not a UTF-16 code unit. `Char.IsWhiteSpace` is the
  set of Basic Multilingual Plane characters that .NET classifies as white space. Every white-space
  character lies in that plane, so the classification is exact for the characters a model string
  can hold.
  `StringComparison` offers `Ordinal` and `OrdinalIgnoreCase`. `String.IndexOf` is a recursive
  search proved against an independent "occurs somewhere" predicate.
- Where the source uses `int` (Int32), the model uses Dafny's unbounded `int` and stands for
  Int32 values. Comparing and printing an Int32 cannot overflow, so nothing is lost.
- The white-space check is a `for` loop with an early `break`, as in the source. It is
  therefore a method, and so is the composite check that calls it.
- The `IsNullOr*` ordering checks accept any guard over an optional value. The source declares
  them only for `Nullable<T>` structs. Likewise `LegacyChecks.IsNotNull` accepts any optional
  value, though the earlier snapshot declares only the `where T : class` overload. On the guards
  the source does accept, the verdicts are the same.
- The earlier snapshot under `Source/NGuard/` has its own modules, `LegacyGuards` and
  `LegacyChecks`. `SnapshotAgreement` relates the two snapshots and does not merge them.

The files:

- `wrappers.dfy` holds `Option`, `Result` and the error kinds.
- `text.dfy` holds the `Char`/`String` operations.
- `guard.dfy`, `null_checks.dfy`, `strings.dfy`, `equality.dfy` and `comparisons.dfy` follow
  the current source files one to one.
- `legacy.dfy` holds the earlier snapshot.

Messages follow the source's format strings, not the tests. The tests expect ordering messages
of the form `"value (1) should be greater than 2."`. The source formats
`"value should be greater than 2."` (src/NGuard/GuardExtensions.Comparisons.cs:27); the model
follows the source. The tests also expect unquoted equality operands where the source quotes
them. `GuardExtensions.Comparisons.cs` reads `guard.ParameterName`, a property the current
`Guard<T>` does not have. The model reads the guard's `name`.

## Model

| member | source | states |
|---|---|---|
| Guards.Requires | src/NGuard/Guard.cs:21-27 | never fails, for any value (null included); the guard's `value` is the first argument and its `name` the second, so the (value, name) to (name, value) swap is right |
| Guards.RequiresIsBijective | src/NGuard/Guard.cs:51-55 | every guard is `Requires` of its own fields, and two `Requires` calls give the same guard only for the same value and name |
| Guards.ChainObservesOriginalGuard | src/NGuard/GuardExtensions.NullChecks.cs:24 | for checks that return the guard they were given, a chain passes iff each check passes on the original guard; the first failure is the one reported; a passing chain returns the original guard |
| NullChecks.IsNotNull | src/NGuard/GuardExtensions.NullChecks.cs:14-45 | fails iff the value is absent, with `ArgumentNullException`, paramName = name and `"{name} should not be null."`; on success returns the identical guard |
| NullChecks.PresentValuesPass | test/NGuard.Tests/NullChecks.cs:10-37 | every present value passes, whatever it is (`new object()`, `123 as int?`), and the guard is returned as built |
| NullChecks.IsNotNullReturnsGuardUnchanged | src/NGuard/GuardExtensions.NullChecks.cs:24 | `IsNotNull`, taken as a check, returns the guard it was given whenever it passes, so it chains as the chain lemma says |
| NullChecks.NullIsReported | src/NGuard/GuardExtensions.NullChecks.cs:17-21 | a null argument yields exactly the `ArgumentNullException` error naming it |
| Text.IsWhiteSpace | src/NGuard/GuardExtensions.Strings.cs:40 | `Char.IsWhiteSpace`: among ASCII characters, exactly the space and TAB through CR are white space; no letter or digit is |
| Text.CharEquals | src/NGuard/GuardExtensions.Strings.cs:97 | character equality per `StringComparison` mode: equal characters always match; `Ordinal` matches only equal characters; `OrdinalIgnoreCase` matches a lower-case ASCII letter with itself and its upper-case form only |
| Text.StartsWith | src/NGuard/GuardExtensions.Strings.cs:99 | `String.StartsWith`: under `Ordinal` it is the sequence prefix relation; the empty needle is a prefix of every string |
| Text.EndsWith | src/NGuard/GuardExtensions.Strings.cs:126 | `String.EndsWith`: under `Ordinal` the needle equals the value's tail of the same length; the empty needle ends every string |
| Text.IndexOf | src/NGuard/GuardExtensions.Strings.cs:154 | the result is the first index where the needle matches under the mode; it is negative iff the needle occurs nowhere |
| Text.IndexOfFrom | src/NGuard/GuardExtensions.Strings.cs:154 | searching from a start index, the result is -1 or the first matching index at or after it; -1 means no match at or after it |
| StringChecks.IsNotEmpty | src/NGuard/GuardExtensions.Strings.cs:14-24 | fails iff the value is the empty string (null passes), with `ArgumentException` naming the argument; success returns the guard |
| StringChecks.IsNotWhiteSpace | src/NGuard/GuardExtensions.Strings.cs:33-56 | the scan loop keeps `whitespace` equal to "all characters before i are white space"; fails iff the value is non-null, non-empty and all white space, with `ArgumentException`; null and "" pass |
| StringChecks.IsNotNullOrEmpty | src/NGuard/GuardExtensions.Strings.cs:65-68 | null gives the null error (never the empty one); "" gives the empty error; passes iff the value is non-null and non-empty |
| StringChecks.IsNotNullOrEmptyOrWhiteSpace | src/NGuard/GuardExtensions.Strings.cs:77-80 | null, then empty, then white space: null gives the null error, "" the empty error (not the white-space one), an all-white-space string the white-space error; passes iff non-null, non-empty and not all white space |
| StringChecks.StartsWith | src/NGuard/GuardExtensions.Strings.cs:97-107 | passes iff the value is non-null and its first characters equal the prefix under the mode; the failure is `ArgumentException` quoting the prefix |
| StringChecks.EndsWith | src/NGuard/GuardExtensions.Strings.cs:124-134 | passes iff the value is non-null and its last characters equal the suffix under the mode; the failure is `ArgumentException` quoting the suffix |
| StringChecks.Contains | src/NGuard/GuardExtensions.Strings.cs:152-162 | passes iff the value is non-null and the needle occurs at some position under the mode; the failure is `ArgumentException` quoting the needle |
| StringChecks.NullFailsMatching | src/NGuard/GuardExtensions.Strings.cs:97-162 | a null value fails `StartsWith`, `EndsWith` and `Contains` for every needle and mode |
| StringChecks.MatchImpliesContains | src/NGuard/GuardExtensions.Strings.cs:99-154 | a value passing `StartsWith` or `EndsWith` with a needle also passes `Contains` with it |
| StringChecks.IgnoreCaseIsWeaker | src/NGuard/GuardExtensions.Strings.cs:97-152 | whatever passes a matching check under `Ordinal` passes it under `OrdinalIgnoreCase` |
| StringChecks.StartsWithExamples | test/NGuard.Tests/Strings.cs:133-162 | "example string" starts with "example" (Ordinal), fails "xxx" (Ordinal) with "value should start with 'xxx'.", starts with "EXAMPLE" (OrdinalIgnoreCase) |
| EqualityChecks.IsEqualTo | src/NGuard/GuardExtensions.EqualityComparisons.cs:17-29 | fails iff the comparer (default: the type's equality) says the value is not equal to the operand, with `ArgumentException` quoting the operand; success returns the guard |
| EqualityChecks.IsNotEqualTo | src/NGuard/GuardExtensions.EqualityComparisons.cs:41-53 | fails iff the comparer (default: the type's equality) says the value equals the operand, with `ArgumentException`; success returns the guard |
| EqualityChecks.ExactlyOneOfEqualAndNotEqual | src/NGuard/GuardExtensions.EqualityComparisons.cs:21-45 | with the same comparer, exactly one of `IsEqualTo(x)` and `IsNotEqualTo(x)` passes, for every value |
| EqualityChecks.NoComparerIsDefaultEquality | src/NGuard/GuardExtensions.EqualityComparisons.cs:19-43 | a null comparer gives exactly the outcome of the default equality comparer |
| EqualityChecks.ReflexiveComparerAcceptsOwnValue | src/NGuard/GuardExtensions.EqualityComparisons.cs:17-53 | under a reflexive comparer a value is equal to itself: `IsEqualTo` passes and `IsNotEqualTo` fails |
| EqualityChecks.NullAgainstZ | test/NGuard.Tests/EqualityComparisons.cs:27-63 | a null string against "z" with the default equality: `IsEqualTo` fails with "value should be equal to '…'." and `IsNotEqualTo` passes |
| ComparisonChecks.RangeError | src/NGuard/GuardExtensions.Comparisons.cs:26-28 | every ordering failure is `ArgumentOutOfRangeException` with paramName = the guard's name |
| ComparisonChecks.IsGreaterThan | src/NGuard/GuardExtensions.Comparisons.cs:19-57 | passes iff the value is present and compares > 0 to the bound under the comparer (default: the type's `CompareTo`); success returns the guard |
| ComparisonChecks.IsNullOrGreaterThan | src/NGuard/GuardExtensions.Comparisons.cs:69-82 | passes iff the value is absent or compares > 0 to the bound |
| ComparisonChecks.IsGreaterThanOrEqualTo | src/NGuard/GuardExtensions.Comparisons.cs:94-132 | passes iff the value is present and compares >= 0 to the bound |
| ComparisonChecks.IsNullOrGreaterThanOrEqualTo | src/NGuard/GuardExtensions.Comparisons.cs:144-157 | passes iff the value is absent or compares >= 0 to the bound |
| ComparisonChecks.IsLessThan | src/NGuard/GuardExtensions.Comparisons.cs:169-207 | passes iff the value is present and compares < 0 to the bound |
| ComparisonChecks.IsNullOrLessThan | src/NGuard/GuardExtensions.Comparisons.cs:219-232 | passes iff the value is absent or compares < 0 to the bound |
| ComparisonChecks.IsLessThanOrEqualTo | src/NGuard/GuardExtensions.Comparisons.cs:244-282 | passes iff the value is present and compares <= 0 to the bound |
| ComparisonChecks.IsNullOrLessThanOrEqualTo | src/NGuard/GuardExtensions.Comparisons.cs:294-307 | passes iff the value is absent or compares <= 0 to the bound |
| ComparisonChecks.OrderingChecksReturnGuardUnchanged | src/NGuard/GuardExtensions.Comparisons.cs:31 | each of the eight ordering checks, for any bound and comparer, returns the guard it was given whenever it passes |
| ComparisonChecks.NullOrVariantsDifferOnlyOnAbsence | src/NGuard/GuardExtensions.Comparisons.cs:44-82 | an absent value passes every `IsNullOr*` check and fails its plain counterpart; a present value gets the same verdict, exception class and paramName from both |
| ComparisonChecks.StrictAndNonStrictAreComplements | src/NGuard/GuardExtensions.Comparisons.cs:19-282 | on a present value exactly one of `IsGreaterThan(x)`/`IsLessThanOrEqualTo(x)` passes, and exactly one of `IsLessThan(x)`/`IsGreaterThanOrEqualTo(x)` |
| ComparisonChecks.BoundaryFailsStrictPassesNonStrict | test/NGuard.Tests/Comparisons.cs:21-30 | a value comparing equal to the bound fails both strict checks and passes both non-strict ones |
| ComparisonChecks.GreaterThanMirrorsLessThan | src/NGuard/GuardExtensions.Comparisons.cs:19-207 | under a total-order comparer, v passes `IsGreaterThan(x)` iff x passes `IsLessThan(v)`, and likewise for the non-strict pair |
| ComparisonChecks.BetweenChain | src/NGuard/GuardExtensions.Comparisons.cs:19-182 | for any comparer, `IsGreaterThan(lo).IsLessThan(hi)` passes iff the value is present and strictly between the bounds, and then returns the guard; under a total-order comparer, a pass also implies lo < hi |
| ComparisonChecks.IntCompareTo | src/NGuard/GuardExtensions.Comparisons.cs:22 | `Int32.CompareTo`, the default comparer of `int`: returns -1, 0 or 1, negative iff a < b and zero iff a = b |
| ComparisonChecks.IntToString | src/NGuard/GuardExtensions.Comparisons.cs:27 | `Int32.ToString` in the invariant culture: non-empty, a leading minus iff negative, no leading zeros, 0 rendered as exactly "0", and the digits read back as the absolute value |
| ComparisonChecks.NatToStringRoundTrip | src/NGuard/GuardExtensions.Comparisons.cs:27 | reading the rendered decimal digits of a natural number back gives that number |
| ComparisonChecks.IntCompareIsTotalOrder | src/NGuard/GuardExtensions.Comparisons.cs:22 | the default comparer of `int` is a total order |
| ComparisonChecks.FiveIsBetweenOneAndTen | src/NGuard/GuardExtensions.Comparisons.cs:169-181 | 5 passes `IsGreaterThan(1).IsLessThan(10)` and the chain returns the guard |
| ComparisonChecks.OneHundredTenIsNotLessThanOneHundred | src/NGuard/GuardExtensions.Comparisons.cs:174-178 | 110 fails `IsLessThan(100)` with `ArgumentOutOfRangeException`, paramName "parameter" and "parameter should be less than 100." |
| ComparisonChecks.IntBoundaryExamples | test/NGuard.Tests/Comparisons.cs:21-341 | 1 fails `IsGreaterThan(1)` and `IsLessThan(1)`, passes both `OrEqualTo` checks; null fails `IsGreaterThan(0)` and passes `IsNullOrGreaterThan(0)` |
| LegacyGuards.Requires | Source/NGuard/Guard.cs:20-23 | never fails; both arguments are mandatory; `Value` = value and `ParameterName` = parameterName |
| LegacyGuards.RequiresIsBijective | Source/NGuard/Guard.cs:47-51 | the constructor is the only writer of both fields: every legacy guard is `Requires` of its own fields |
| LegacyChecks.IsNotNull | Source/NGuard/GuardExtensions.cs:16-29 | fails iff the value is null, with `ArgumentNullException` and `"{0} should not be null."` |
| LegacyChecks.IsNotEmpty | Source/NGuard/GuardExtensions.cs:37-50 | fails iff the value is "", with `ArgumentException`; null passes |
| LegacyChecks.IsNotWhiteSpace | Source/NGuard/GuardExtensions.cs:58-84 | loop as in the current snapshot; fails iff non-null, non-empty and all white space, but with `ArgumentNullException` and "should contain some non-white-space characters." |
| LegacyChecks.IsNotNullOrEmpty | Source/NGuard/GuardExtensions.cs:92-95 | null gives the null error, "" the empty error; passes iff non-null and non-empty |
| LegacyChecks.IsNotNullOrEmptyOrWhiteSpace | Source/NGuard/GuardExtensions.cs:103-106 | null, then empty, then white space, the first failure reported; passes iff non-null, non-empty and not all white space |
| SnapshotAgreement.NullAndEmptyChecksAgree | Source/NGuard/GuardExtensions.cs:16-50 | for the same value and name, both snapshots' `IsNotNull`, `IsNotEmpty` and `IsNotNullOrEmpty` throw identical errors or pass together |
| SnapshotAgreement.WhiteSpaceChecksDisagreeOnKind | Source/NGuard/GuardExtensions.cs:72-79 | on a non-empty all-white-space value, both snapshots' `IsNotWhiteSpace` fail under the same parameter name, the current one with `ArgumentException`, the earlier one with `ArgumentNullException`, and with different messages |
| SnapshotAgreement.WhiteSpaceErrorsDiffer | Source/NGuard/GuardExtensions.cs:72-79 | the white-space failure is `ArgumentException` in the current snapshot and `ArgumentNullException` with different wording in the earlier one |

## Left out

- Capture of the caller's argument expression as the default name (`[CallerArgumentExpression]`) is a compiler feature. The name is always an explicit argument.
- The `System.Object` overrides (`GetType`, `Equals`, `GetHashCode`, `ToString`) and the `[EditorBrowsable]` and `[DebuggerStepThrough]` attributes only delegate to the base class or affect tooling.
- Culture-sensitive string comparison is locale-dependent. This covers the default mode `StringComparison.CurrentCulture` and the other culture and invariant-culture modes. `StartsWith`, `EndsWith` and `Contains` therefore take the mode as a mandatory argument: `Ordinal` or `OrdinalIgnoreCase`.
- Text.AsciiToUpper: `OrdinalIgnoreCase` folds only ASCII letters, because .NET's full Unicode upper-case table is not modelled.
- Null needles are left out. `String.StartsWith(null)` and its siblings throw an uncontrolled `ArgumentNullException` from .NET itself, so the needle is a plain string.
- Null comparison operands are left out. For a reference type `T` the bound `x` could be null. Bounds are plain values, and null is the absent value of the guard only.
- Rendering of values inside messages (`{value}`) is the supplied `toString` function. The parameter-name suffix that .NET appends to an exception's `Message` is not modelled.
- Exceptions are error values, not thrown .NET exception objects.
- Strings are sequences of Unicode scalar values. C# strings are sequences of UTF-16 code units. A character outside the Basic Multilingual Plane is one element here but two in .NET, and a lone surrogate cannot be written at all. So inputs such as `"😀".StartsWith("\uD83D", StringComparison.Ordinal)`, which .NET accepts, are not expressible in the model.
- Null names are not modelled. `Requires` accepts a null name in both snapshots, and the messages then start with an empty name and carry a null `ParamName`. Here a name is always a string.
- Reference identity is not modelled. A passing check returns a value-equal guard; C# returns the same object.
