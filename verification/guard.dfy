/** The current `Guard<T>` carrier and its `Guard.Requires` factory. */
module Guards {
  import opened Wrappers
  import opened Exceptions

  /** An argument's name and value. Both are fixed at construction: a
      datatype has no setters, so no check can change them. */
  datatype Guard<T> = Guard(name: string, value: T)

  /** `Guard.Requires(value, name)`: never fails, for any value (null included),
      and puts the arguments, given in (value, name) order, into the carrier's
      (name, value) fields. */
  function Requires<T>(value: T, name: string): (g: Guard<T>)
    ensures g.value == value
    ensures g.name == name
  {
    Guard(name, value)
  }

  /** Every guard is the one `Requires` builds from its own fields, and
      `Requires` keeps both of its arguments: it is a bijection. */
  lemma RequiresIsBijective<T>(g: Guard<T>, value: T, name: string)
    ensures Requires(g.value, g.name) == g
    ensures Requires(value, name) == g <==> g.value == value && g.name == name
  {
  }

  /** What a check is: a function from a guard to the same guard or an error. */
  type Check<!T> = Guard<T> -> Result<Guard<T>, GuardError>

  /** A check that, when it passes, hands back the guard it was given. */
  ghost predicate ReturnsGuardUnchanged<T(!new)>(check: Check<T>) {
    forall g :: check(g).Success? ==> check(g).value == g
  }

  /** Chaining `first` then `second` with `:-`: the chain passes exactly when
      both pass on the ORIGINAL guard, the first failure is the one reported,
      and a passing chain returns the original guard. This is what makes
      fluent chains safe: every check observes the value `Requires` stored. */
  lemma ChainObservesOriginalGuard<T(!new)>(g: Guard<T>, first: Check<T>, second: Check<T>)
    requires ReturnsGuardUnchanged(first) && ReturnsGuardUnchanged(second)
    ensures var chain := (var g1 :- first(g); second(g1));
      && chain == (if first(g).Failure? then first(g) else second(g))
      && (chain.Success? <==> first(g).Success? && second(g).Success?)
      && (chain.Success? ==> chain.value == g)
  {
  }
}
