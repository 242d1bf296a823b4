/**
 * The caching policy: three independently optional settings. A field that
 * is `None` is unset (it inherits); `Some(false)` or `Some(0)` is an
 * explicit value that still takes part in a merge.
 */
module Policies {
  import opened Wrappers

  /**
   * `D` is what the policy holds as its cacheable driver: the class name
   * read from the configuration, or the driver instance built from it.
   */
  datatype Policy<D> = Policy(disabled: Option<bool>, expiration: Option<int>, driver: Option<D>)

  /** A policy that sets nothing. */
  function Unset<D>(): (p: Policy<D>)
  {
    Policy(None, None, None)
  }

  /** One field of a merge: an override that is set (non-null) wins. */
  function Override<T>(base: Option<T>, over: Option<T>): (r: Option<T>)
  {
    if over.Some? then over else base
  }

  /** The field-wise merge of a route override into the global policy. */
  function Merge<D>(base: Policy<D>, over: Policy<D>): (r: Policy<D>)
  {
    Policy(Override(base.disabled, over.disabled),
           Override(base.expiration, over.expiration),
           Override(base.driver, over.driver))
  }

  /** Each field of a merge is the override's value when set, and the base's otherwise. */
  lemma MergePrecedence<D>(base: Policy<D>, over: Policy<D>)
    ensures over.disabled.Some? ==> Merge(base, over).disabled == over.disabled
    ensures over.disabled.None? ==> Merge(base, over).disabled == base.disabled
    ensures over.expiration.Some? ==> Merge(base, over).expiration == over.expiration
    ensures over.expiration.None? ==> Merge(base, over).expiration == base.expiration
    ensures over.driver.Some? ==> Merge(base, over).driver == over.driver
    ensures over.driver.None? ==> Merge(base, over).driver == base.driver
  {
  }

  /**
   * Fields merge independently: two overrides that agree on one field give
   * results that agree on that field, whatever the other fields hold.
   */
  lemma MergeIndependent<D>(base: Policy<D>, o1: Policy<D>, o2: Policy<D>)
    ensures o1.disabled == o2.disabled ==> Merge(base, o1).disabled == Merge(base, o2).disabled
    ensures o1.expiration == o2.expiration ==> Merge(base, o1).expiration == Merge(base, o2).expiration
    ensures o1.driver == o2.driver ==> Merge(base, o1).driver == Merge(base, o2).driver
  {
  }

  /**
   * An explicit `false` or `0` in the override replaces the global value,
   * even a global `true` or a non-zero period: the test is "not null",
   * not truthiness.
   */
  lemma ExplicitFalsyOverrides<D>(base: Policy<D>)
    ensures Merge(base, Policy(Some(false), None, None)).disabled == Some(false)
    ensures Merge(base, Policy(None, Some(0), None)).expiration == Some(0)
    ensures Merge(base, Policy(Some(false), None, None)).expiration == base.expiration
    ensures Merge(base, Policy(None, Some(0), None)).disabled == base.disabled
  {
  }

  /** The merge applies no default: a field unset on both sides stays unset. */
  lemma MergeAppliesNoDefault<D>(base: Policy<D>, over: Policy<D>)
    requires base.disabled.None? && over.disabled.None?
    ensures Merge(base, over).disabled.None?
  {
  }

  /** Merge laws: the unset override is neutral, merging twice changes nothing, and merges associate. */
  lemma MergeLaws<D>(a: Policy<D>, b: Policy<D>, c: Policy<D>)
    ensures Merge(a, Unset()) == a
    ensures Merge(Unset(), a) == a
    ensures Merge(Merge(a, b), b) == Merge(a, b)
    ensures Merge(Merge(a, b), c) == Merge(a, Merge(b, c))
  {
  }
}
