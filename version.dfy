/** Solver release numbers, ordered the way a Python tuple (major, minor, patch) is. */
module SolverVersion {

  datatype Version = Version(major: nat, minor: nat, patch: nat)

  /** Strict lexicographic order: `a < b` on (major, minor, patch) tuples. */
  predicate Before(a: Version, b: Version) {
    a.major < b.major
    || (a.major == b.major && a.minor < b.minor)
    || (a.major == b.major && a.minor == b.minor && a.patch < b.patch)
  }

  /** `a >= b` on tuples: the same release or a later one. */
  predicate AtLeast(a: Version, b: Version)
    ensures AtLeast(a, b) <==> a == b || Before(b, a)
  {
    !Before(a, b)
  }

  /** The release from which the solver's command line accepts a quoted path
      containing spaces. The tests fix only that 12.6.0 lies below it and
      12.8.0 at or above it; 12.7.0 is the one value chosen here. */
  const QuotingSince: Version := Version(12, 7, 0)

  /** The two releases the tests use (their mock solvers' `version()`). */
  const V126: Version := Version(12, 6, 0)
  const V128: Version := Version(12, 8, 0)

  /** The tuple order is a strict total order. */
  lemma BeforeIsStrictTotalOrder(a: Version, b: Version, c: Version)
    ensures !Before(a, a)
    ensures Before(a, b) ==> !Before(b, a)
    ensures Before(a, b) && Before(b, c) ==> Before(a, c)
    ensures a == b || Before(a, b) || Before(b, a)
  {
  }

  /** Raising the version never takes it back below a threshold it has reached. */
  lemma AtLeastMonotone(v: Version, w: Version, t: Version)
    requires AtLeast(v, t) && AtLeast(w, v)
    ensures AtLeast(w, t)
  {
    BeforeIsStrictTotalOrder(w, v, t);
    BeforeIsStrictTotalOrder(t, w, v);
    BeforeIsStrictTotalOrder(w, t, v);
  }

  /** The threshold separates the two tested releases. */
  lemma ThresholdBetweenTestedReleases()
    ensures Before(V126, QuotingSince)
    ensures AtLeast(V128, QuotingSince)
  {
  }
}
