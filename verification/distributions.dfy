/** Concrete distributions, kept symbolic. The numerical behaviour of the
    distribution classes (pdf, cdf, range, sampling) lives outside the family
    code; here a distribution is only the term that records how it was built. */
module Distributions {

  datatype Distr =
    /** A distribution constructed directly from scalars, such as
        `NormalDistr(0, sigma)`: the class name and its arguments in order. */
    | Base(kind: string, args: seq<real>)
    /** `x + y` between two distributions (a `SumDistr`). */
    | Sum(left: Distr, right: Distr)
    /** `x * y` between two distributions. */
    | Product(left: Distr, right: Distr)
    /** `x / y` between two distributions. */
    | Quotient(left: Distr, right: Distr)
    /** `x.trunc(a, b)` (a `TruncDistr`). */
    | Truncated(inner: Distr, a: real, b: real)
    /** `x.censor(a, b)` (a `CensoredDistr`). */
    | Censored(inner: Distr, a: real, b: real)
    /** A plain number taking part in distribution arithmetic. */
    | Const(c: real)
}
