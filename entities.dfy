/**
 * The value types of internal/entities: the query of a generation request,
 * the validation its struct tags impose, and the decoded statistics key.
 * The mutable statistics table itself is `Tracker.RequestStats`.
 */
module Entities {

  /** Largest `limit` the validation tags admit (`lte=10000`). */
  const MaxLimit := 10000

  /** The five query parameters of a generation request, as bound from the query string. */
  datatype FizzBuzzRequest = FizzBuzzRequest(int1: int, int2: int, limit: int, str1: string, str2: string)

  /**
   * The struct tags `required,gt=0` on both divisors, `required,gt=0,lte=10000`
   * on the limit and `required` on both labels (a required string is non-empty).
   */
  predicate ValidRequest(req: FizzBuzzRequest)
  {
    && req.int1 > 0
    && req.int2 > 0
    && 0 < req.limit <= MaxLimit
    && req.str1 != ""
    && req.str2 != ""
  }

  /** A statistics key decoded back into its five fields. */
  datatype StatsKeys = StatsKeys(int1: int, int2: int, limit: int, str1: string, str2: string)

  /** Go's zero value of `StatsKeys`. */
  const ZeroKeys := StatsKeys(0, 0, 0, "", "")

  /**
   * The validation outcomes the handler tests rely on: a zero divisor and a
   * limit of 20000 are rejected, a limit of 100 is accepted.
   */
  lemma ValidationExamples()
    ensures !ValidRequest(FizzBuzzRequest(0, 5, 15, "fizz", "buzz"))
    ensures !ValidRequest(FizzBuzzRequest(3, 5, 20000, "fizz", "buzz"))
    ensures ValidRequest(FizzBuzzRequest(3, 5, 100, "fizz", "buzz"))
  {
  }
}
