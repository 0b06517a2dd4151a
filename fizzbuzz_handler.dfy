/**
 * The generation endpoint of internal/handlers/fizzbuzz_handler.go: bind the
 * query, default the labels, validate, generate, then count the request.
 */
module FizzBuzzHandler {
  import opened Wrappers
  import opened Entities
  import opened FizzBuzzService
  import opened Tracker

  /** Why a request was answered with status 400. */
  datatype ErrorKind = InvalidParameterFormat | ValidationError

  datatype FizzBuzzResponse =
    | BadRequest(error: ErrorKind)
    | Generated(result: seq<string>)

  /**
   * Label defaulting: an empty first label becomes "fizz" and an empty second
   * label "buzz"; non-empty labels and the three integers are left as they are.
   */
  function ApplyDefaults(req: FizzBuzzRequest): (r: FizzBuzzRequest)
    ensures r.str1 != "" && r.str2 != ""
    ensures r.int1 == req.int1 && r.int2 == req.int2 && r.limit == req.limit
    ensures req.str1 != "" ==> r.str1 == req.str1
    ensures req.str2 != "" ==> r.str2 == req.str2
    ensures req.str1 == "" ==> r.str1 == "fizz"
    ensures req.str2 == "" ==> r.str2 == "buzz"
  {
    var s1 := if req.str1 == "" then "fizz" else req.str1;
    var s2 := if req.str2 == "" then "buzz" else req.str2;
    req.(str1 := s1, str2 := s2)
  }

  /** Defaulting twice changes nothing more. */
  lemma ApplyDefaultsIdempotent(req: FizzBuzzRequest)
    ensures ApplyDefaults(ApplyDefaults(req)) == ApplyDefaults(req)
  {
  }

  /**
   * Because defaulting runs first, the `required` tags on the labels can never
   * fail: a defaulted request is valid exactly when its integers are.
   */
  lemma DefaultedValidity(req: FizzBuzzRequest)
    ensures ValidRequest(ApplyDefaults(req)) <==> req.int1 > 0 && req.int2 > 0 && 0 < req.limit <= MaxLimit
  {
  }

  /**
   * `FizzbuzzHandler`. `bound` is the outcome of binding the query string
   * (`None` when a parameter does not parse). A request that fails binding or
   * validation is answered with 400 and never reaches the table; a valid one
   * gets the generated sequence and is counted exactly once, under the key
   * of its defaulted fields.
   */
  method HandleFizzBuzz(stats: RequestStats, bound: Option<FizzBuzzRequest>) returns (resp: FizzBuzzResponse)
    requires stats.Valid()
    modifies stats
    ensures stats.Valid()
    ensures bound.None? ==> resp == BadRequest(InvalidParameterFormat) && stats.counts == old(stats.counts)
    ensures bound.Some? && !ValidRequest(ApplyDefaults(bound.value)) ==>
      resp == BadRequest(ValidationError) && stats.counts == old(stats.counts)
    ensures bound.Some? && ValidRequest(ApplyDefaults(bound.value)) ==>
      var req := ApplyDefaults(bound.value);
      && resp.Generated?
      && IsFizzBuzz(resp.result, req.int1, req.int2, req.limit, req.str1, req.str2)
      && stats.counts == Increment(old(stats.counts), EncodeKey(req))
  {
    if bound.None? {
      return BadRequest(InvalidParameterFormat);
    }
    var req := ApplyDefaults(bound.value);
    if !ValidRequest(req) {
      return BadRequest(ValidationError);
    }
    var result := GenerateFizzBuzz(req.int1, req.int2, req.limit, req.str1, req.str2);
    stats.UpdateStats(req);
    resp := Generated(result);
  }

  /** A request that is valid as bound is served and counted once under its own key. */
  method ServeValid(stats: RequestStats, req: FizzBuzzRequest)
    requires stats.Valid() && ValidRequest(req)
    modifies stats
    ensures stats.Valid()
    ensures stats.counts == Increment(old(stats.counts), EncodeKey(req))
  {
    assert ApplyDefaults(req) == req;
    var ignored := HandleFizzBuzz(stats, Some(req));
  }

  /** The same valid request served `n` times in a row. */
  method ServeRepeatedly(stats: RequestStats, req: FizzBuzzRequest, n: nat)
    requires stats.Valid() && ValidRequest(req)
    modifies stats
    ensures stats.Valid()
    ensures stats.counts == IncrementTimes(old(stats.counts), EncodeKey(req), n)
  {
    var i := 0;
    while i < n
      invariant 0 <= i <= n && stats.Valid()
      invariant stats.counts == IncrementTimes(old(stats.counts), EncodeKey(req), i)
    {
      ServeValid(stats, req);
      i := i + 1;
    }
  }

  /**
   * A request without labels on a fresh table: the sequence ends in
   * "fizzbuzz", and the request is counted once under the key of its
   * defaulted labels.
   */
  method DefaultLabelsScenario() returns (resp: FizzBuzzResponse, counts: map<string, int>)
    ensures resp.Generated? && |resp.result| == 15 && resp.result[14] == "fizzbuzz"
    ensures counts == map["3,5,15,fizz,buzz" := 1]
  {
    var stats := new RequestStats();
    var bare, classic := FizzBuzzRequest(3, 5, 15, "", ""), FizzBuzzRequest(3, 5, 15, "fizz", "buzz");
    assert ApplyDefaults(bare) == classic;
    resp := HandleFizzBuzz(stats, Some(bare));
    counts := stats.counts;
    ClassicFizzBuzz(resp.result);
    ClassicKey();
    FirstRecord(EncodeKey(classic));
  }

  /** A zero divisor is rejected with 400 and leaves the table as it was. */
  method ZeroDivisorScenario(stats: RequestStats) returns (resp: FizzBuzzResponse)
    requires stats.Valid()
    modifies stats
    ensures resp == BadRequest(ValidationError)
    ensures stats.counts == old(stats.counts)
  {
    resp := HandleFizzBuzz(stats, Some(FizzBuzzRequest(0, 5, 15, "fizz", "buzz")));
  }

  /**
   * Only `int1` given: the absent integers bind to zero, so validation fails
   * with 400 and the fresh table stays empty.
   */
  method MissingParametersScenario(int1: int) returns (resp: FizzBuzzResponse, counts: map<string, int>)
    ensures resp == BadRequest(ValidationError)
    ensures counts == map[]
  {
    var stats := new RequestStats();
    resp := HandleFizzBuzz(stats, Some(FizzBuzzRequest(int1, 0, 0, "", "")));
    counts := stats.counts;
  }
}
