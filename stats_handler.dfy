/**
 * The statistics endpoint of internal/handlers/stats_handler.go: under the
 * read lock, report the request with the most hits, decoded from its key.
 */
module StatsHandler {
  import opened Wrappers
  import opened Entities
  import opened Tracker
  import opened StatsService
  import opened FizzBuzzHandler

  /** The `most_frequent_request` object of a successful answer. */
  datatype StatsResponse = StatsResponse(int1: int, int2: int, limit: int, str1: string, str2: string, hits: int)

  datatype StatsOutcome =
    | NoRequestsYet                   // "No requests have been made yet", status 200
    | InternalStatsError              // "Internal stats error", status 500
    | MostFrequent(response: StatsResponse)

  /** `resp` carries the decoded fields of `key` and `hits` as its hit count. */
  ghost predicate Reports(resp: StatsResponse, key: string, hits: int)
  {
    var parsed := ParseStatsKey(key);
    && parsed.err.None?
    && resp == StatsResponse(parsed.keys.int1, parsed.keys.int2, parsed.keys.limit,
                             parsed.keys.str1, parsed.keys.str2, hits)
  }

  /**
   * What the statistics query may answer for a table. An empty table answers
   * "no requests yet". Otherwise the answer is built from SOME key holding
   * the largest count (which one, among ties, is not specified): its decoded
   * fields and its count, or the internal error when that key does not decode.
   */
  ghost predicate Answers(counts: map<string, int>, outcome: StatsOutcome)
  {
    && (outcome.NoRequestsYet? <==> |counts| == 0)
    && (outcome.MostFrequent? ==>
          exists key :: IsMostFrequent(counts, key) && Reports(outcome.response, key, counts[key]))
    && (outcome.InternalStatsError? ==>
          exists key :: IsMostFrequent(counts, key) && ParseStatsKey(key).err.Some?)
  }

  /** `Stats`: answers as `Answers` allows, and only reads the table. */
  method Stats(stats: RequestStats) returns (outcome: StatsOutcome)
    requires stats.Valid()
    ensures Answers(stats.counts, outcome)
  {
    if |stats.counts| == 0 {
      return NoRequestsYet;
    }
    var maxKey, maxCount := stats.FindMostFrequent();
    var parsed := ParseStatsKey(maxKey);
    if parsed.err.Some? {
      return InternalStatsError;
    }
    var keys := parsed.keys;
    outcome := MostFrequent(StatsResponse(keys.int1, keys.int2, keys.limit, keys.str1, keys.str2, maxCount));
  }

  /** When every recorded key decodes, the statistics query never answers with the internal error. */
  lemma NoInternalErrorWhenKeysDecode(counts: map<string, int>, outcome: StatsOutcome)
    requires forall k :: k in counts ==> ParseStatsKey(k).err.None?
    requires Answers(counts, outcome)
    ensures !outcome.InternalStatsError?
  {
  }

  /** A fresh table has no statistics to report. */
  method NoRequestsScenario() returns (outcome: StatsOutcome)
    ensures outcome == NoRequestsYet
  {
    var stats := new RequestStats();
    outcome := Stats(stats);
  }

  /** The conditions under which a request is served and later reported back unchanged. */
  ghost predicate Reportable(req: FizzBuzzRequest)
  {
    ValidRequest(req) && ',' !in req.str1 && ',' !in req.str2
  }

  /**
   * Request `a` served three times and a different request `b` once (the
   * tests use (3, 5, 15, fizz, buzz) and (2, 7, 10, hello, world)): `a` is
   * reported, with 3 hits.
   */
  method ThreeToOneScenario(a: FizzBuzzRequest, b: FizzBuzzRequest) returns (outcome: StatsOutcome)
    requires Reportable(a) && Reportable(b) && a != b
    ensures outcome == MostFrequent(StatsResponse(a.int1, a.int2, a.limit, a.str1, a.str2, 3))
  {
    DistinctKeys(a, b);
    var stats := ServeBoth(a, b, 3, 1);
    outcome := Stats(stats);
    AnswerOfTwo(EncodeKey(a), EncodeKey(b), 3, 1, outcome);
  }

  /**
   * Two different requests served twice each: either may be reported, with
   * 2 hits; which one depends on the unspecified scan order.
   */
  method TieScenario(a: FizzBuzzRequest, b: FizzBuzzRequest) returns (outcome: StatsOutcome)
    requires Reportable(a) && Reportable(b) && a != b
    ensures outcome == MostFrequent(StatsResponse(a.int1, a.int2, a.limit, a.str1, a.str2, 2))
         || outcome == MostFrequent(StatsResponse(b.int1, b.int2, b.limit, b.str1, b.str2, 2))
  {
    DistinctKeys(a, b);
    var stats := ServeBoth(a, b, 2, 2);
    outcome := Stats(stats);
    AnswerOfTwo(EncodeKey(a), EncodeKey(b), 2, 2, outcome);
  }

  /** A fresh table after serving `a` `n` times and then `b` `m` times. */
  method ServeBoth(a: FizzBuzzRequest, b: FizzBuzzRequest, n: nat, m: nat) returns (stats: RequestStats)
    requires ValidRequest(a) && ValidRequest(b) && EncodeKey(a) != EncodeKey(b)
    requires n >= 1 && m >= 1
    ensures fresh(stats) && stats.Valid()
    ensures stats.counts == map[EncodeKey(a) := n, EncodeKey(b) := m]
  {
    stats := new RequestStats();
    ServeRepeatedly(stats, a, n);
    ServeRepeatedly(stats, b, m);
    TwoKeysRecorded(EncodeKey(a), EncodeKey(b), n, m);
  }

  lemma TwoKeysRecorded(ka: string, kb: string, n: nat, m: nat)
    requires ka != kb && n >= 1 && m >= 1
    ensures IncrementTimes(IncrementTimes(map[], ka, n), kb, m) == map[ka := n, kb := m]
  {
    IncrementTimesUpdate(map[], ka, n);
    IncrementTimesUpdate(map[ka := n], kb, m);
  }

  /**
   * The answer for a table of two distinct keys that both decode: one of the
   * two keys, with its own count, and the first when its count is larger.
   */
  lemma AnswerOfTwo(k1: string, k2: string, n1: int, n2: int, outcome: StatsOutcome)
    requires k1 != k2 && ParseStatsKey(k1).err.None? && ParseStatsKey(k2).err.None?
    requires Answers(map[k1 := n1, k2 := n2], outcome)
    ensures outcome.MostFrequent?
    ensures Reports(outcome.response, k1, n1) || Reports(outcome.response, k2, n2)
    ensures n1 > n2 ==> Reports(outcome.response, k1, n1)
  {
    var counts := map[k1 := n1, k2 := n2];
    assert k1 in counts;
    if outcome.InternalStatsError? {
      var key :| IsMostFrequent(counts, key) && ParseStatsKey(key).err.Some?;
      MostFrequentOfTwo(k1, k2, n1, n2, key);
      assert false;
    }
    var key :| IsMostFrequent(counts, key) && Reports(outcome.response, key, counts[key]);
    MostFrequentOfTwo(k1, k2, n1, n2, key);
  }

  /** The keys of two different comma-free requests with non-empty labels differ and decode back. */
  lemma DistinctKeys(a: FizzBuzzRequest, b: FizzBuzzRequest)
    requires Reportable(a) && Reportable(b) && a != b
    ensures EncodeKey(a) != EncodeKey(b)
    ensures ParseStatsKey(EncodeKey(a)) == ParsedKey(KeysOf(a), None)
    ensures ParseStatsKey(EncodeKey(b)) == ParsedKey(KeysOf(b), None)
  {
    KeyRoundTrip(a);
    KeyRoundTrip(b);
  }

  /**
   * A valid request whose label holds a comma is counted under a key that
   * does not decode; once it is the most frequent, the query answers with
   * the internal error.
   */
  method CommaLabelScenario(c: FizzBuzzRequest) returns (outcome: StatsOutcome)
    requires ValidRequest(c) && (',' in c.str1 || ',' in c.str2)
    ensures outcome == InternalStatsError
  {
    var stats := new RequestStats();
    ServeValid(stats, c);
    FirstRecord(EncodeKey(c));
    outcome := Stats(stats);
    CommaKeyAnswer(c, outcome);
  }

  /** The query on a table holding only the key of a request with a comma in a label. */
  lemma CommaKeyAnswer(c: FizzBuzzRequest, outcome: StatsOutcome)
    requires ',' in c.str1 || ',' in c.str2
    requires Answers(map[EncodeKey(c) := 1], outcome)
    ensures outcome == InternalStatsError
  {
    var k := EncodeKey(c);
    CommaLabelBreaksDecoding(c);
    AnswerOfOne(k, 1, outcome);
  }

  /** The answer for a table of a single key: that key's report, or the internal error when it does not decode. */
  lemma AnswerOfOne(k: string, n: int, outcome: StatsOutcome)
    requires Answers(map[k := n], outcome)
    ensures ParseStatsKey(k).err.Some? ==> outcome == InternalStatsError
    ensures ParseStatsKey(k).err.None? ==> outcome.MostFrequent? && Reports(outcome.response, k, n)
  {
    var counts := map[k := n];
    assert k in counts;
    if outcome.MostFrequent? {
      var key :| IsMostFrequent(counts, key) && Reports(outcome.response, key, counts[key]);
      OnlyKey(k, n, key);
    } else if outcome.InternalStatsError? {
      var key :| IsMostFrequent(counts, key) && ParseStatsKey(key).err.Some?;
      OnlyKey(k, n, key);
    }
  }

  lemma OnlyKey(k: string, n: int, key: string)
    requires IsMostFrequent(map[k := n], key)
    ensures key == k
  {
  }
}
