# fizzbuzz-server in Dafny

This project models the core of fizzbuzz-server, an HTTP service written in Go, and proves
properties of the model. The service has two endpoints.

- `/fizzbuzz` takes two divisors `int1` and `int2`, a `limit` and two labels `str1` and `str2`.
  It returns the sequence for positions 1..limit:
  - `str1+str2` where both divisors divide the position;
  - `str1` where only the first divides it;
  - `str2` where only the second divides it;
  - the position in decimal otherwise.
- `/stats` reports the request parameters that were served most often, with their hit count.

The modelled pieces, one module each:

- **FizzBuzzService**: the generator, a method that fills an array position by position. It is
  proved against a per-position specification.
- **Entities**: the request, its validation tags (as a predicate) and the decoded statistics key.
- **Tracker**: the shared count table `RequestStats`. It is a class holding a `map<string, int>`.
  It has the `updateStats` record operation and the maximum scan of the statistics handler. Each
  lock-protected section is one atomic method.
- **FizzBuzzHandler**: bind, default the labels, validate, generate, then record.
- **StatsService**: `ParseStatsKey`, which turns a comma-joined key back into five fields.
- **StatsHandler**: the statistics answer, which is one of three things: no requests yet, the
  internal error, or the most frequent request.
- **Telemetry**: `parseResourceAttributes`, which reads a comma-separated `key=value` list.
- **Text**: the parts of Go's `strings` and `strconv` that the core uses:
  - `strings.Split`, `strings.Join` and `strings.SplitN(_, _, 2)`;
  - `strconv.Itoa` and `strconv.Atoi`.

  The model states their behaviour; for example, `strings.Split` always returns one more part than
  the string holds separators.

The order in which Go ranges over a map is unspecified. The scan models it as a choice of any
remaining key (`:|`). So every property of the statistics answer holds for every iteration order;
on a tie, any maximal key may be reported.

## Model

| member | source | states |
|---|---|---|
| FizzBuzzService.GenerateFizzBuzz | internal/services/fizbuzz_service.go:12-27 | the result has exactly `limit` elements, and element i-1 is str1+str2, str1, str2 or the decimal of i, by the two divisibility tests at position i |
| FizzBuzzService.FizzBuzzPositions | internal/services/fizbuzz_service.go:15-24 | the four cases one by one; in the default case the element parses back to its position and has no sign and no leading zero |
| FizzBuzzService.FizzBuzzDeterministic | internal/services/fizbuzz_service.go:5-14 | the service keeps no state: two outputs for the same arguments are equal |
| FizzBuzzService.UnitDivisorsConcatenate | internal/services/fizbuzz_service.go:16-17 | with both divisors 1 every element is str1+str2, with no separator |
| FizzBuzzService.ThreeFiveFifteen | internal/handlers/fizzbuzz_handler_test.go:246-260 | divisors 3 and 5 over 15 positions give 1, 2, s1, 4, s2, s1, 7, 8, s1, s2, 11, s1, 13, 14, s1s2 for any labels s1 and s2; with hello/world the list ends in helloworld |
| FizzBuzzService.ClassicFizzBuzz | internal/handlers/fizzbuzz_handler_test.go:64-78 | (3, 5, 15, fizz, buzz) gives 1, 2, fizz, 4, buzz, fizz, 7, 8, fizz, buzz, 11, fizz, 13, 14, fizzbuzz |
| Entities.ValidationExamples | internal/handlers/fizzbuzz_handler_test.go:108-217 | int1 = 0 and limit = 20000 are rejected; limit = 100 is accepted |
| FizzBuzzHandler.ApplyDefaults | internal/handlers/fizzbuzz_handler.go:48-53 | an empty str1 becomes "fizz" and an empty str2 becomes "buzz"; non-empty labels and the three integers are unchanged |
| FizzBuzzHandler.ApplyDefaultsIdempotent | internal/handlers/fizzbuzz_handler.go:48-53 | defaulting twice is the same as defaulting once |
| FizzBuzzHandler.DefaultedValidity | internal/entities/fizzbuzz.go:13-17 | a defaulted request is valid exactly when int1 > 0, int2 > 0 and 0 < limit <= 10000, so the label tags never fail |
| FizzBuzzHandler.HandleFizzBuzz | internal/handlers/fizzbuzz_handler.go:22-95 | a request that fails binding or validation gets 400 and leaves the table unchanged; a valid one gets the generated sequence of its defaulted fields and is counted exactly once, under the key of those fields |
| FizzBuzzHandler.DefaultLabelsScenario | internal/handlers/fizzbuzz_handler_test.go:135-163 | (3, 5, 15) without labels gives 15 elements ending in fizzbuzz, and the table becomes {"3,5,15,fizz,buzz": 1} |
| FizzBuzzHandler.ZeroDivisorScenario | internal/handlers/fizzbuzz_handler_test.go:108-133 | int1 = 0 is answered with a validation error, and the table is unchanged |
| FizzBuzzHandler.MissingParametersScenario | internal/handlers/fizzbuzz_handler_test.go:81-106 | a query with only int1 is answered with a validation error, and the fresh table stays empty |
| Tracker.EncodeKey | internal/handlers/fizzbuzz_handler.go:116-122 | the key holds exactly four commas plus those of the two labels |
| Tracker.JoinFive | internal/handlers/fizzbuzz_handler.go:116-122 | the key is Itoa(int1) "," Itoa(int2) "," Itoa(limit) "," str1 "," str2 |
| Tracker.NoCommaInInt | internal/handlers/fizzbuzz_handler.go:117-119 | the decimal form of an integer holds no comma |
| Tracker.ClassicKey | internal/handlers/fizzbuzz_handler.go:116-122 | the request (3, 5, 15, fizz, buzz) is counted under "3,5,15,fizz,buzz" |
| Tracker.CountOf | internal/handlers/fizzbuzz_handler.go:123 | reading a key absent from the Go map gives the zero value 0 |
| Tracker.CountedIffPresent | internal/handlers/fizzbuzz_handler.go:123 | in a table of positive counts, a key's count is never negative, and it is at least 1 exactly when the key is present |
| Tracker.Increment | internal/handlers/fizzbuzz_handler.go:123 | `Counts[key]++`: the table gains the key if absent, and the key's count becomes its old count (0 when absent) plus one |
| Tracker.FirstRecord | internal/handlers/fizzbuzz_handler.go:123 | the first record into an empty table gives the table {key: 1} |
| Tracker.IncrementEffect | internal/handlers/fizzbuzz_handler.go:123 | a record raises its key's count by exactly one, inserting it at 1 when absent; no other key changes; the table gains a key exactly when the key was new |
| Tracker.IncrementKeepsPositive | internal/handlers/fizzbuzz_handler.go:123 | after a record, every count in the table is still at least 1 |
| Tracker.IncrementCommutes | internal/handlers/fizzbuzz_handler.go:123 | two records give the same table in either order |
| Tracker.MostFrequentOfTwo | internal/handlers/stats_handler.go:54-61 | in a table of two keys, a maximal key is one of them, and it is the first one when that one's count is strictly larger |
| Tracker.IncrementTimesEffect | internal/handlers/fizzbuzz_handler.go:123 | n records of a key raise its count by exactly n and change no other key |
| Tracker.IncrementTimesUpdate | internal/handlers/fizzbuzz_handler.go:123 | n >= 1 records of a key set its count to its old count (zero when absent) plus n |
| Tracker.RequestStats.constructor | internal/handlers/handler.go:5-7 | the process starts with an empty table |
| Tracker.RequestStats.UpdateStats | internal/handlers/fizzbuzz_handler.go:112-124 | the new table is the old one with the request key's count raised by one; all counts stay positive |
| Tracker.RequestStats.FindMostFrequent | internal/handlers/stats_handler.go:54-61 | for any iteration order: maxCount is at least every count; a positive maxCount is the count of maxKey, which is in the table; on a non-empty table of positive counts, maxKey is a key holding a largest count |
| StatsService.ParseStatsKey | internal/services/stats_service.go:17-44 | a key without exactly five comma-separated parts is rejected; every error returns the zero StatsKeys; on success int1, int2 and limit are the Atoi values of parts 0, 1 and 2 and the labels are the last two parts verbatim, holding no comma; conversely a key of five parts whose first three are integers decodes without error |
| StatsService.DecodeParts | internal/services/stats_service.go:24-41 | on five parts: any failed conversion returns the zero StatsKeys with an error; on success the three integers are the Atoi values of parts 0-2 and the labels are parts 3 and 4; when parts 0-2 all convert there is no error |
| StatsService.KeyRoundTrip | internal/services/stats_service.go:17-44 | decoding the key of a request whose labels hold no comma gives back exactly its five fields, with no error |
| StatsService.CommaLabelBreaksDecoding | internal/services/stats_service.go:19-22 | a comma in either label makes the key split into more than five parts, so decoding fails with the format error |
| StatsService.EncodedKeyDecodes | internal/services/stats_service.go:17-44 | the key of a request decodes exactly when neither label holds a comma |
| StatsService.EncodeKeyInjective | internal/handlers/fizzbuzz_handler.go:116-122 | for comma-free labels, two requests share a key only when all five fields agree |
| StatsService.EncodeKeyCollision | internal/handlers/fizzbuzz_handler.go:116-122 | moving a comma from the end of str1 to the start of str2 keeps the key (for example "a,b"/"c" and "a"/"b,c") |
| StatsService.EmptyKeyRejected | internal/services/stats_service.go:19-22 | the empty key is rejected with the format error and the zero StatsKeys |
| StatsService.NonIntegerPartRejected | internal/services/stats_service.go:24-35 | a five-part key whose first, second or third part is not an integer is rejected, naming the first such part, with the zero StatsKeys |
| StatsHandler.Stats | internal/handlers/stats_handler.go:18-120 | the answer is "no requests yet" exactly when the table is empty; otherwise it is built from some key holding a largest count: its decoded fields with hits equal to that count, or the internal error when that key does not decode; the table is only read |
| StatsHandler.NoInternalErrorWhenKeysDecode | internal/handlers/stats_handler.go:70-86 | for every answer the query may give on a table whose keys all decode, that answer is not the internal error |
| StatsHandler.CommaKeyAnswer | internal/handlers/stats_handler.go:70-86 | a table holding only the key of a request with a comma in a label is answered with the internal error |
| StatsHandler.OnlyKey | internal/handlers/stats_handler.go:54-61 | in a table of one key, the most frequent key is that key |
| StatsHandler.NoRequestsScenario | internal/handlers/stats_handler_test.go:16-45 | a fresh table answers "no requests yet" |
| StatsHandler.ThreeToOneScenario | internal/handlers/stats_handler_test.go:47-94 | request A served three times and a different request B once: A is reported with 3 hits |
| StatsHandler.TieScenario | internal/handlers/stats_handler_test.go:96-155 | two requests served twice each: one of them is reported with 2 hits |
| StatsHandler.CommaLabelScenario | internal/handlers/stats_handler.go:70-86 | a valid request with a comma in a label is recorded; the query then answers with the internal error |
| StatsHandler.DistinctKeys | internal/handlers/fizzbuzz_handler.go:116-122 | two different valid requests with comma-free labels get different keys, and both keys decode |
| StatsHandler.AnswerOfTwo | internal/handlers/stats_handler.go:54-98 | a table of two distinct keys that both decode is answered with the report of one of them and its own count, and of the first when its count is strictly larger |
| StatsHandler.AnswerOfOne | internal/handlers/stats_handler.go:54-98 | a table of one key is answered with that key's report, or with the internal error when the key does not decode |
| StatsHandler.ServeBoth | internal/handlers/fizzbuzz_handler.go:84 | serving a valid request n times, then a request with another key m times, leaves a fresh table with exactly those two counts |
| Telemetry.ParseResourceAttributes | internal/telemetry/otel.go:80-96 | the empty string gives no attributes; otherwise there is one attribute per comma-separated segment holding an '=', in segment order |
| Telemetry.PairOf | internal/telemetry/otel.go:88-93 | a segment without '=' is skipped; otherwise key "=" value is the segment and the key holds no '=' |
| Telemetry.PairsStep | internal/telemetry/otel.go:87-94 | one more segment appends its attribute at the end, or nothing when it holds no '=' |
| Telemetry.PairOfSplitsAtFirstEquals | internal/telemetry/otel.go:88-93 | a segment is split at its first '=': the value keeps later '=' and the key may be empty (as in "=x"), with no trimming |
| Telemetry.PairsAppend | internal/telemetry/otel.go:86-94 | parsing two runs of segments one after the other concatenates their attributes, so order is kept |
| Telemetry.PairsFromSegments | internal/telemetry/otel.go:86-94 | there are never more attributes than segments, and each attribute's key=value is one of the segments |
| Telemetry.PairsSkipsPlainSegments | internal/telemetry/otel.go:88-91 | segments without '=' give no attributes |
| Telemetry.PairsOfSegments | internal/telemetry/otel.go:86-94 | parsing the key=value segments of a list of attributes gives that list back, when keys hold no ',' or '=' and values hold no ',' |
| Telemetry.AttributesRoundTrip | internal/telemetry/otel.go:80-96 | printing attributes as k1=v1,k2=v2,... and parsing the text gives them back, under the same conditions |
| Text.Split | internal/services/stats_service.go:19 | `strings.Split`: one more part than separators, no part holds the separator, and joining the parts gives the input back |
| Text.SplitJoin | internal/services/stats_service.go:19 | splitting a join of separator-free parts gives the parts back |
| Text.SplitFirst | internal/telemetry/otel.go:88 | `strings.SplitN(s, "=", 2)`: nothing when there is no separator, otherwise the text before the first separator and the text after it |
| Text.FirstSeparatorAfter | internal/telemetry/otel.go:88 | the first separator of p + sep + q is the one after p when p holds none |
| Text.IndexOf | internal/telemetry/otel.go:88 | the position of the first occurrence of a character |
| Text.NatToString | internal/services/fizbuzz_service.go:23 | `strconv.Itoa` of a natural number: decimal digits with a leading '0' only for zero |
| Text.IntToString | internal/handlers/fizzbuzz_handler.go:117-119 | `strconv.Itoa`: digits, with a leading '-' exactly for negative values |
| Text.ParseInt | internal/services/stats_service.go:24-35 | `strconv.Atoi`: a result exactly for an optional '+' or '-' followed by one or more decimal digits; the value is that of the digits, negated after '-' |
| Text.JoinShape | internal/handlers/fizzbuzz_handler.go:116-122 | `strings.Join`: the result starts with the first part and is as long as all parts plus one separator between each two consecutive parts |
| Text.IntStringRoundTrip | internal/services/stats_service.go:24-35 | `Atoi(Itoa(i)) == i` for every integer |
| Text.NatStringRoundTrip | internal/services/fizbuzz_service.go:23 | decimal printing and parsing are inverse on the naturals |

## Left out

- Locking: the `RWMutex` calls are left out. Each critical section is one atomic method on the
  class, so concurrent interleavings are not modelled.
- HTTP and Fiber: query binding is a parameter, `None` when a parameter does not parse. JSON
  rendering, status codes and error message texts are left out; the outcome datatypes keep only
  which branch answered.
- Validator library: the `go-playground/validator` engine is replaced by the predicate
  `Entities.ValidRequest`, and its error messages are not modelled.
- Prometheus metrics, OpenTelemetry spans and attributes in the handlers, and the tracer provider
  set-up in otel.go (lines 23-77) are I/O, and are left out.
- Configuration, logging and application bootstrap are left out. This covers
  internal/config/config.go, pkg/ulog/logger.go and internal/apps/fizzbuzz_app.go.
- Text.ParseInt: does not reject values outside Go's 64-bit `int` range (`strconv.Atoi`'s range
  error), because every key the handler builds holds integers that already fit.
- Tracker.RequestStats.UpdateStats: counts are unbounded integers, so the wrap-around of Go's
  64-bit counter after 2^63 records is not modelled.
- Go's nil slice and the empty slice are both the empty sequence here. This concerns the
  `nil` of `parseResourceAttributes` and the empty generator result.
- StatsHandler.Stats: on an empty table the handler's JSON has no `most_frequent_request` object.
  The statistics test reads its hits as 0 from the decoder's zero value. The model answers
  `NoRequestsYet` and says nothing about JSON decoding.
- The package-level `stats` variable is one `RequestStats` object that the handler methods
  receive as a parameter, not a global.
- Test order: the Go tests of both handlers share that one package-level table (handler.go:5-7).
  Read as text (not executed), the statistics tests therefore start from the table the earlier
  `/fizzbuzz` tests left behind. For example, `TestStatsHandler_NoRequests` would find 2 hits on
  "3,5,15,fizz,buzz" rather than no requests. `NoRequestsScenario`, `ThreeToOneScenario` and
  `TieScenario` start from a fresh table. They follow the tests' stated intent ("to ensure clean
  stats", stats_handler_test.go:17), not their literal behaviour when run in sequence.
