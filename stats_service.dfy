/**
 * The statistics-key decoder of internal/services/stats_service.go, and how
 * it relates to the key encoding of the FizzBuzz handler.
 */
module StatsService {
  import opened Wrappers
  import opened Text
  import opened Entities
  import Tracker

  /** Why a key could not be decoded. */
  datatype KeyError =
    | InvalidFormat           // the key does not split into five comma-separated parts
    | InvalidInteger(part: string)  // `strconv.Atoi` rejected this part

  /** Go's `(StatsKeys, error)` pair. */
  datatype ParsedKey = ParsedKey(keys: StatsKeys, err: Option<KeyError>)

  /**
   * `ParseStatsKey`. The first three parts must be integers and become the
   * divisors and the limit; the last two become the labels verbatim. On any
   * error the keys are Go's zero value; on success neither label holds a comma.
   */
  function ParseStatsKey(key: string): (r: ParsedKey)
    ensures r.err.Some? ==> r.keys == ZeroKeys
    ensures |Split(key, ',')| != 5 ==> r.err == Some(InvalidFormat)
    ensures r.err.None? ==> ',' !in r.keys.str1 && ',' !in r.keys.str2
    ensures r.err.None? ==> Split(key, ',')[3..] == [r.keys.str1, r.keys.str2]
    ensures r.err.None? ==>
      var parts := Split(key, ',');
      && ParseInt(parts[0]) == Some(r.keys.int1)
      && ParseInt(parts[1]) == Some(r.keys.int2)
      && ParseInt(parts[2]) == Some(r.keys.limit)
    ensures (var parts := Split(key, ',');
             |parts| == 5 && ParseInt(parts[0]).Some? && ParseInt(parts[1]).Some? && ParseInt(parts[2]).Some?)
            ==> r.err.None?
  {
    var parts := Split(key, ',');
    if |parts| != 5 then ParsedKey(ZeroKeys, Some(InvalidFormat))
    else DecodeParts(parts)
  }

  /** The conversions of `ParseStatsKey` on its five parts, in part order. */
  function DecodeParts(parts: seq<string>): (r: ParsedKey)
    requires |parts| == 5
    ensures r.err.Some? ==> r.keys == ZeroKeys
    ensures r.err.None? ==> parts[3..] == [r.keys.str1, r.keys.str2]
    ensures r.err.None? ==>
      && ParseInt(parts[0]) == Some(r.keys.int1)
      && ParseInt(parts[1]) == Some(r.keys.int2)
      && ParseInt(parts[2]) == Some(r.keys.limit)
    ensures ParseInt(parts[0]).Some? && ParseInt(parts[1]).Some? && ParseInt(parts[2]).Some? ==> r.err.None?
  {
    match (ParseInt(parts[0]), ParseInt(parts[1]), ParseInt(parts[2]))
    case (None, _, _) => ParsedKey(ZeroKeys, Some(InvalidInteger(parts[0])))
    case (Some(_), None, _) => ParsedKey(ZeroKeys, Some(InvalidInteger(parts[1])))
    case (Some(_), Some(_), None) => ParsedKey(ZeroKeys, Some(InvalidInteger(parts[2])))
    case (Some(int1), Some(int2), Some(limit)) =>
      ParsedKey(StatsKeys(int1, int2, limit, parts[3], parts[4]), None)
  }

  /** The fields of a request, as the decoder returns them. */
  function KeysOf(req: FizzBuzzRequest): StatsKeys
  {
    StatsKeys(req.int1, req.int2, req.limit, req.str1, req.str2)
  }

  /**
   * Round trip: the key the handler builds for a request decodes to exactly
   * that request's five fields, provided neither label holds a comma.
   */
  lemma KeyRoundTrip(req: FizzBuzzRequest)
    requires ',' !in req.str1 && ',' !in req.str2
    ensures ParseStatsKey(Tracker.EncodeKey(req)) == ParsedKey(KeysOf(req), None)
  {
    var a, b, c := IntToString(req.int1), IntToString(req.int2), IntToString(req.limit);
    Tracker.NoCommaInInt(req.int1);
    Tracker.NoCommaInInt(req.int2);
    Tracker.NoCommaInInt(req.limit);
    assert ',' !in multiset(a) && ',' !in multiset(b) && ',' !in multiset(c);
    var parts := [a, b, c, req.str1, req.str2];
    SplitJoin(parts, ',');
    IntStringRoundTrip(req.int1);
    IntStringRoundTrip(req.int2);
    IntStringRoundTrip(req.limit);
  }

  /** A comma inside either label adds a sixth part, so the key no longer decodes. */
  lemma CommaLabelBreaksDecoding(req: FizzBuzzRequest)
    requires ',' in req.str1 || ',' in req.str2
    ensures ParseStatsKey(Tracker.EncodeKey(req)) == ParsedKey(ZeroKeys, Some(InvalidFormat))
  {
    assert ',' in multiset(req.str1) || ',' in multiset(req.str2);
  }

  /** Decoding succeeds on the key of a request exactly when neither label holds a comma. */
  lemma EncodedKeyDecodes(req: FizzBuzzRequest)
    ensures ParseStatsKey(Tracker.EncodeKey(req)).err.None? <==> ',' !in req.str1 && ',' !in req.str2
  {
    if ',' !in req.str1 && ',' !in req.str2 {
      KeyRoundTrip(req);
    } else {
      CommaLabelBreaksDecoding(req);
    }
  }

  /** For comma-free labels, two requests share a key only when all five fields agree. */
  lemma EncodeKeyInjective(x: FizzBuzzRequest, y: FizzBuzzRequest)
    requires ',' !in x.str1 && ',' !in x.str2 && ',' !in y.str1 && ',' !in y.str2
    requires Tracker.EncodeKey(x) == Tracker.EncodeKey(y)
    ensures x == y
  {
    KeyRoundTrip(x);
    KeyRoundTrip(y);
  }

  /**
   * With commas in the labels the encoding is not injective: moving the
   * comma between `x` and `y` from the end of the first label to the start
   * of the second yields the same key (e.g. "a,b" and "c" against "a" and
   * "b,c").
   */
  lemma EncodeKeyCollision(req: FizzBuzzRequest, x: string, y: string)
    requires req.str1 == x + [','] + y
    ensures Tracker.EncodeKey(req) == Tracker.EncodeKey(req.(str1 := x, str2 := y + [','] + req.str2))
  {
    var moved := req.(str1 := x, str2 := y + [','] + req.str2);
    assert req.str1 + [','] + req.str2 == moved.str1 + [','] + moved.str2;
    SameLabelTextSameJoin(IntToString(req.int1), IntToString(req.int2), IntToString(req.limit),
                          req.str1, req.str2, moved.str1, moved.str2, ',');
  }

  /** Only the text `d sep e` of the last two pieces matters to a five-piece join. */
  lemma SameLabelTextSameJoin(a: string, b: string, c: string, d: string, e: string, d2: string, e2: string, sep: char)
    requires d + [sep] + e == d2 + [sep] + e2
    ensures Join([a, b, c, d, e], sep) == Join([a, b, c, d2, e2], sep)
  {
    Tracker.JoinFive(a, b, c, d, e, sep);
    Tracker.JoinFive(a, b, c, d2, e2, sep);
  }

  /** The empty key has a single part and is rejected. */
  lemma EmptyKeyRejected()
    ensures ParseStatsKey("") == ParsedKey(ZeroKeys, Some(InvalidFormat))
  {
    assert |Split("", ',')| == 1;
  }

  /**
   * A key with five parts whose first, second or third part is not an
   * integer is rejected, naming the first such part.
   */
  lemma NonIntegerPartRejected(p0: string, p1: string, p2: string, p3: string, p4: string)
    requires forall p :: p in [p0, p1, p2, p3, p4] ==> ',' !in p
    requires ParseInt(p0) == None || ParseInt(p1) == None || ParseInt(p2) == None
    ensures var r := ParseStatsKey(Join([p0, p1, p2, p3, p4], ','));
      && r.keys == ZeroKeys
      && r.err == Some(InvalidInteger(if ParseInt(p0) == None then p0 else if ParseInt(p1) == None then p1 else p2))
  {
    SplitJoin([p0, p1, p2, p3, p4], ',');
  }
}
