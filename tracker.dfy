/**
 * The request-frequency table of internal/handlers: the package-level
 * `stats` value (a `RequestStats` from internal/entities), the key under
 * which `updateStats` counts a request, and the two critical sections that
 * touch the table, each modelled as one atomic method.
 */
module Tracker {
  import opened Text
  import opened Entities

  /**
   * The statistics key of a request: its three integers in decimal and its
   * two labels, joined by commas. Each label adds its own commas to the four
   * separators; the integers add none.
   */
  function EncodeKey(req: FizzBuzzRequest): (key: string)
    ensures multiset(key)[','] == 4 + multiset(req.str1)[','] + multiset(req.str2)[',']
  {
    var a, b, c := IntToString(req.int1), IntToString(req.int2), IntToString(req.limit);
    JoinFive(a, b, c, req.str1, req.str2, ',');
    NoCommaInInt(req.int1);
    NoCommaInInt(req.int2);
    NoCommaInInt(req.limit);
    Join([a, b, c, req.str1, req.str2], ',')
  }

  /** Joining five pieces puts one separator between consecutive pieces. */
  lemma JoinFive(a: string, b: string, c: string, d: string, e: string, sep: char)
    ensures Join([a, b, c, d, e], sep) == a + [sep] + (b + [sep] + (c + [sep] + (d + [sep] + e)))
    ensures multiset(Join([a, b, c, d, e], sep))[sep] ==
      4 + multiset(a)[sep] + multiset(b)[sep] + multiset(c)[sep] + multiset(d)[sep] + multiset(e)[sep]
  {
    JoinCons(d, [e], sep);
    JoinCons(c, [d, e], sep);
    JoinCons(b, [c, d, e], sep);
    JoinCons(a, [b, c, d, e], sep);
    CountAroundSeparator(d, e, sep);
    CountAroundSeparator(c, d + [sep] + e, sep);
    CountAroundSeparator(b, c + [sep] + (d + [sep] + e), sep);
    CountAroundSeparator(a, b + [sep] + (c + [sep] + (d + [sep] + e)), sep);
  }

  lemma JoinCons(x: string, rest: seq<string>, sep: char)
    requires |rest| >= 1
    ensures Join([x] + rest, sep) == x + [sep] + Join(rest, sep)
  {
    assert ([x] + rest)[1..] == rest;
  }

  lemma CountAroundSeparator(x: string, y: string, sep: char)
    ensures multiset(x + [sep] + y)[sep] == multiset(x)[sep] + 1 + multiset(y)[sep]
  {
    assert multiset(x + [sep] + y) == multiset(x) + multiset([sep]) + multiset(y);
  }

  /** The key of the classic request, as the statistics tests see it. */
  lemma ClassicKey()
    ensures EncodeKey(FizzBuzzRequest(3, 5, 15, "fizz", "buzz")) == "3,5,15,fizz,buzz"
  {
    var req := FizzBuzzRequest(3, 5, 15, "fizz", "buzz");
    assert IntToString(3) == "3" && IntToString(5) == "5";
    assert IntToString(15) == NatToString(1) + [DigitChar(5)] == "15";
    assert EncodeKey(req) == Join(["3", "5", "15", "fizz", "buzz"], ',');
    JoinFive("3", "5", "15", "fizz", "buzz", ',');
    ClassicKeyText();
  }

  lemma ClassicKeyText()
    ensures "3" + [','] + ("5" + [','] + ("15" + [','] + ("fizz" + [','] + "buzz"))) == "3,5,15,fizz,buzz"
  {
    assert "fizz" + [','] + "buzz" == "fizz,buzz";
    assert "15" + [','] + "fizz,buzz" == "15,fizz,buzz";
    assert "5" + [','] + "15,fizz,buzz" == "5,15,fizz,buzz";
    assert "3" + [','] + "5,15,fizz,buzz" == "3,5,15,fizz,buzz";
  }

  /** The decimal form of an integer holds no comma. */
  lemma NoCommaInInt(i: int)
    ensures multiset(IntToString(i))[','] == 0
  {
    var s := IntToString(i);
    assert ',' !in s;
    assert ',' !in multiset(s);
  }

  /** Go's map read: the stored count, or the zero value for an absent key. */
  function CountOf(counts: map<string, int>, key: string): (n: int)
    ensures key !in counts ==> n == 0
  {
    if key in counts then counts[key] else 0
  }

  /** `Counts[key]++`: an absent key is inserted at 1. */
  function Increment(counts: map<string, int>, key: string): (r: map<string, int>)
    ensures r.Keys == counts.Keys + {key}
    ensures r[key] == CountOf(counts, key) + 1
  {
    counts[key := CountOf(counts, key) + 1]
  }

  /** The table invariant: every key present has been counted at least once. */
  ghost predicate AllPositive(counts: map<string, int>)
  {
    forall k :: k in counts ==> counts[k] >= 1
  }

  /** In a table that keeps its invariant, a key reads as counted exactly when it is present. */
  lemma CountedIffPresent(counts: map<string, int>, key: string)
    requires AllPositive(counts)
    ensures CountOf(counts, key) >= 0
    ensures CountOf(counts, key) >= 1 <==> key in counts
  {
  }

  /** `key` holds a largest count of the table. */
  ghost predicate IsMostFrequent(counts: map<string, int>, key: string)
  {
    key in counts && forall k :: k in counts ==> counts[k] <= counts[key]
  }

  /**
   * A record adds exactly one to its own key, leaves every other key as it
   * was, and grows the table by one key exactly when the key was new.
   */
  lemma IncrementEffect(counts: map<string, int>, key: string)
    ensures CountOf(Increment(counts, key), key) == CountOf(counts, key) + 1
    ensures forall k :: k != key ==> CountOf(Increment(counts, key), k) == CountOf(counts, k)
    ensures Increment(counts, key).Keys == counts.Keys + {key}
    ensures |Increment(counts, key)| == if key in counts then |counts| else |counts| + 1
  {
    var r := Increment(counts, key);
    if key !in counts {
      assert r.Keys == counts.Keys + {key};
    } else {
      assert r.Keys == counts.Keys;
    }
  }

  /** A record keeps every count of the table at one or more. */
  lemma IncrementKeepsPositive(counts: map<string, int>, key: string)
    requires AllPositive(counts)
    ensures AllPositive(Increment(counts, key))
  {
  }

  /** Records of two keys commute: the table does not depend on their order. */
  lemma IncrementCommutes(counts: map<string, int>, a: string, b: string)
    ensures Increment(Increment(counts, a), b) == Increment(Increment(counts, b), a)
  {
    if a == b {
    } else {
      var ab, ba := Increment(Increment(counts, a), b), Increment(Increment(counts, b), a);
      assert ab.Keys == ba.Keys;
      forall k | k in ab ensures ab[k] == ba[k] {
      }
    }
  }

  /** The first record of a key in an empty table. */
  lemma FirstRecord(key: string)
    ensures Increment(map[], key) == map[key := 1]
  {
  }

  /**
   * In a table of two distinct keys, a most frequent key is one of them, and
   * it is the first one when that one's count is strictly larger.
   */
  lemma MostFrequentOfTwo(k1: string, k2: string, n1: int, n2: int, key: string)
    requires k1 != k2
    requires IsMostFrequent(map[k1 := n1, k2 := n2], key)
    ensures key == k1 || key == k2
    ensures n1 > n2 ==> key == k1
  {
    var m := map[k1 := n1, k2 := n2];
    assert m.Keys == {k1, k2};
    assert m[k1] <= m[key];
  }

  /** `n` records of `key` in a row. */
  function IncrementTimes(counts: map<string, int>, key: string, n: nat): map<string, int>
  {
    if n == 0 then counts else Increment(IncrementTimes(counts, key, n - 1), key)
  }

  /**
   * Recording a key `n` times raises its count by exactly `n` (no update is
   * lost) and changes no other key.
   */
  lemma IncrementTimesEffect(counts: map<string, int>, key: string, n: nat)
    ensures CountOf(IncrementTimes(counts, key, n), key) == CountOf(counts, key) + n
    ensures forall k :: k != key ==> CountOf(IncrementTimes(counts, key, n), k) == CountOf(counts, k)
  {
    if n > 0 {
      IncrementTimesUpdate(counts, key, n);
    }
  }

  /** `n` records of `key`, for `n` at least one, set its count to the old count plus `n`. */
  lemma {:induction false} IncrementTimesUpdate(counts: map<string, int>, key: string, n: nat)
    requires n >= 1
    ensures IncrementTimes(counts, key, n) == counts[key := CountOf(counts, key) + n]
  {
    if n > 1 {
      IncrementTimesUpdate(counts, key, n - 1);
    }
  }

  /** The shared statistics table: request keys to the number of times each was served. */
  class RequestStats {
    var counts: map<string, int>

    ghost predicate Valid()
      reads this
    {
      AllPositive(counts)
    }

    /** The table is created empty when the process starts. */
    constructor ()
      ensures Valid() && counts == map[]
    {
      counts := map[];
    }

    /**
     * `updateStats`: counts one more occurrence of the request's key and
     * changes nothing else, under the write lock.
     */
    method UpdateStats(req: FizzBuzzRequest)
      requires Valid()
      modifies this
      ensures Valid()
      ensures counts == Increment(old(counts), EncodeKey(req))
    {
      var key := EncodeKey(req);
      counts := counts[key := CountOf(counts, key) + 1];
      IncrementKeepsPositive(old(counts), key);
    }

    /**
     * The scan of the statistics handler, under the read lock: it visits the
     * keys in an unspecified order (here, any remaining key may come next)
     * and keeps the first key it meets with a count strictly above all
     * before it. An empty table, or one with no positive count, gives
     * ("", 0); otherwise the key is in the table, holds the count, and no
     * count exceeds it.
     */
    method FindMostFrequent() returns (maxKey: string, maxCount: int)
      ensures maxCount >= 0
      ensures forall k :: k in counts ==> counts[k] <= maxCount
      ensures maxCount > 0 ==> maxKey in counts && counts[maxKey] == maxCount
      ensures maxCount == 0 ==> maxKey == ""
      ensures Valid() && |counts| > 0 ==> maxCount >= 1 && IsMostFrequent(counts, maxKey)
    {
      maxKey, maxCount := "", 0;
      var remaining := counts.Keys;
      while remaining != {}
        invariant remaining <= counts.Keys
        invariant maxCount >= 0
        invariant forall k :: k in counts && k !in remaining ==> counts[k] <= maxCount
        invariant maxCount > 0 ==> maxKey in counts && counts[maxKey] == maxCount
        invariant maxCount == 0 ==> maxKey == ""
        decreases remaining
      {
        var key :| key in remaining;
        if counts[key] > maxCount {
          maxCount := counts[key];
          maxKey := key;
        }
        remaining := remaining - {key};
      }
      if Valid() && |counts| > 0 {
        var some :| some in counts;
        assert counts[some] >= 1;
      }
    }
  }
}
