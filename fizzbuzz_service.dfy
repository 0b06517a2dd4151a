/** The sequence generator of internal/services/fizbuzz_service.go. */
module FizzBuzzService {
  import opened Wrappers
  import opened Text

  /**
   * The value written at 1-based position `i`: both labels concatenated when
   * both divisors divide `i`, the first label when only the first does, the
   * second label when only the second does, and the decimal form of `i`
   * otherwise. The divisors are positive, so Go's `%` agrees with Dafny's.
   */
  function Element(i: int, int1: int, int2: int, str1: string, str2: string): string
    requires int1 > 0 && int2 > 0
  {
    if i % int1 == 0 && i % int2 == 0 then str1 + str2
    else if i % int1 == 0 then str1
    else if i % int2 == 0 then str2
    else IntToString(i)
  }

  /** `r` is the generator's output for these arguments: one element per position 1..limit. */
  ghost predicate IsFizzBuzz(r: seq<string>, int1: int, int2: int, limit: int, str1: string, str2: string)
    requires int1 > 0 && int2 > 0
  {
    && |r| == limit
    && forall k :: 0 <= k < limit ==> r[k] == Element(k + 1, int1, int2, str1, str2)
  }

  /**
   * `GenerateFizzBuzz`: allocates a slice of `limit` strings and fills it in
   * position order, each index exactly once. Zero divisors are undefined input
   * (the caller's validation excludes them); a negative limit makes Go's `make`
   * panic.
   */
  method GenerateFizzBuzz(int1: int, int2: int, limit: int, str1: string, str2: string)
    returns (result: seq<string>)
    requires int1 > 0 && int2 > 0
    requires limit >= 0
    ensures IsFizzBuzz(result, int1, int2, limit, str1, str2)
  {
    var a := new string[limit];
    var i := 1;
    while i <= limit
      invariant 1 <= i <= limit + 1
      invariant forall k :: 1 <= k < i ==> a[k - 1] == Element(k, int1, int2, str1, str2)
    {
      if i % int1 == 0 && i % int2 == 0 {
        a[i - 1] := str1 + str2;
      } else if i % int1 == 0 {
        a[i - 1] := str1;
      } else if i % int2 == 0 {
        a[i - 1] := str2;
      } else {
        a[i - 1] := IntToString(i);
      }
      i := i + 1;
    }
    result := a[..];
  }

  /**
   * What each position of a generated sequence holds, case by case; in the
   * last case the element is the decimal form of the position: it parses
   * back to the position and has no sign and no leading zero.
   */
  lemma {:induction false} FizzBuzzPositions(r: seq<string>, int1: int, int2: int, limit: int, str1: string, str2: string)
    requires int1 > 0 && int2 > 0
    requires IsFizzBuzz(r, int1, int2, limit, str1, str2)
    ensures |r| == limit
    ensures forall i :: 1 <= i <= limit && i % int1 == 0 && i % int2 == 0 ==> r[i - 1] == str1 + str2
    ensures forall i :: 1 <= i <= limit && i % int1 == 0 && i % int2 != 0 ==> r[i - 1] == str1
    ensures forall i :: 1 <= i <= limit && i % int1 != 0 && i % int2 == 0 ==> r[i - 1] == str2
    ensures forall i :: 1 <= i <= limit && i % int1 != 0 && i % int2 != 0 ==>
      ParseInt(r[i - 1]) == Some(i) && AllDigits(r[i - 1]) && r[i - 1][0] != '0'
  {
    forall i | 1 <= i <= limit
      ensures r[i - 1] == Element(i, int1, int2, str1, str2)
    {
      var k := i - 1;
      assert r[k] == Element(k + 1, int1, int2, str1, str2);
    }
    forall i | 1 <= i <= limit && i % int1 != 0 && i % int2 != 0
      ensures ParseInt(r[i - 1]) == Some(i) && AllDigits(r[i - 1]) && r[i - 1][0] != '0'
    {
      assert r[i - 1] == NatToString(i);
      IntStringRoundTrip(i);
    }
  }

  /** The generator keeps no state: equal arguments give equal sequences. */
  lemma FizzBuzzDeterministic(r1: seq<string>, r2: seq<string>, int1: int, int2: int, limit: int, str1: string, str2: string)
    requires int1 > 0 && int2 > 0
    requires IsFizzBuzz(r1, int1, int2, limit, str1, str2)
    requires IsFizzBuzz(r2, int1, int2, limit, str1, str2)
    ensures r1 == r2
  {
    forall k | 0 <= k < limit ensures r1[k] == r2[k] {
      assert r1[k] == Element(k + 1, int1, int2, str1, str2);
    }
  }

  /** With both divisors 1 every position is divisible by both: every element is the concatenation. */
  lemma UnitDivisorsConcatenate(r: seq<string>, limit: int, str1: string, str2: string)
    requires IsFizzBuzz(r, 1, 1, limit, str1, str2)
    ensures forall k :: 0 <= k < |r| ==> r[k] == str1 + str2
  {
    forall k | 0 <= k < |r| ensures r[k] == str1 + str2 {
      assert r[k] == Element(k + 1, 1, 1, str1, str2);
    }
  }

  /**
   * Divisors 3 and 5 over fifteen positions, for any labels: the sequence of
   * the handler tests, "1, 2, fizz, 4, buzz, ..., fizzbuzz" with "fizz" and
   * "buzz", and "..., helloworld" with "hello" and "world".
   */
  lemma ThreeFiveFifteen(r: seq<string>, str1: string, str2: string)
    requires IsFizzBuzz(r, 3, 5, 15, str1, str2)
    ensures r == ["1", "2", str1, "4", str2, str1, "7", "8", str1, str2,
                  "11", str1, "13", "14", str1 + str2]
  {
    assert r[0] == "1";
    assert r[1] == "2";
    assert r[2] == str1;
    assert r[3] == "4";
    assert r[4] == str2;
    assert r[5] == str1;
    assert r[6] == "7";
    assert r[7] == "8";
    assert r[8] == str1;
    assert r[9] == str2;
    assert r[10] == "11";
    assert r[11] == str1;
    assert r[12] == "13";
    assert r[13] == "14";
    assert r[14] == str1 + str2;
  }

  /** The classic labels: the sequence ends in "fizzbuzz". */
  lemma ClassicFizzBuzz(r: seq<string>)
    requires IsFizzBuzz(r, 3, 5, 15, "fizz", "buzz")
    ensures r == ["1", "2", "fizz", "4", "buzz", "fizz", "7", "8", "fizz", "buzz",
                  "11", "fizz", "13", "14", "fizzbuzz"]
  {
    ThreeFiveFifteen(r, "fizz", "buzz");
    assert "fizz" + "buzz" == "fizzbuzz";
  }
}
