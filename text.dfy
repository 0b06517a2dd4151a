/**
 * The part of Go's `strings` and `strconv` packages that the core relies on,
 * over strings as sequences of characters: `strings.Split` and `strings.Join`
 * with a one-character separator, `strings.SplitN(s, sep, 2)`, `strconv.Itoa`
 * and `strconv.Atoi` (without its 64-bit range check).
 */
module Text {
  import opened Wrappers

  /** Position of the first occurrence of `c` in `s`. */
  function IndexOf(s: string, c: char): (i: nat)
    requires c in s
    ensures i < |s| && s[i] == c && c !in s[..i]
  {
    if s[0] == c then 0
    else
      var j := IndexOf(s[1..], c);
      assert s[..j + 1] == [s[0]] + s[1..][..j];
      j + 1
  }

  /** `strings.Join(parts, string(sep))`: the parts in order, one separator between consecutive parts. */
  function Join(parts: seq<string>, sep: char): string
  {
    if |parts| == 0 then ""
    else if |parts| == 1 then parts[0]
    else parts[0] + [sep] + Join(parts[1..], sep)
  }

  /** The number of characters of all parts together. */
  function TotalLength(parts: seq<string>): nat
  {
    if |parts| == 0 then 0 else |parts[0]| + TotalLength(parts[1..])
  }

  /**
   * A join starts with its first part and is as long as all parts together
   * plus one character per separator, one fewer than there are parts.
   */
  lemma {:induction false} JoinShape(parts: seq<string>, sep: char)
    requires |parts| >= 1
    ensures |Join(parts, sep)| == TotalLength(parts) + |parts| - 1
    ensures parts[0] <= Join(parts, sep)
    decreases |parts|
  {
    if |parts| > 1 {
      JoinShape(parts[1..], sep);
    }
  }

  /**
   * `strings.Split(s, string(sep))`: the pieces of `s` between separators.
   * There is always one piece more than there are separators (the empty
   * string gives one empty piece), no piece holds a separator, and joining
   * the pieces gives `s` back.
   */
  function Split(s: string, sep: char): (parts: seq<string>)
    ensures |parts| == multiset(s)[sep] + 1
    ensures forall p :: p in parts ==> sep !in p
    ensures Join(parts, sep) == s
    decreases |s|
  {
    if sep !in s then
      assert sep !in multiset(s);
      [s]
    else
      var i := IndexOf(s, sep);
      var rest := Split(s[i + 1..], sep);
      assert s == s[..i] + [sep] + s[i + 1..];
      assert multiset(s) == multiset(s[..i]) + multiset([sep]) + multiset(s[i + 1..]);
      assert sep !in multiset(s[..i]);
      [s[..i]] + rest
  }

  /** In `p + [sep] + q` with `sep` not in `p`, the first separator sits right after `p`. */
  lemma {:induction false} FirstSeparatorAfter(p: string, q: string, sep: char)
    requires sep !in p
    ensures sep in p + [sep] + q
    ensures IndexOf(p + [sep] + q, sep) == |p|
    ensures (p + [sep] + q)[..|p|] == p && (p + [sep] + q)[|p| + 1..] == q
  {
    var s := p + [sep] + q;
    assert s[|p|] == sep;
    if |p| > 0 {
      assert p[0] in p;
      assert s[1..] == p[1..] + [sep] + q;
      FirstSeparatorAfter(p[1..], q, sep);
    }
  }

  /**
   * Splitting is the inverse of joining, for pieces free of the separator:
   * the pieces come back in order and unchanged.
   */
  lemma {:induction false} SplitJoin(parts: seq<string>, sep: char)
    requires |parts| >= 1
    requires forall p :: p in parts ==> sep !in p
    ensures Split(Join(parts, sep), sep) == parts
  {
    if |parts| == 1 {
      assert parts[0] in parts;
    } else {
      assert parts[0] in parts;
      var rest := Join(parts[1..], sep);
      FirstSeparatorAfter(parts[0], rest, sep);
      forall p | p in parts[1..] ensures sep !in p {
        assert p in parts;
      }
      SplitJoin(parts[1..], sep);
      assert [parts[0]] + parts[1..] == parts;
    }
  }

  /**
   * `strings.SplitN(s, string(sep), 2)` read as a pair: nothing when `s`
   * holds no separator, otherwise what lies before and after the FIRST one.
   */
  function SplitFirst(s: string, sep: char): (r: Option<(string, string)>)
    ensures r.None? <==> sep !in s
    ensures r.Some? ==> sep !in r.value.0 && r.value.0 + [sep] + r.value.1 == s
  {
    if sep !in s then None
    else
      var i := IndexOf(s, sep);
      assert s == s[..i] + [sep] + s[i + 1..];
      Some((s[..i], s[i + 1..]))
  }

  predicate IsDigit(c: char)
  {
    '0' <= c <= '9'
  }

  function DigitChar(d: nat): (c: char)
    requires d < 10
    ensures IsDigit(c)
  {
    "0123456789"[d]
  }

  function DigitValue(c: char): (d: nat)
    requires IsDigit(c)
    ensures d < 10
  {
    (c as int) - ('0' as int)
  }

  predicate AllDigits(s: string)
  {
    forall c :: c in s ==> IsDigit(c)
  }

  /**
   * `strconv.Itoa` on a non-negative value: at least one decimal digit, most
   * significant first, and a leading '0' only for zero itself.
   */
  function NatToString(n: nat): (s: string)
    ensures |s| >= 1 && AllDigits(s)
    ensures s[0] == '0' <==> n == 0
    decreases n
  {
    if n < 10 then [DigitChar(n)]
    else NatToString(n / 10) + [DigitChar(n % 10)]
  }

  /** `strconv.Itoa`: a '-' in front of the digits of a negative value, digits only otherwise. */
  function IntToString(i: int): (s: string)
    ensures |s| >= 1
    ensures forall c :: c in s ==> c == '-' || IsDigit(c)
    ensures s[0] == '-' <==> i < 0
  {
    if i < 0 then "-" + NatToString(-i)
    else
      var digits := NatToString(i);
      assert digits[0] in digits;
      digits
  }

  /** The value of a string of decimal digits, most significant first. */
  function DigitsValue(s: string): nat
    requires AllDigits(s)
  {
    if |s| == 0 then 0
    else
      assert s[|s| - 1] in s;
      DigitsValue(s[..|s| - 1]) * 10 + DigitValue(s[|s| - 1])
  }

  /** A non-empty string of decimal digits (leading zeros allowed), or nothing. */
  function ParseNat(s: string): Option<nat>
  {
    if |s| > 0 && AllDigits(s) then Some(DigitsValue(s)) else None
  }

  /** The text `strconv.Atoi` accepts: an optional '+' or '-', then one or more decimal digits. */
  predicate IsAtoiText(s: string)
  {
    || (|s| >= 1 && AllDigits(s))
    || (|s| >= 2 && (s[0] == '-' || s[0] == '+') && AllDigits(s[1..]))
  }

  /**
   * `strconv.Atoi`: an optional '+' or '-' sign followed by at least one
   * decimal digit (leading zeros allowed); anything else is a syntax error
   * (`None`). The value is that of the digits, negated after a '-'.
   */
  function ParseInt(s: string): (r: Option<int>)
    ensures r.Some? <==> IsAtoiText(s)
    ensures r.Some? ==> |s| >= 1
    ensures r.Some? && AllDigits(s) ==> r.value == DigitsValue(s)
    ensures r.Some? && s[0] == '+' ==> r.value == DigitsValue(s[1..])
    ensures r.Some? && s[0] == '-' ==> r.value == -(DigitsValue(s[1..]) as int)
  {
    if |s| > 0 && (s[0] == '-' || s[0] == '+') then
      assert s[0] in s;
      match ParseNat(s[1..])
      case None => None
      case Some(n) =>
        var v: int := n;
        Some(if s[0] == '-' then -v else v)
    else
      match ParseNat(s)
      case None => None
      case Some(n) => Some(n)
  }

  lemma {:induction false} DigitsOfNatToString(n: nat)
    ensures DigitsValue(NatToString(n)) == n
    decreases n
  {
    var s := NatToString(n);
    if n < 10 {
      assert s[..0] == [];
    } else {
      var prefix := NatToString(n / 10);
      assert s[..|s| - 1] == prefix;
      DigitsOfNatToString(n / 10);
      assert DigitValue(DigitChar(n % 10)) == n % 10;
    }
  }

  /** Decimal printing and parsing are inverse on the naturals. */
  lemma NatStringRoundTrip(n: nat)
    ensures ParseNat(NatToString(n)) == Some(n)
  {
    DigitsOfNatToString(n);
  }

  /** `strconv.Atoi(strconv.Itoa(i)) == i` for every integer. */
  lemma IntStringRoundTrip(i: int)
    ensures ParseInt(IntToString(i)) == Some(i)
  {
    if i < 0 {
      NegativeStringRoundTrip(i);
    } else {
      UnsignedStringRoundTrip(i);
    }
  }

  lemma NegativeStringRoundTrip(i: int)
    requires i < 0
    ensures ParseInt(IntToString(i)) == Some(i)
  {
    var digits := NatToString(-i);
    var s := "-" + digits;
    assert IntToString(i) == s;
    assert s[1..] == digits;
    NatStringRoundTrip(-i);
  }

  lemma UnsignedStringRoundTrip(i: int)
    requires i >= 0
    ensures ParseInt(IntToString(i)) == Some(i)
  {
    var s := NatToString(i);
    assert IntToString(i) == s;
    assert IsDigit(s[0]) by { assert s[0] in s; }
    NatStringRoundTrip(i);
  }
}
