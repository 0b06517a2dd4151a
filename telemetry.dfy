/**
 * `parseResourceAttributes` of internal/telemetry/otel.go: the parser of the
 * comma-separated `key=value` list that configures the tracing resource.
 * The rest of that file (exporter and tracer set-up) is not part of this model.
 */
module Telemetry {
  import opened Wrappers
  import opened Text

  /** A string attribute: `attribute.String(key, value)`. */
  datatype KeyValue = KeyValue(key: string, value: string)

  /**
   * One segment split at its first '=' (`strings.SplitN(pair, "=", 2)`):
   * nothing when it holds no '=', otherwise the text before and after it,
   * verbatim and possibly empty.
   */
  function PairOf(segment: string): (r: Option<KeyValue>)
    ensures r.None? <==> '=' !in segment
    ensures r.Some? ==> '=' !in r.value.key && r.value.key + "=" + r.value.value == segment
  {
    match SplitFirst(segment, '=')
    case None => None
    case Some((k, v)) => Some(KeyValue(k, v))
  }

  /** The attributes of a list of segments, in segment order, skipping those without '='. */
  function Pairs(segments: seq<string>): seq<KeyValue>
  {
    if |segments| == 0 then []
    else
      var init := Pairs(segments[..|segments| - 1]);
      match PairOf(segments[|segments| - 1])
      case None => init
      case Some(kv) => init + [kv]
  }

  /**
   * `parseResourceAttributes`: the empty string gives no attributes; otherwise
   * each comma-separated segment with an '=' gives one attribute, in order.
   */
  method ParseResourceAttributes(attrString: string) returns (attrs: seq<KeyValue>)
    ensures attrString == "" ==> attrs == []
    ensures attrs == Pairs(Split(attrString, ','))
  {
    if attrString == "" {
      EmptyTextHasNoAttributes();
      return [];
    }
    attrs := [];
    var pairs := Split(attrString, ',');
    for i := 0 to |pairs|
      invariant attrs == Pairs(pairs[..i])
    {
      PairsPrefixStep(pairs, i);
      var kv := SplitFirst(pairs[i], '=');
      if kv.None? {
        continue;
      }
      attrs := attrs + [KeyValue(kv.value.0, kv.value.1)];
    }
    assert pairs[..|pairs|] == pairs;
  }

  lemma EmptyTextHasNoAttributes()
    ensures Pairs(Split("", ',')) == []
  {
    assert Split("", ',') == [""];
    assert Pairs([""]) == Pairs([]);
  }

  /** The attributes of the first `i + 1` segments, from those of the first `i`. */
  lemma PairsPrefixStep(segments: seq<string>, i: nat)
    requires i < |segments|
    ensures SplitFirst(segments[i], '=').None? ==> Pairs(segments[..i + 1]) == Pairs(segments[..i])
    ensures SplitFirst(segments[i], '=').Some? ==>
      var (k, v) := SplitFirst(segments[i], '=').value;
      Pairs(segments[..i + 1]) == Pairs(segments[..i]) + [KeyValue(k, v)]
  {
    assert segments[..i + 1] == segments[..i] + [segments[i]];
    PairsStep(segments[..i], segments[i]);
  }

  /** One more segment adds its attribute, if it has one, at the end. */
  lemma PairsStep(init: seq<string>, segment: string)
    ensures PairOf(segment).None? ==> Pairs(init + [segment]) == Pairs(init)
    ensures PairOf(segment).Some? ==> Pairs(init + [segment]) == Pairs(init) + [PairOf(segment).value]
  {
    assert (init + [segment])[..|init|] == init;
  }

  /** A segment is split at its FIRST '=': the key is what precedes it, the value keeps any later '='. */
  lemma PairOfSplitsAtFirstEquals(k: string, v: string)
    requires '=' !in k
    ensures PairOf(k + "=" + v) == Some(KeyValue(k, v))
  {
    FirstSeparatorAfter(k, v, '=');
  }

  /**
   * Parsing a concatenation of segment lists parses each part on its own and
   * concatenates the results: attributes keep the order of their segments.
   */
  lemma {:induction false} PairsAppend(s: seq<string>, t: seq<string>)
    ensures Pairs(s + t) == Pairs(s) + Pairs(t)
    decreases |t|
  {
    if |t| == 0 {
      assert s + t == s;
    } else {
      assert (s + t)[..|s + t| - 1] == s + t[..|t| - 1];
      PairsAppend(s, t[..|t| - 1]);
    }
  }

  /**
   * Every attribute comes from one segment, `key=value` with no '=' in the
   * key, and there are never more attributes than segments.
   */
  lemma {:induction false} PairsFromSegments(segments: seq<string>)
    ensures |Pairs(segments)| <= |segments|
    ensures forall kv :: kv in Pairs(segments) ==> '=' !in kv.key && kv.key + "=" + kv.value in segments
  {
    if |segments| > 0 {
      var init := segments[..|segments| - 1];
      PairsFromSegments(init);
      forall kv | kv in Pairs(init) ensures kv.key + "=" + kv.value in segments {
        var i :| 0 <= i < |init| && init[i] == kv.key + "=" + kv.value;
        assert segments[i] == init[i];
      }
    }
  }

  /** Segments with no '=' contribute nothing. */
  lemma {:induction false} PairsSkipsPlainSegments(segments: seq<string>)
    requires forall s :: s in segments ==> '=' !in s
    ensures Pairs(segments) == []
  {
    if |segments| > 0 {
      var init := segments[..|segments| - 1];
      assert segments[|segments| - 1] in segments;
      forall s | s in init ensures '=' !in s {
        var i :| 0 <= i < |init| && init[i] == s;
        assert segments[i] == s;
      }
      PairsSkipsPlainSegments(init);
    }
  }

  /** The text `key=value` of each attribute, in order. */
  function Segments(kvs: seq<KeyValue>): seq<string>
  {
    seq(|kvs|, i requires 0 <= i < |kvs| => kvs[i].key + "=" + kvs[i].value)
  }

  /** Attributes whose keys hold neither ',' nor '=', and whose values hold no ','. */
  ghost predicate Printable(kvs: seq<KeyValue>)
  {
    forall kv :: kv in kvs ==> ',' !in kv.key && '=' !in kv.key && ',' !in kv.value
  }

  lemma {:induction false} PairsOfSegments(kvs: seq<KeyValue>)
    requires Printable(kvs)
    ensures Pairs(Segments(kvs)) == kvs
    decreases |kvs|
  {
    if |kvs| > 0 {
      var n := |kvs|;
      var init, last := kvs[..n - 1], kvs[n - 1];
      var segment := last.key + "=" + last.value;
      LastSegment(kvs);
      PairsOfSegments(init);
      PairsStep(Segments(init), segment);
      assert init + [last] == kvs;
    }
  }

  /** The last attribute of a printable list is printed last and parses back to itself. */
  lemma LastSegment(kvs: seq<KeyValue>)
    requires |kvs| > 0 && Printable(kvs)
    ensures var last := kvs[|kvs| - 1];
      && Segments(kvs) == Segments(kvs[..|kvs| - 1]) + [last.key + "=" + last.value]
      && PairOf(last.key + "=" + last.value) == Some(last)
      && Printable(kvs[..|kvs| - 1])
  {
    var n := |kvs|;
    var last := kvs[n - 1];
    assert Segments(kvs)[..n - 1] == Segments(kvs[..n - 1]);
    assert Segments(kvs) == Segments(kvs)[..n - 1] + [Segments(kvs)[n - 1]];
    assert last in kvs;
    PairOfSplitsAtFirstEquals(last.key, last.value);
    PrintableInit(kvs);
  }

  lemma PrintableInit(kvs: seq<KeyValue>)
    requires |kvs| > 0 && Printable(kvs)
    ensures Printable(kvs[..|kvs| - 1])
  {
    forall kv | kv in kvs[..|kvs| - 1] ensures kv in kvs {
      var i :| 0 <= i < |kvs| - 1 && kvs[..|kvs| - 1][i] == kv;
      assert kvs[i] == kv;
    }
  }

  /**
   * Round trip: printing attributes as `k1=v1,k2=v2,...` and parsing the
   * text gives the attributes back, when no key holds ',' or '=' and no value
   * holds ','. (Values may hold '='.)
   */
  lemma AttributesRoundTrip(kvs: seq<KeyValue>)
    requires Printable(kvs)
    ensures Pairs(Split(Join(Segments(kvs), ','), ',')) == kvs
  {
    var segs := Segments(kvs);
    if |kvs| == 0 {
      assert Split(Join(segs, ','), ',') == [""];
      assert Pairs([""]) == Pairs([]);
    } else {
      forall s | s in segs ensures ',' !in s {
        var i :| 0 <= i < |segs| && segs[i] == s;
        assert kvs[i] in kvs;
      }
      SplitJoin(segs, ',');
      PairsOfSegments(kvs);
    }
  }
}
