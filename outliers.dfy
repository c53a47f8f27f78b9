/** The two data-quality predicates over a single record. */
module Outliers {
  import opened Common
  import opened Metadata

  /** WEIRD_ASPECT_RATIO. */
  const WeirdAspectRatio: real := 2.0

  /** ASPECT_RATIO as the enrichment pass computes it: long edge over short edge. */
  function AspectRatio(r: Record): (a: real)
    ensures a >= 1.0
  {
    var long := Max(r.width, r.height) as real;
    var short := Min(r.width, r.height) as real;
    assert long >= short > 0.0;
    long / short
  }

  /** `is_weird_aspect_ratio_meta`: the ratio is strictly above the limit. */
  predicate IsWeirdAspectRatio(r: Record)
  {
    AspectRatio(r) > WeirdAspectRatio
  }

  lemma QuotientAboveTwo(long: real, short: real)
    requires short > 0.0
    ensures long / short > 2.0 <==> long > 2.0 * short
  {
    var a := long / short;
    assert a * short == long;
    if a > 2.0 {
      assert (a - 2.0) * short > 0.0;
    } else {
      assert (2.0 - a) * short >= 0.0;
    }
  }

  /** The ratio test is the integer test "long edge more than twice the short edge". */
  lemma WeirdMeansLongEdgeOverTwice(r: Record)
    ensures IsWeirdAspectRatio(r) <==> Max(r.width, r.height) > 2 * Min(r.width, r.height)
  {
    var long := Max(r.width, r.height);
    var short := Min(r.width, r.height);
    QuotientAboveTwo(long as real, short as real);
    assert (2 * short) as real == 2.0 * (short as real);
  }

  /** Exactly 2:1 is not weird; the comparison is strict. */
  lemma TwoToOneIsNotWeird(r: Record)
    requires r.width == 2 * r.height || r.height == 2 * r.width
    ensures AspectRatio(r) == 2.0
    ensures !IsWeirdAspectRatio(r)
  {
    WeirdMeansLongEdgeOverTwice(r);
    var short := Min(r.width, r.height) as real;
    assert AspectRatio(r) * short == 2.0 * short;
  }

  /** A ratio of 2.0001 (20001 by 10000) is weird. */
  lemma JustOverTwoIsWeird(r: Record)
    requires r.width == 20001 && r.height == 10000
    ensures AspectRatio(r) == 2.0001
    ensures IsWeirdAspectRatio(r)
  {
  }

  /**
   * `is_invalid_date_meta`: true when either date fails to parse, or when the
   * photo is reported as taken no earlier than it was uploaded.
   */
  predicate IsInvalidDate(r: Record, parsers: DateParsers)
  {
    match (parsers.taken(r.dateTaken), parsers.uploaded(r.dateUploaded))
    case (Some(taken), Some(uploaded)) => taken >= uploaded
    case _ => true
  }

  /** A valid record has both dates parsed, the taken instant strictly first. */
  lemma ValidDateMeansTakenBeforeUploaded(r: Record, parsers: DateParsers)
    ensures !IsInvalidDate(r, parsers) <==>
      (parsers.taken(r.dateTaken).Some? && parsers.uploaded(r.dateUploaded).Some? &&
       parsers.taken(r.dateTaken).value < parsers.uploaded(r.dateUploaded).value)
  {
  }
}
