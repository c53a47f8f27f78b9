/** Score thresholds and the floor rule that picks a record's bucket for a tag. */
module Thresholds {

  /** SCORE_BUCKET. */
  const ScoreBucket: seq<real> := [0.5, 0.625, 0.75, 0.875]

  predicate StrictlyIncreasing(buckets: seq<real>)
  {
    forall i, j :: 0 <= i < j < |buckets| ==> buckets[i] < buckets[j]
  }

  /**
   * The index the bucketing loop ends with: the largest `i` whose threshold the
   * score meets, or 0 when the score meets none of them.
   */
  function BucketFloor(buckets: seq<real>, s: real): (i: nat)
    requires |buckets| > 0
    ensures i < |buckets|
    ensures (exists j :: 0 <= j < |buckets| && buckets[j] <= s) ==> buckets[i] <= s
    ensures forall j :: i < j < |buckets| ==> s < buckets[j]
    ensures (forall j :: 0 <= j < |buckets| ==> s < buckets[j]) ==> i == 0
    decreases |buckets|
  {
    if |buckets| == 1 then 0
    else if buckets[|buckets| - 1] <= s then |buckets| - 1
    else
      var prefix := buckets[..|buckets| - 1];
      var i := BucketFloor(prefix, s);
      assert forall j :: 0 <= j < |prefix| ==> prefix[j] == buckets[j];
      i
  }

  /**
   * The bucketing loop itself (`bucket_idx = 0; for i, score in
   * enumerate(SCORE_BUCKET): if s >= score: bucket_idx = i`).
   */
  method BucketIndex(buckets: seq<real>, s: real) returns (idx: nat)
    requires |buckets| > 0
    ensures idx == BucketFloor(buckets, s)
  {
    idx := 0;
    var i := 0;
    while i < |buckets|
      invariant 0 <= i <= |buckets|
      invariant idx == if i == 0 then 0 else BucketFloor(buckets[..i], s)
    {
      assert buckets[..i + 1][..i] == buckets[..i];
      if s >= buckets[i] {
        idx := i;
      }
      i := i + 1;
    }
    assert buckets[..|buckets|] == buckets;
  }

  /**
   * With increasing thresholds, the chosen threshold is the largest one not
   * exceeding the score; a score below all of them still gets the first.
   */
  lemma {:induction false} FloorIsLargestThresholdMet(buckets: seq<real>, s: real)
    requires |buckets| > 0 && StrictlyIncreasing(buckets)
    ensures s < buckets[0] ==> BucketFloor(buckets, s) == 0
    ensures s >= buckets[0] ==> buckets[BucketFloor(buckets, s)] <= s
    ensures forall j :: 0 <= j < |buckets| && buckets[j] <= s ==> buckets[j] <= buckets[BucketFloor(buckets, s)]
  {
    var i := BucketFloor(buckets, s);
    forall j | 0 <= j < |buckets| && buckets[j] <= s
      ensures buckets[j] <= buckets[i]
    {
    }
    if s < buckets[0] {
      assert forall j :: 0 <= j < |buckets| ==> s < buckets[j] by {
        forall j | 0 < j < |buckets| ensures s < buckets[j] {
          assert buckets[0] < buckets[j];
        }
      }
    }
  }

  lemma ScoreBucketIsIncreasing()
    ensures StrictlyIncreasing(ScoreBucket)
  {
  }

  /** Worked examples on the default thresholds: 0.9, 0.6, 0.4 and the exact 0.625. */
  lemma ScoreBucketExamples()
    ensures ScoreBucket[BucketFloor(ScoreBucket, 0.9)] == 0.875
    ensures ScoreBucket[BucketFloor(ScoreBucket, 0.6)] == 0.5
    ensures ScoreBucket[BucketFloor(ScoreBucket, 0.4)] == 0.5
    ensures ScoreBucket[BucketFloor(ScoreBucket, 0.625)] == 0.625
  {
  }
}
