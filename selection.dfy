/**
 * The record filters the report passes build lists with: each is a
 * criterion over one record, and a list is filtered or split by it in order.
 */
module Selection {
  import opened Common
  import opened Metadata
  import opened Outliers
  import opened Thresholds

  datatype Criterion =
    | InvalidDate(parsers: DateParsers)
    | WeirdAspect
    | ScoreAbove(tag: string, threshold: real)
    | Excluded(ids: set<nat>)
    | NullTaken
    | HasTag(tag: string)
    | InBucket(tag: string, threshold: real, buckets: seq<real>)
    | Not(c: Criterion)
    | Both(a: Criterion, b: Criterion)

  predicate Holds(c: Criterion, r: Record)
  {
    match c
    case InvalidDate(parsers) => IsInvalidDate(r, parsers)
    case WeirdAspect => IsWeirdAspectRatio(r)
    // `x.AUTO_TAG_SCORES[t] > conf_threshold`, strictly
    case ScoreAbove(tag, threshold) => tag in r.scores && r.scores[tag] > threshold
    // `int(meta.ID) in excluded_ids`
    case Excluded(ids) => r.id in ids
    // `meta.DATE_TAKEN == 'null'`
    case NullTaken => r.dateTaken == "null"
    case HasTag(tag) => tag in r.scores
    // the record lands in bucket `threshold` of `tag`
    case InBucket(tag, threshold, buckets) => FiledUnder(r, tag, buckets) == Some(threshold)
    case Not(c) => !Holds(c, r)
    case Both(a, b) => Holds(a, r) && Holds(b, r)
  }

  /** The threshold a record is filed under for `tag`: its floor threshold, if it scores the tag at all. */
  function FiledUnder(r: Record, tag: string, buckets: seq<real>): (f: Option<real>)
    ensures f.Some? <==> tag in r.scores && |buckets| > 0
    ensures f.Some? ==> f.value in buckets
  {
    if tag in r.scores && |buckets| > 0 then Some(buckets[BucketFloor(buckets, r.scores[tag])]) else None
  }

  lemma HoldsInBucket(r: Record, tag: string, threshold: real, buckets: seq<real>)
    ensures Holds(InBucket(tag, threshold, buckets), r) <==> FiledUnder(r, tag, buckets) == Some(threshold)
  {
  }

  /** The records of `s` that satisfy `c`, in their order in `s`. */
  function Filter(s: seq<Record>, c: Criterion): seq<Record>
  {
    if s == [] then []
    else (if Holds(c, s[0]) then [s[0]] else []) + Filter(s[1..], c)
  }

  /** `sum([pred(m) for m in s])`: the number of records satisfying `c`. */
  function CountWhere(s: seq<Record>, c: Criterion): (n: nat)
    ensures n == |Filter(s, c)|
    ensures n <= |s|
  {
    if s == [] then 0
    else (if Holds(c, s[0]) then 1 else 0) + CountWhere(s[1..], c)
  }

  /** `get_invalid_dates`. */
  function GetInvalidDates(s: seq<Record>, parsers: DateParsers): (n: nat)
    ensures n == |Filter(s, InvalidDate(parsers))|
  {
    CountWhere(s, InvalidDate(parsers))
  }

  lemma {:induction false} FilterConcat(a: seq<Record>, b: seq<Record>, c: Criterion)
    ensures Filter(a + b, c) == Filter(a, c) + Filter(b, c)
  {
    if a == [] {
      assert a + b == b;
    } else {
      var ab := a + b;
      assert ab[0] == a[0] && ab[1..] == a[1..] + b;
      FilterConcat(a[1..], b, c);
      var h := if Holds(c, a[0]) then [a[0]] else [];
      assert Filter(a, c) == h + Filter(a[1..], c);
      assert Filter(ab, c) == h + Filter(a[1..] + b, c);
      assert h + (Filter(a[1..], c) + Filter(b, c)) == (h + Filter(a[1..], c)) + Filter(b, c);
    }
  }

  lemma FilterSnoc(s: seq<Record>, r: Record, c: Criterion)
    ensures Filter(s + [r], c) == Filter(s, c) + (if Holds(c, r) then [r] else [])
  {
    FilterConcat(s, [r], c);
    assert [r][1..] == [];
  }

  lemma {:induction false} CountConcat(a: seq<Record>, b: seq<Record>, c: Criterion)
    ensures CountWhere(a + b, c) == CountWhere(a, c) + CountWhere(b, c)
  {
    FilterConcat(a, b, c);
  }

  /** A record is kept exactly when it is in the input and satisfies the criterion. */
  lemma {:induction false} FilterMembership(s: seq<Record>, c: Criterion, x: Record)
    ensures x in Filter(s, c) <==> x in s && Holds(c, x)
  {
    if s != [] {
      FilterMembership(s[1..], c, x);
      assert x in s <==> x == s[0] || x in s[1..];
    }
  }

  /** Filtering keeps the relative order of the records it keeps. */
  lemma {:induction false} FilterKeepsOrder(s: seq<Record>, c: Criterion)
    ensures Subsequence(Filter(s, c), s)
  {
    if s != [] {
      FilterKeepsOrder(s[1..], c);
      var f := Filter(s, c);
      if Holds(c, s[0]) {
        assert f == [s[0]] + Filter(s[1..], c);
        assert f[1..] == Filter(s[1..], c);
      } else {
        assert f == Filter(s[1..], c);
        if f != [] {
          FilterMembership(s[1..], c, f[0]);
          assert f[0] != s[0];
        }
      }
    }
  }

  /** Every record goes to exactly one side of a split: the two sides together are the input. */
  lemma {:induction false} FilterPartition(s: seq<Record>, c: Criterion)
    ensures multiset(Filter(s, c)) + multiset(Filter(s, Not(c))) == multiset(s)
  {
    if s != [] {
      FilterPartition(s[1..], c);
      var h, t := s[0], s[1..];
      assert s == [h] + t;
      assert multiset(s) == multiset{h} + multiset(t);
      var yes, no := Filter(t, c), Filter(t, Not(c));
      if Holds(c, h) {
        assert Filter(s, c) == [h] + yes;
        assert Filter(s, Not(c)) == no;
        assert multiset(Filter(s, c)) == multiset{h} + multiset(yes);
      } else {
        assert Filter(s, c) == yes;
        assert Filter(s, Not(c)) == [h] + no;
        assert multiset(Filter(s, Not(c))) == multiset{h} + multiset(no);
      }
    }
  }

  /** The two sides of a split have as many records together as the input. */
  lemma FilterPartitionLength(s: seq<Record>, c: Criterion)
    ensures |Filter(s, c)| + |Filter(s, Not(c))| == |s|
  {
    var yes, no := Filter(s, c), Filter(s, Not(c));
    FilterPartition(s, c);
    assert |multiset(yes) + multiset(no)| == |multiset(yes)| + |multiset(no)|;
    assert |multiset(yes)| == |yes| && |multiset(no)| == |no| && |multiset(s)| == |s|;
  }

  /** Filtering a filtered list is filtering by both criteria. */
  lemma {:induction false} FilterFilter(s: seq<Record>, a: Criterion, b: Criterion)
    ensures Filter(Filter(s, a), b) == Filter(s, Both(a, b))
  {
    if s != [] {
      FilterFilter(s[1..], a, b);
      var f := Filter(s, a);
      if Holds(a, s[0]) {
        assert f == [s[0]] + Filter(s[1..], a);
        assert f[1..] == Filter(s[1..], a);
        assert Filter(f, b) == (if Holds(b, s[0]) then [s[0]] else []) + Filter(f[1..], b);
      } else {
        assert f == Filter(s[1..], a);
      }
    }
  }

  /** How often a record occurs after filtering: as often as before, or not at all. */
  lemma {:induction false} FilterMultiplicity(s: seq<Record>, c: Criterion, x: Record)
    ensures multiset(Filter(s, c))[x] == if Holds(c, x) then multiset(s)[x] else 0
  {
    if s != [] {
      FilterMultiplicity(s[1..], c, x);
      assert s == [s[0]] + s[1..];
      var h := if Holds(c, s[0]) then [s[0]] else [];
      assert multiset(Filter(s, c)) == multiset(h) + multiset(Filter(s[1..], c));
    }
  }

  /** Filtering permuted lists gives permuted results. */
  lemma FilterOfPermutation(a: seq<Record>, b: seq<Record>, c: Criterion)
    requires multiset(a) == multiset(b)
    ensures multiset(Filter(a, c)) == multiset(Filter(b, c))
  {
    forall x | true ensures multiset(Filter(a, c))[x] == multiset(Filter(b, c))[x] {
      FilterMultiplicity(a, c, x);
      FilterMultiplicity(b, c, x);
    }
  }

  /** The count of a criterion depends only on which records occur, not their order. */
  lemma CountOfPermutation(a: seq<Record>, b: seq<Record>, c: Criterion)
    requires multiset(a) == multiset(b)
    ensures CountWhere(a, c) == CountWhere(b, c)
  {
    FilterOfPermutation(a, b, c);
    assert |multiset(Filter(a, c))| == |Filter(a, c)|;
  }

  /**
   * The split loops (`if pred(meta): yes.append(meta) else: no.append(meta)`)
   * used for invalid dates, weird aspect ratios and excluded IDs.
   */
  method Partition(s: seq<Record>, c: Criterion) returns (yes: seq<Record>, no: seq<Record>)
    ensures yes == Filter(s, c)
    ensures no == Filter(s, Not(c))
  {
    yes, no := [], [];
    var i := 0;
    while i < |s|
      invariant 0 <= i <= |s|
      invariant yes == Filter(s[..i], c)
      invariant no == Filter(s[..i], Not(c))
    {
      assert s[..i + 1] == s[..i] + [s[i]];
      FilterSnoc(s[..i], s[i], c);
      FilterSnoc(s[..i], s[i], Not(c));
      if Holds(c, s[i]) {
        yes := yes + [s[i]];
      } else {
        no := no + [s[i]];
      }
      i := i + 1;
    }
    assert s[..|s|] == s;
  }

  /** A keep-only loop (`if pred(meta): kept.append(meta)`). */
  method Keep(s: seq<Record>, c: Criterion) returns (kept: seq<Record>)
    ensures kept == Filter(s, c)
  {
    kept := [];
    var i := 0;
    while i < |s|
      invariant 0 <= i <= |s|
      invariant kept == Filter(s[..i], c)
    {
      assert s[..i + 1] == s[..i] + [s[i]];
      FilterSnoc(s[..i], s[i], c);
      if Holds(c, s[i]) {
        kept := kept + [s[i]];
      }
      i := i + 1;
    }
    assert s[..|s|] == s;
  }
}
