/**
 * The tag bucket table (`all_svm_tags`) that `TagParser._load_files` builds:
 * tag -> score threshold -> records, filled record by record.
 */
module Buckets {
  import opened Common
  import opened Metadata
  import opened Thresholds
  import opened Selection
  import opened Sorting

  type ScoreBuckets = map<real, seq<Record>>
  type TagBuckets = map<string, ScoreBuckets>

  /** The optional allow-list `all_svm_tag_names`: None keeps every tag. */
  predicate Allowed(allow: Option<seq<string>>, t: string)
  {
    allow.None? || t in allow.value
  }

  /** Every tag that some record carries a score for. */
  function TagsIn(recs: seq<Record>): set<string>
  {
    if recs == [] then {} else TagsIn(recs[..|recs| - 1]) + recs[|recs| - 1].scores.Keys
  }

  lemma {:induction false} TagsInMembership(recs: seq<Record>, t: string)
    ensures t in TagsIn(recs) <==> exists r :: r in recs && t in r.scores
  {
    if recs != [] {
      var init := recs[..|recs| - 1];
      TagsInMembership(init, t);
      assert recs == init + [recs[|recs| - 1]];
      assert forall r :: r in recs <==> r in init || r == recs[|recs| - 1];
    }
  }

  /** The fresh entry a tag gets on first sight: every threshold, no records. */
  function EmptyBuckets(buckets: seq<real>): ScoreBuckets
  {
    map b | b in buckets :: []
  }

  /** One tag's entry: for each threshold, the records whose floor threshold for `t` it is. */
  function TagEntry(recs: seq<Record>, t: string, buckets: seq<real>): ScoreBuckets
  {
    map b | b in buckets :: Filter(recs, InBucket(t, b, buckets))
  }

  /**
   * The table the loading loop ends with, stated per entry: a tag is a key
   * when some record scores it and the allow-list admits it, and its entry
   * for threshold `b` lists, in input order, the records whose floor
   * threshold for that tag is `b`.
   */
  function Bucketed(recs: seq<Record>, buckets: seq<real>, allow: Option<seq<string>>): TagBuckets
  {
    map t | t in TagsIn(recs) && Allowed(allow, t) :: TagEntry(recs, t, buckets)
  }

  lemma TagsInSnoc(pre: seq<Record>, r: Record)
    ensures TagsIn(pre + [r]) == TagsIn(pre) + r.scores.Keys
  {
    var post := pre + [r];
    assert post[..|post| - 1] == pre;
  }

  lemma NoTagNoBucket(recs: seq<Record>, t: string, b: real, buckets: seq<real>)
    requires t !in TagsIn(recs)
    ensures Filter(recs, InBucket(t, b, buckets)) == []
  {
    var f := Filter(recs, InBucket(t, b, buckets));
    if f != [] {
      FilterMembership(recs, InBucket(t, b, buckets), f[0]);
      TagsInMembership(recs, t);
      assert false;
    }
  }

  lemma TagEntryOfUnseen(recs: seq<Record>, t: string, buckets: seq<real>)
    requires t !in TagsIn(recs)
    ensures TagEntry(recs, t, buckets) == EmptyBuckets(buckets)
  {
    forall b | b in buckets ensures TagEntry(recs, t, buckets)[b] == [] {
      NoTagNoBucket(recs, t, b, buckets);
    }
  }

  /** Appending a record changes one threshold's list of a tag entry at most. */
  lemma TagEntrySnocAt(pre: seq<Record>, r: Record, t: string, buckets: seq<real>, b: real)
    requires b in buckets
    ensures TagEntry(pre + [r], t, buckets)[b] ==
      TagEntry(pre, t, buckets)[b] + (if Holds(InBucket(t, b, buckets), r) then [r] else [])
  {
    FilterSnoc(pre, r, InBucket(t, b, buckets));
  }

  /** Appending a record leaves the entry of a tag it does not score unchanged. */
  lemma TagEntrySnocUnscored(pre: seq<Record>, r: Record, t: string, buckets: seq<real>)
    requires t !in r.scores
    ensures TagEntry(pre + [r], t, buckets) == TagEntry(pre, t, buckets)
  {
    var e := TagEntry(pre, t, buckets);
    var e' := TagEntry(pre + [r], t, buckets);
    assert e.Keys == e'.Keys;
    forall b | b in e'.Keys ensures e'[b] == e[b] {
      TagEntrySnocAt(pre, r, t, buckets, b);
    }
  }

  /** Appending a record adds it to exactly one threshold of each tag it scores: its floor threshold. */
  lemma TagEntrySnocScored(pre: seq<Record>, r: Record, t: string, buckets: seq<real>)
    requires |buckets| > 0 && t in r.scores
    ensures
      var e := TagEntry(pre, t, buckets);
      var key := buckets[BucketFloor(buckets, r.scores[t])];
      key in e && TagEntry(pre + [r], t, buckets) == e[key := e[key] + [r]]
  {
    var e := TagEntry(pre, t, buckets);
    var e' := TagEntry(pre + [r], t, buckets);
    var key := buckets[BucketFloor(buckets, r.scores[t])];
    assert FiledUnder(r, t, buckets) == Some(key);
    var u := e[key := e[key] + [r]];
    assert e'.Keys == u.Keys;
    forall b | b in e' ensures e'[b] == u[b] {
      TagEntrySnocAt(pre, r, t, buckets, b);
      HoldsInBucket(r, t, b, buckets);
    }
    MapExt(e', u);
  }


  /** The entry of `t` part-way through record `r`: `r` is counted once `t` is among the handled tags `done`. */
  function LoadedEntry(pre: seq<Record>, r: Record, done: set<string>, t: string, buckets: seq<real>): ScoreBuckets
  {
    TagEntry(if t in done then pre + [r] else pre, t, buckets)
  }

  /**
   * The table part-way through record `r`: the tags in `done` already hold
   * `r`, every other tag is as it was after the records before `r`.
   */
  function PartlyLoaded(pre: seq<Record>, r: Record, done: set<string>, buckets: seq<real>, allow: Option<seq<string>>): TagBuckets
  {
    map t | t in TagsIn(pre) + done && Allowed(allow, t) :: LoadedEntry(pre, r, done, t, buckets)
  }

  /** A map that differs from `m` only at `t`, where it holds `e`, is `m` updated at `t`. */
  lemma UpdatedAt(m: TagBuckets, n: TagBuckets, t: string, e: ScoreBuckets)
    requires n.Keys == m.Keys + {t}
    requires n[t] == e
    requires forall x :: x in m && x != t ==> n[x] == m[x]
    ensures n == m[t := e]
  {
  }

  lemma PartlyLoadedStart(pre: seq<Record>, r: Record, buckets: seq<real>, allow: Option<seq<string>>)
    ensures PartlyLoaded(pre, r, {}, buckets, allow) == Bucketed(pre, buckets, allow)
  {
    var m, n := PartlyLoaded(pre, r, {}, buckets, allow), Bucketed(pre, buckets, allow);
    assert m.Keys == n.Keys;
    MapExt(m, n);
  }

  lemma PartlyLoadedDone(pre: seq<Record>, r: Record, buckets: seq<real>, allow: Option<seq<string>>)
    ensures PartlyLoaded(pre, r, r.scores.Keys, buckets, allow) == Bucketed(pre + [r], buckets, allow)
  {
    var m := PartlyLoaded(pre, r, r.scores.Keys, buckets, allow);
    var n := Bucketed(pre + [r], buckets, allow);
    TagsInSnoc(pre, r);
    assert m.Keys == n.Keys;
    forall t | t in m ensures m[t] == n[t] {
      if t !in r.scores {
        TagEntrySnocUnscored(pre, r, t, buckets);
      }
    }
    MapExt(m, n);
  }

  /** Marking `t` as handled leaves the entry of every other tag as it was. */
  lemma LoadedEntryOther(pre: seq<Record>, r: Record, done: set<string>, t: string, x: string, buckets: seq<real>)
    requires x != t
    ensures LoadedEntry(pre, r, done + {t}, x, buckets) == LoadedEntry(pre, r, done, x, buckets)
  {
    assert x in done + {t} <==> x in done;
  }

  /** Handling a tag the allow-list rejects changes nothing. */
  lemma PartlyLoadedSkip(pre: seq<Record>, r: Record, done: set<string>, t: string, buckets: seq<real>, allow: Option<seq<string>>)
    requires !Allowed(allow, t)
    ensures PartlyLoaded(pre, r, done + {t}, buckets, allow) == PartlyLoaded(pre, r, done, buckets, allow)
  {
    var m := PartlyLoaded(pre, r, done, buckets, allow);
    var n := PartlyLoaded(pre, r, done + {t}, buckets, allow);
    assert m.Keys == n.Keys;
    forall x | x in m ensures m[x] == n[x] {
      LoadedEntryOther(pre, r, done, t, x, buckets);
    }
    MapExt(m, n);
  }

  /** Handling an admitted tag `t` of `r` replaces its entry by the one that includes `r`. */
  lemma PartlyLoadedStep(pre: seq<Record>, r: Record, done: set<string>, t: string, buckets: seq<real>, allow: Option<seq<string>>)
    requires t in r.scores && Allowed(allow, t)
    ensures PartlyLoaded(pre, r, done + {t}, buckets, allow) ==
      PartlyLoaded(pre, r, done, buckets, allow)[t := TagEntry(pre + [r], t, buckets)]
  {
    var m := PartlyLoaded(pre, r, done, buckets, allow);
    var n := PartlyLoaded(pre, r, done + {t}, buckets, allow);
    assert TagsIn(pre) + (done + {t}) == (TagsIn(pre) + done) + {t};
    assert n.Keys == m.Keys + {t};
    assert n[t] == LoadedEntry(pre, r, done + {t}, t, buckets);
    forall x | x in m && x != t ensures n[x] == m[x] {
      LoadedEntryOther(pre, r, done, t, x, buckets);
    }
    UpdatedAt(m, n, t, TagEntry(pre + [r], t, buckets));
  }

  /** Before `t` is handled, its entry is the one built from the earlier records, or absent if unseen. */
  lemma PartlyLoadedEntry(pre: seq<Record>, r: Record, done: set<string>, t: string, buckets: seq<real>, allow: Option<seq<string>>)
    requires t !in done && Allowed(allow, t)
    ensures
      var m := PartlyLoaded(pre, r, done, buckets, allow);
      (if t in m then m[t] else EmptyBuckets(buckets)) == TagEntry(pre, t, buckets)
  {
    if t !in TagsIn(pre) {
      TagEntryOfUnseen(pre, t, buckets);
    }
  }

  /**
   * The body of the inner loop of `_load_files`, lines 127-138, for tag `t`
   * of record `r`: skip it if the allow-list rejects it, make a fresh entry
   * on first sight, find the floor threshold and append `r` there.
   */
  method AddTag(tags: TagBuckets, r: Record, t: string, buckets: seq<real>, allow: Option<seq<string>>,
                ghost pre: seq<Record>, ghost done: set<string>)
    returns (tags': TagBuckets)
    requires |buckets| > 0 && t in r.scores && t !in done
    requires tags == PartlyLoaded(pre, r, done, buckets, allow)
    ensures tags' == PartlyLoaded(pre, r, done + {t}, buckets, allow)
  {
    if !Allowed(allow, t) {
      PartlyLoadedSkip(pre, r, done, t, buckets, allow);
      return tags;
    }
    PartlyLoadedEntry(pre, r, done, t, buckets, allow);
    TagEntrySnocScored(pre, r, t, buckets);
    PartlyLoadedStep(pre, r, done, t, buckets, allow);
    var entry := if t in tags then tags[t] else EmptyBuckets(buckets);
    var idx := BucketIndex(buckets, r.scores[t]);
    var key := buckets[idx];
    tags' := tags[t := entry[key := entry[key] + [r]]];
  }

  /** The inner loop of `_load_files`, lines 126-138: every tag record `r` scores is handled in turn. */
  method AddRecord(tags: TagBuckets, r: Record, buckets: seq<real>, allow: Option<seq<string>>, ghost pre: seq<Record>)
    returns (tags': TagBuckets)
    requires |buckets| > 0
    requires tags == Bucketed(pre, buckets, allow)
    ensures tags' == Bucketed(pre + [r], buckets, allow)
  {
    tags' := tags;
    PartlyLoadedStart(pre, r, buckets, allow);
    var rest := r.scores.Keys;
    ghost var done: set<string> := {};
    while rest != {}
      invariant rest + done == r.scores.Keys && rest !! done
      invariant tags' == PartlyLoaded(pre, r, done, buckets, allow)
      decreases rest
    {
      var t :| t in rest;
      tags' := AddTag(tags', r, t, buckets, allow, pre, done);
      rest := rest - {t};
      done := done + {t};
    }
    PartlyLoadedDone(pre, r, buckets, allow);
  }

  /**
   * `_load_files`, lines 122-140: every record is added in turn to an
   * initially empty table. An empty metadata list raises instead (None here).
   */
  method LoadFiles(metadataList: seq<Record>, buckets: seq<real>, allow: Option<seq<string>>)
    returns (result: Option<TagBuckets>)
    requires |buckets| > 0
    ensures result.None? <==> |metadataList| == 0
    ensures result.Some? ==> result.value == Bucketed(metadataList, buckets, allow)
  {
    if |metadataList| == 0 {
      return None;
    }
    var tags: TagBuckets := map[];
    var i := 0;
    while i < |metadataList|
      invariant 0 <= i <= |metadataList|
      invariant tags == Bucketed(metadataList[..i], buckets, allow)
    {
      assert metadataList[..i + 1] == metadataList[..i] + [metadataList[i]];
      tags := AddRecord(tags, metadataList[i], buckets, allow, metadataList[..i]);
      i := i + 1;
    }
    assert metadataList[..|metadataList|] == metadataList;
    return Some(tags);
  }

  lemma BucketedEntry(recs: seq<Record>, buckets: seq<real>, allow: Option<seq<string>>, t: string)
    requires t in Bucketed(recs, buckets, allow)
    ensures Bucketed(recs, buckets, allow)[t] == TagEntry(recs, t, buckets)
  {
  }

  lemma TagEntryAt(recs: seq<Record>, t: string, buckets: seq<real>, b: real)
    requires b in buckets
    ensures b in TagEntry(recs, t, buckets) && TagEntry(recs, t, buckets)[b] == Filter(recs, InBucket(t, b, buckets))
  {
  }

  /** Tags outside the allow-list never become keys; every scored admitted tag does. */
  lemma BucketedKeys(recs: seq<Record>, buckets: seq<real>, allow: Option<seq<string>>, t: string)
    requires |buckets| > 0
    ensures t in Bucketed(recs, buckets, allow) <==>
      Allowed(allow, t) && exists r :: r in recs && t in r.scores
  {
    TagsInMembership(recs, t);
  }

  /** Every tag entry has exactly the thresholds as keys. */
  lemma BucketedShape(recs: seq<Record>, buckets: seq<real>, allow: Option<seq<string>>, t: string)
    requires |buckets| > 0
    requires t in Bucketed(recs, buckets, allow)
    ensures Bucketed(recs, buckets, allow)[t].Keys == set b | b in buckets
  {
  }

  /** A record sits under threshold `b` of tag `t` exactly when `b` is its floor threshold for `t`. */
  lemma BucketedMembership(recs: seq<Record>, buckets: seq<real>, allow: Option<seq<string>>, t: string, b: real, x: Record)
    requires |buckets| > 0
    requires t in Bucketed(recs, buckets, allow) && b in buckets
    ensures x in Bucketed(recs, buckets, allow)[t][b] <==>
      x in recs && FiledUnder(x, t, buckets) == Some(b)
  {
    var c := InBucket(t, b, buckets);
    var e := Bucketed(recs, buckets, allow)[t];
    BucketedEntry(recs, buckets, allow, t);
    assert e == TagEntry(recs, t, buckets);
    TagEntryAt(recs, t, buckets, b);
    assert e[b] == Filter(recs, c);
    FilterMembership(recs, c, x);
    HoldsInBucket(x, t, b, buckets);
  }

  /** A tag's records pooled over its thresholds, in threshold order (lines 461-463). */
  function Pool(m: ScoreBuckets, bs: seq<real>): seq<Record>
  {
    if bs == [] then [] else (if bs[0] in m then m[bs[0]] else []) + Pool(m, bs[1..])
  }

  /** A tag's total bucket population (the sort key of line 459). */
  function Population(m: ScoreBuckets, bs: seq<real>): (n: nat)
    ensures n == |Pool(m, bs)|
  {
    if bs == [] then 0 else (if bs[0] in m then |m[bs[0]]| else 0) + Population(m, bs[1..])
  }

  function TagPopulation(tags: TagBuckets, t: string, buckets: seq<real>): nat
  {
    if t in tags then Population(tags[t], buckets) else 0
  }

  lemma DistinctTail<T>(s: seq<T>)
    requires Distinct(s) && s != []
    ensures Distinct(s[1..]) && s[0] !in s[1..]
  {
    forall i, j | 0 <= i < j < |s[1..]| ensures s[1..][i] != s[1..][j] {
      assert s[1..][i] == s[i + 1] && s[1..][j] == s[j + 1];
    }
    forall k | 0 <= k < |s[1..]| ensures s[1..][k] != s[0] {
      assert s[1..][k] == s[k + 1];
    }
  }

  /**
   * Pooling distinct thresholds `bs` of an entry in which `x` occurs `n` times
   * under threshold `f` and nowhere else gives `x` exactly `n` times when `f`
   * is among `bs`, and not at all otherwise.
   */
  lemma {:induction false} PoolMultiplicity(m: ScoreBuckets, bs: seq<real>, x: Record, f: Option<real>, n: nat)
    requires Distinct(bs)
    requires forall b :: b in bs ==> b in m && multiset(m[b])[x] == if f == Some(b) then n else 0
    ensures multiset(Pool(m, bs))[x] == if f.Some? && f.value in bs then n else 0
  {
    if bs != [] {
      DistinctTail(bs);
      assert forall b :: b in bs[1..] ==> b in bs;
      PoolMultiplicity(m, bs[1..], x, f, n);
      assert Pool(m, bs) == m[bs[0]] + Pool(m, bs[1..]);
      assert forall b :: b in bs <==> b == bs[0] || b in bs[1..];
    }
  }

  /** How often a record occurs under each threshold of a tag entry. */
  lemma EntryMultiplicity(recs: seq<Record>, t: string, buckets: seq<real>, x: Record, b: real)
    requires b in buckets
    ensures b in TagEntry(recs, t, buckets)
    ensures multiset(TagEntry(recs, t, buckets)[b])[x] ==
      if FiledUnder(x, t, buckets) == Some(b) then multiset(recs)[x] else 0
  {
    TagEntryAt(recs, t, buckets, b);
    FilterMultiplicity(recs, InBucket(t, b, buckets), x);
  }

  lemma EntryMultiplicityAll(recs: seq<Record>, t: string, buckets: seq<real>, x: Record)
    ensures forall b :: b in buckets ==>
      b in TagEntry(recs, t, buckets) &&
      multiset(TagEntry(recs, t, buckets)[b])[x] == if FiledUnder(x, t, buckets) == Some(b) then multiset(recs)[x] else 0
  {
    forall b | b in buckets
      ensures b in TagEntry(recs, t, buckets)
      ensures multiset(TagEntry(recs, t, buckets)[b])[x] == if FiledUnder(x, t, buckets) == Some(b) then multiset(recs)[x] else 0
    {
      EntryMultiplicity(recs, t, buckets, x, b);
    }
  }

  /** A record is filed under some threshold of a tag exactly when it scores the tag. */
  lemma FiledUnderSomeThreshold(x: Record, t: string, buckets: seq<real>)
    requires |buckets| > 0
    ensures (FiledUnder(x, t, buckets).Some? && FiledUnder(x, t, buckets).value in buckets) <==> Holds(HasTag(t), x)
  {
  }

  /** Pooled over all thresholds, a record occurs as often as it does among the records scoring the tag. */
  lemma PoolCount(recs: seq<Record>, t: string, buckets: seq<real>, x: Record)
    requires |buckets| > 0 && Distinct(buckets)
    ensures multiset(Pool(TagEntry(recs, t, buckets), buckets))[x] == multiset(Filter(recs, HasTag(t)))[x]
  {
    EntryMultiplicityAll(recs, t, buckets, x);
    PoolMultiplicity(TagEntry(recs, t, buckets), buckets, x, FiledUnder(x, t, buckets), multiset(recs)[x]);
    FilterMultiplicity(recs, HasTag(t), x);
    FiledUnderSomeThreshold(x, t, buckets);
  }

  /** Pooling all thresholds of a tag entry gives back the records that score the tag. */
  lemma TagEntryPool(recs: seq<Record>, t: string, buckets: seq<real>)
    requires |buckets| > 0 && Distinct(buckets)
    ensures multiset(Pool(TagEntry(recs, t, buckets), buckets)) == multiset(Filter(recs, HasTag(t)))
  {
    forall x | true
      ensures multiset(Pool(TagEntry(recs, t, buckets), buckets))[x] == multiset(Filter(recs, HasTag(t)))[x]
    {
      PoolCount(recs, t, buckets, x);
    }
  }

  /**
   * Fan-out conservation: pooling a tag's thresholds gives back exactly the
   * records that score the tag, each as often as it occurs in the input.
   */
  lemma FanOutConservation(recs: seq<Record>, buckets: seq<real>, allow: Option<seq<string>>, t: string)
    requires |buckets| > 0 && Distinct(buckets)
    requires t in Bucketed(recs, buckets, allow)
    ensures multiset(Pool(Bucketed(recs, buckets, allow)[t], buckets)) == multiset(Filter(recs, HasTag(t)))
    ensures Population(Bucketed(recs, buckets, allow)[t], buckets) == |Filter(recs, HasTag(t))|
  {
    BucketedEntry(recs, buckets, allow, t);
    TagEntryPool(recs, t, buckets);
    var pool := Pool(Bucketed(recs, buckets, allow)[t], buckets);
    assert |multiset(pool)| == |pool|;
  }

  /**
   * `sorted(all_svm_tags.keys(), key=population)`: every tag exactly once, in
   * ascending order of total bucket population.
   */
  method SortTagsByPopulation(tags: TagBuckets, buckets: seq<real>) returns (order: seq<string>)
    ensures forall t :: multiset(order)[t] == if t in tags then 1 else 0
    ensures forall i, j :: 0 <= i < j < |order| ==>
      TagPopulation(tags, order[i], buckets) <= TagPopulation(tags, order[j], buckets)
  {
    var keys := KeyList(tags);
    order := SortBy(keys, (t: string) => TagPopulation(tags, t, buckets) as real);
  }
}
