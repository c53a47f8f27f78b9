/**
 * The per-tag pass of `generate_img_html` (lines 459-512): each tag's pooled
 * records are split into invalid-date, weird-aspect and valid lists, and the
 * lists handed to the tag and threshold reports are collected.
 */
module Reports {
  import opened Common
  import opened Metadata
  import opened Outliers
  import opened Selection
  import opened Buckets
  import opened Pages
  import opened UserTags

  /** The settings of one run: the thresholds in dict order, the date parsers, `conf_threshold` and `print_threshold_page`. */
  datatype Config = Config(buckets: seq<real>, parsers: DateParsers, conf: real, printThreshold: bool)

  /** The records one report page set is built from, and the tag it is for. */
  datatype TagList = TagList(tag: string, records: seq<Record>)

  /**
   * What the pass accumulates: `all_invalid_date_meta`,
   * `all_weird_aspect_ratio_meta`, `all_valid_meta_list`, and the lists given
   * to the tag reports and to the threshold reports.
   */
  datatype Views = Views(invalid: seq<Record>, weird: seq<Record>, valid: seq<Record>,
                         tagLists: seq<TagList>, thresholdLists: seq<TagList>)

  lemma {:induction false} PoolSnoc(m: ScoreBuckets, bs: seq<real>, b: real)
    ensures Pool(m, bs + [b]) == Pool(m, bs) + (if b in m then m[b] else [])
  {
    if bs == [] {
      assert [b][1..] == [];
    } else {
      assert (bs + [b])[1..] == bs[1..] + [b];
      PoolSnoc(m, bs[1..], b);
    }
  }

  /** Lines 461-463: the tag's buckets concatenated in threshold order. */
  method GatherPool(m: ScoreBuckets, bs: seq<real>) returns (pool: seq<Record>)
    ensures pool == Pool(m, bs)
  {
    pool := [];
    var i := 0;
    while i < |bs|
      invariant 0 <= i <= |bs|
      invariant pool == Pool(m, bs[..i])
    {
      assert bs[..i + 1] == bs[..i] + [bs[i]];
      PoolSnoc(m, bs[..i], bs[i]);
      if bs[i] in m {
        pool := pool + m[bs[i]];
      }
      i := i + 1;
    }
    assert bs[..i] == bs;
  }

  /** The pooled records of tag `t`. */
  function PoolOf(tags: TagBuckets, t: string, buckets: seq<real>): seq<Record>
  {
    if t in tags then Pool(tags[t], buckets) else []
  }

  /**
   * One iteration of the tag loop on `pool`: the invalid-date records go to
   * the invalid list; the rest, the valid-date list, are split into weird and
   * valid; a tag with no valid-date record is skipped; otherwise the
   * valid-date list gets a tag report and, when threshold pages are enabled,
   * its records scoring strictly above `conf` get a threshold report unless
   * there are none.
   */
  function Step(v: Views, t: string, pool: seq<Record>, cfg: Config): Views
  {
    var dated := Filter(pool, Not(InvalidDate(cfg.parsers)));
    var above := Filter(dated, ScoreAbove(t, cfg.conf));
    Views(v.invalid + Filter(pool, InvalidDate(cfg.parsers)),
          v.weird + Filter(dated, WeirdAspect),
          v.valid + Filter(dated, Not(WeirdAspect)),
          v.tagLists + (if dated == [] then [] else [TagList(t, dated)]),
          v.thresholdLists + (if dated != [] && cfg.printThreshold && above != [] then [TagList(t, above)] else []))
  }

  /** The state after the tag loop has handled the tags of `order`. */
  function Classified(tags: TagBuckets, order: seq<string>, cfg: Config): Views
    decreases |order|
  {
    if order == [] then Views([], [], [], [], [])
    else
      var t := order[|order| - 1];
      Step(Classified(tags, order[..|order| - 1], cfg), t, PoolOf(tags, t, cfg.buckets), cfg)
  }

  /** Every record the tag loop visits, tag by tag. */
  function AllPooled(tags: TagBuckets, order: seq<string>, buckets: seq<real>): seq<Record>
    decreases |order|
  {
    if order == [] then []
    else
      var t := order[|order| - 1];
      AllPooled(tags, order[..|order| - 1], buckets) + PoolOf(tags, t, buckets)
  }

  /** The body of the tag loop (lines 466-512) for tag `t` and its pool. */
  method ClassifyTag(v: Views, t: string, pool: seq<Record>, cfg: Config) returns (v': Views)
    ensures v' == Step(v, t, pool, cfg)
  {
    var invalidPart, dated := Partition(pool, InvalidDate(cfg.parsers));
    var weirdPart, validPart := Partition(dated, WeirdAspect);
    v' := v.(invalid := v.invalid + invalidPart, weird := v.weird + weirdPart, valid := v.valid + validPart);
    if |dated| == 0 {
      return;
    }
    v' := v'.(tagLists := v'.tagLists + [TagList(t, dated)]);
    if cfg.printThreshold {
      var above := Filter(dated, ScoreAbove(t, cfg.conf));
      if |above| > 0 {
        v' := v'.(thresholdLists := v'.thresholdLists + [TagList(t, above)]);
      }
    }
  }

  /**
   * Lines 459-512: the tags in ascending order of population (each exactly
   * once), then the loop over them.
   */
  method ClassifyTags(tags: TagBuckets, cfg: Config) returns (order: seq<string>, v: Views)
    ensures forall t :: multiset(order)[t] == if t in tags then 1 else 0
    ensures forall i, j :: 0 <= i < j < |order| ==>
      TagPopulation(tags, order[i], cfg.buckets) <= TagPopulation(tags, order[j], cfg.buckets)
    ensures v == Classified(tags, order, cfg)
  {
    order := SortTagsByPopulation(tags, cfg.buckets);
    v := Views([], [], [], [], []);
    var i := 0;
    while i < |order|
      invariant 0 <= i <= |order|
      invariant v == Classified(tags, order[..i], cfg)
    {
      var t := order[i];
      assert t in multiset(order);
      assert order[..i + 1][..i] == order[..i];
      var pool := GatherPool(tags[t], cfg.buckets);
      v := ClassifyTag(v, t, pool, cfg);
      i := i + 1;
    }
    assert order[..i] == order;
  }

  /** Every record visited lands in exactly one of the invalid, weird and valid lists. */
  lemma {:induction false} ClassifiedPartition(tags: TagBuckets, order: seq<string>, cfg: Config)
    ensures var v := Classified(tags, order, cfg);
      multiset(v.invalid) + multiset(v.weird) + multiset(v.valid) == multiset(AllPooled(tags, order, cfg.buckets))
    decreases |order|
  {
    if order != [] {
      var init, t := order[..|order| - 1], order[|order| - 1];
      ClassifiedPartition(tags, init, cfg);
      var pool := PoolOf(tags, t, cfg.buckets);
      var dated := Filter(pool, Not(InvalidDate(cfg.parsers)));
      FilterPartition(pool, InvalidDate(cfg.parsers));
      FilterPartition(dated, WeirdAspect);
    }
  }

  /** The lists one iteration appends hold exactly the pool's records of each kind. */
  lemma StepMembership(w: Views, t: string, pool: seq<Record>, cfg: Config, x: Record)
    ensures var v := Step(w, t, pool, cfg);
      var bad := IsInvalidDate(x, cfg.parsers);
      (x in v.invalid <==> x in w.invalid || (x in pool && bad)) &&
      (x in v.weird <==> x in w.weird || (x in pool && !bad && IsWeirdAspectRatio(x))) &&
      (x in v.valid <==> x in w.valid || (x in pool && !bad && !IsWeirdAspectRatio(x)))
  {
    var dated := Filter(pool, Not(InvalidDate(cfg.parsers)));
    FilterMembership(pool, InvalidDate(cfg.parsers), x);
    FilterMembership(pool, Not(InvalidDate(cfg.parsers)), x);
    FilterMembership(dated, WeirdAspect, x);
    FilterMembership(dated, Not(WeirdAspect), x);
  }

  /**
   * A record is in the invalid list exactly when some visited pool holds it
   * and its dates are invalid; in the weird list when its dates are valid and
   * its aspect ratio is weird; in the valid list when neither.
   */
  lemma {:induction false} ClassifiedMembership(tags: TagBuckets, order: seq<string>, cfg: Config, x: Record)
    ensures var v := Classified(tags, order, cfg);
      var seen := x in AllPooled(tags, order, cfg.buckets);
      var bad := IsInvalidDate(x, cfg.parsers);
      (x in v.invalid <==> seen && bad) &&
      (x in v.weird <==> seen && !bad && IsWeirdAspectRatio(x)) &&
      (x in v.valid <==> seen && !bad && !IsWeirdAspectRatio(x))
    decreases |order|
  {
    if order != [] {
      var init, t := order[..|order| - 1], order[|order| - 1];
      ClassifiedMembership(tags, init, cfg, x);
      var pool := PoolOf(tags, t, cfg.buckets);
      StepMembership(Classified(tags, init, cfg), t, pool, cfg, x);
      assert x in AllPooled(tags, order, cfg.buckets) <==> x in AllPooled(tags, init, cfg.buckets) || x in pool;
    }
  }

  /** The tags the lists are for, in list order. */
  function TagNames(ls: seq<TagList>): (names: seq<string>)
    ensures |names| == |ls|
    decreases |ls|
  {
    if ls == [] then [] else TagNames(ls[..|ls| - 1]) + [ls[|ls| - 1].tag]
  }

  lemma TagNamesSnoc(ls: seq<TagList>, l: TagList)
    ensures TagNames(ls + [l]) == TagNames(ls) + [l.tag]
  {
    assert (ls + [l])[..|ls + [l]| - 1] == ls;
  }

  /** The valid-date records of a tag's pool: the list its tag report is built from. */
  function DatedPool(tags: TagBuckets, t: string, cfg: Config): seq<Record>
  {
    Filter(PoolOf(tags, t, cfg.buckets), Not(InvalidDate(cfg.parsers)))
  }

  /** Each tag list is its tag's valid-date pool, never empty. */
  predicate TagListsSound(ls: seq<TagList>, tags: TagBuckets, cfg: Config)
  {
    forall k :: 0 <= k < |ls| ==> ls[k].records != [] && ls[k].records == DatedPool(tags, ls[k].tag, cfg)
  }

  /**
   * Each threshold list is its tag's valid-date records scoring strictly
   * above `conf`, never empty, and only there when threshold pages are enabled.
   */
  predicate ThresholdListsSound(ls: seq<TagList>, tags: TagBuckets, cfg: Config)
  {
    forall k :: 0 <= k < |ls| ==>
      cfg.printThreshold && ls[k].records != [] &&
      ls[k].records == Filter(DatedPool(tags, ls[k].tag, cfg), ScoreAbove(ls[k].tag, cfg.conf))
  }

  /** What the lists handed to the reports hold. */
  lemma {:induction false} ClassifiedListsSound(tags: TagBuckets, order: seq<string>, cfg: Config)
    ensures TagListsSound(Classified(tags, order, cfg).tagLists, tags, cfg)
    ensures ThresholdListsSound(Classified(tags, order, cfg).thresholdLists, tags, cfg)
    decreases |order|
  {
    if order != [] {
      var init, u := order[..|order| - 1], order[|order| - 1];
      ClassifiedListsSound(tags, init, cfg);
      var w, v := Classified(tags, init, cfg), Classified(tags, order, cfg);
      var dated := DatedPool(tags, u, cfg);
      var above := Filter(dated, ScoreAbove(u, cfg.conf));
      var more: seq<TagList> := if dated != [] then [TagList(u, dated)] else [];
      var moreAbove: seq<TagList> := if dated != [] && cfg.printThreshold && above != [] then [TagList(u, above)] else [];
      assert v.tagLists == w.tagLists + more;
      assert v.thresholdLists == w.thresholdLists + moreAbove;
      assert TagListsSound(more, tags, cfg);
      assert ThresholdListsSound(moreAbove, tags, cfg);
      TagListsAppend(w.tagLists, more, tags, cfg);
      ThresholdListsAppend(w.thresholdLists, moreAbove, tags, cfg);
    }
  }

  lemma TagListsAppend(a: seq<TagList>, b: seq<TagList>, tags: TagBuckets, cfg: Config)
    requires TagListsSound(a, tags, cfg) && TagListsSound(b, tags, cfg)
    ensures TagListsSound(a + b, tags, cfg)
  {
    forall k | 0 <= k < |a + b|
      ensures (a + b)[k].records != [] && (a + b)[k].records == DatedPool(tags, (a + b)[k].tag, cfg)
    {
      if k < |a| {
        assert (a + b)[k] == a[k];
      } else {
        assert (a + b)[k] == b[k - |a|];
      }
    }
  }

  lemma ThresholdListsAppend(c: seq<TagList>, d: seq<TagList>, tags: TagBuckets, cfg: Config)
    requires ThresholdListsSound(c, tags, cfg) && ThresholdListsSound(d, tags, cfg)
    ensures ThresholdListsSound(c + d, tags, cfg)
  {
    forall k | 0 <= k < |c + d|
      ensures cfg.printThreshold && (c + d)[k].records != [] &&
        (c + d)[k].records == Filter(DatedPool(tags, (c + d)[k].tag, cfg), ScoreAbove((c + d)[k].tag, cfg.conf))
    {
      if k < |c| {
        assert (c + d)[k] == c[k];
      } else {
        assert (c + d)[k] == d[k - |c|];
      }
    }
  }

  /** One iteration adds the tag to the tag-report names when it has a valid-date record. */
  lemma StepTagNames(w: Views, u: string, pool: seq<Record>, cfg: Config)
    ensures TagNames(Step(w, u, pool, cfg).tagLists) ==
      TagNames(w.tagLists) + (if Filter(pool, Not(InvalidDate(cfg.parsers))) != [] then [u] else [])
  {
    var dated := Filter(pool, Not(InvalidDate(cfg.parsers)));
    if dated != [] {
      TagNamesSnoc(w.tagLists, TagList(u, dated));
    } else {
      assert w.tagLists + [] == w.tagLists;
    }
  }

  /** One iteration adds the tag to the threshold-report names when a valid-date record scores above `conf`. */
  lemma StepThresholdNames(w: Views, u: string, pool: seq<Record>, cfg: Config)
    ensures TagNames(Step(w, u, pool, cfg).thresholdLists) ==
      TagNames(w.thresholdLists) +
      (if cfg.printThreshold && Filter(Filter(pool, Not(InvalidDate(cfg.parsers))), ScoreAbove(u, cfg.conf)) != [] then [u] else [])
  {
    var dated := Filter(pool, Not(InvalidDate(cfg.parsers)));
    var above := Filter(dated, ScoreAbove(u, cfg.conf));
    if dated == [] {
      assert above == [];
    }
    if dated != [] && cfg.printThreshold && above != [] {
      TagNamesSnoc(w.thresholdLists, TagList(u, above));
    } else {
      assert w.thresholdLists + [] == w.thresholdLists;
    }
  }

  /** The tag reports and the threshold reports follow the processing order. */
  lemma {:induction false} ClassifiedFollowsOrder(tags: TagBuckets, order: seq<string>, cfg: Config)
    ensures Subsequence(TagNames(Classified(tags, order, cfg).tagLists), order)
    ensures Subsequence(TagNames(Classified(tags, order, cfg).thresholdLists), order)
    decreases |order|
  {
    if order != [] {
      var init, u := order[..|order| - 1], order[|order| - 1];
      ClassifiedFollowsOrder(tags, init, cfg);
      var w := Classified(tags, init, cfg);
      var pool := PoolOf(tags, u, cfg.buckets);
      var dated := DatedPool(tags, u, cfg);
      StepTagNames(w, u, pool, cfg);
      StepThresholdNames(w, u, pool, cfg);
      assert order == init + [u];
      SubsequenceSnoc(TagNames(w.tagLists), init, u, dated != []);
      SubsequenceSnoc(TagNames(w.thresholdLists), init, u,
        cfg.printThreshold && Filter(dated, ScoreAbove(u, cfg.conf)) != []);
    }
  }

  /** A tag gets a tag report exactly when it has a valid-date record. */
  lemma {:induction false} ClassifiedReportedTags(tags: TagBuckets, order: seq<string>, cfg: Config, t: string)
    ensures t in TagNames(Classified(tags, order, cfg).tagLists) <==> t in order && DatedPool(tags, t, cfg) != []
    decreases |order|
  {
    if order != [] {
      var init, u := order[..|order| - 1], order[|order| - 1];
      ClassifiedReportedTags(tags, init, cfg, t);
      var w, pool := Classified(tags, init, cfg), PoolOf(tags, u, cfg.buckets);
      assert Classified(tags, order, cfg) == Step(w, u, pool, cfg);
      StepTagNames(w, u, pool, cfg);
      var added := if DatedPool(tags, u, cfg) != [] then [u] else [];
      assert t in TagNames(w.tagLists) + added <==> t in TagNames(w.tagLists) || t in added;
      assert order == init + [u];
      assert t in order <==> t in init || t == u;
    }
  }

  /**
   * A tag gets a threshold report exactly when threshold pages are enabled
   * and one of its valid-date records scores strictly above `conf`.
   */
  lemma {:induction false} ClassifiedThresholdTags(tags: TagBuckets, order: seq<string>, cfg: Config, t: string)
    ensures t in TagNames(Classified(tags, order, cfg).thresholdLists) <==>
      t in order && cfg.printThreshold && Filter(DatedPool(tags, t, cfg), ScoreAbove(t, cfg.conf)) != []
    decreases |order|
  {
    if order != [] {
      var init, u := order[..|order| - 1], order[|order| - 1];
      ClassifiedThresholdTags(tags, init, cfg, t);
      var w, pool := Classified(tags, init, cfg), PoolOf(tags, u, cfg.buckets);
      assert Classified(tags, order, cfg) == Step(w, u, pool, cfg);
      StepThresholdNames(w, u, pool, cfg);
      var added := if cfg.printThreshold && Filter(DatedPool(tags, u, cfg), ScoreAbove(u, cfg.conf)) != [] then [u] else [];
      assert t in TagNames(w.thresholdLists) + added <==> t in TagNames(w.thresholdLists) || t in added;
      assert order == init + [u];
      assert t in order <==> t in init || t == u;
    }
  }

  /**
   * On the buckets `_load_files` builds, a tag's valid-date pool holds each
   * input record carrying the tag with valid dates, once.
   */
  lemma DatedPoolContents(recs: seq<Record>, allow: Option<seq<string>>, t: string, cfg: Config)
    requires |cfg.buckets| > 0 && Distinct(cfg.buckets)
    requires t in Bucketed(recs, cfg.buckets, allow)
    ensures multiset(DatedPool(Bucketed(recs, cfg.buckets, allow), t, cfg)) ==
            multiset(Filter(recs, Both(HasTag(t), Not(InvalidDate(cfg.parsers)))))
  {
    var tags := Bucketed(recs, cfg.buckets, allow);
    FanOutConservation(recs, cfg.buckets, allow, t);
    FilterOfPermutation(Pool(tags[t], cfg.buckets), Filter(recs, HasTag(t)), Not(InvalidDate(cfg.parsers)));
    FilterFilter(recs, HasTag(t), Not(InvalidDate(cfg.parsers)));
  }

  /** The two sort keys of the tag-style reports: a tag's confidence score, or the upload instant. */
  datatype KeyKind = ByScore | ByUpload

  /**
   * `lambda x: x.AUTO_TAG_SCORES[t]`, which raises on a record without a
   * score for `t`, or `lambda x: int(x.DATE_UPLOADED)`, which raises where
   * the upload time does not parse.
   */
  function KeyFor(kind: KeyKind, t: string, parsers: DateParsers): SortKey
  {
    match kind
    case ByScore => (x: Record) => if t in x.scores then Some(x.scores[t]) else None
    case ByUpload => (x: Record) => match parsers.uploaded(x.dateUploaded) case Some(u) => Some(u as real) case None => None
  }

  /** `lambda x: x.ASPECT_RATIO` (line 574): it never raises. */
  const AspectKey: SortKey := (x: Record) => Some(AspectRatio(x))

  /**
   * The key of line 591: the seconds from upload to taking, which raises
   * unless both dates parse.
   */
  function GapKey(parsers: DateParsers): SortKey
  {
    (x: Record) =>
      match (parsers.taken(x.dateTaken), parsers.uploaded(x.dateUploaded))
      case (Some(taken), Some(uploaded)) => Some((taken - uploaded) as real)
      case _ => None
  }

  /**
   * The gap key is defined exactly where both dates parse, so a report sorted
   * by it raises in its key, never later in a table's date parsing.
   */
  lemma GapKeyNeverBadDate(records: seq<Record>, n: nat, parsers: DateParsers)
    ensures forall x :: GapKey(parsers)(x).Some? <==> DatesParse(x, parsers)
    ensures ReportFailure(records, GapKey(parsers), n, parsers) != Some(BadDate)
  {
    assert forall x :: GapKey(parsers)(x).Some? <==> DatesParse(x, parsers);
  }

  /** The exception the report on list `l`, sorted by `kind`, ends with. */
  function ListFailure(l: TagList, kind: KeyKind, n: nat, parsers: DateParsers): Option<ReportError>
  {
    ReportFailure(l.records, KeyFor(kind, l.tag, parsers), n, parsers)
  }

  /** The exception of the first list whose report fails: the one that ends a loop of reports. */
  function FirstFailure(ls: seq<TagList>, kind: KeyKind, n: nat, parsers: DateParsers): Option<ReportError>
  {
    if ls == [] then None else OrElse(ListFailure(ls[0], kind, n, parsers), FirstFailure(ls[1..], kind, n, parsers))
  }

  /** No list fails exactly when there is no first failure; otherwise the first failing list gives the exception. */
  lemma {:induction false} FirstFailureIsFirst(ls: seq<TagList>, kind: KeyKind, n: nat, parsers: DateParsers)
    ensures FirstFailure(ls, kind, n, parsers) == None <==>
      forall k :: 0 <= k < |ls| ==> ListFailure(ls[k], kind, n, parsers) == None
    ensures FirstFailure(ls, kind, n, parsers).Some? ==>
      exists k :: 0 <= k < |ls| && ListFailure(ls[k], kind, n, parsers) == FirstFailure(ls, kind, n, parsers) &&
        forall j :: 0 <= j < k ==> ListFailure(ls[j], kind, n, parsers) == None
  {
    if ls != [] {
      var rest := ls[1..];
      FirstFailureIsFirst(rest, kind, n, parsers);
      assert forall k :: 0 < k < |ls| ==> ls[k] == rest[k - 1];
      if ListFailure(ls[0], kind, n, parsers).Some? {
        assert ListFailure(ls[0], kind, n, parsers) == FirstFailure(ls, kind, n, parsers);
      } else if FirstFailure(rest, kind, n, parsers).Some? {
        var k :| 0 <= k < |rest| && ListFailure(rest[k], kind, n, parsers) == FirstFailure(rest, kind, n, parsers) &&
          forall j :: 0 <= j < k ==> ListFailure(rest[j], kind, n, parsers) == None;
        assert ListFailure(ls[k + 1], kind, n, parsers) == FirstFailure(ls, kind, n, parsers);
      }
    }
  }

  lemma FirstFailureStep(ls: seq<TagList>, i: nat, kind: KeyKind, n: nat, parsers: DateParsers)
    requires i < |ls|
    ensures FirstFailure(ls[i..], kind, n, parsers) ==
      OrElse(ListFailure(ls[i], kind, n, parsers), FirstFailure(ls[i + 1..], kind, n, parsers))
  {
    assert ls[i..][1..] == ls[i + 1..];
  }

  /** Every list of `ls` has its report in `reps`, at the same position. */
  predicate AllReported(reps: seq<Report>, ls: seq<TagList>, kind: KeyKind, n: nat, parsers: DateParsers)
  {
    |reps| == |ls| &&
    forall k :: 0 <= k < |ls| ==> Reported(Success(reps[k]), ls[k].records, KeyFor(kind, ls[k].tag, parsers), n, parsers)
  }

  lemma AllReportedSnoc(reps: seq<Report>, ls: seq<TagList>, rep: Report, l: TagList, kind: KeyKind, n: nat, parsers: DateParsers)
    requires AllReported(reps, ls, kind, n, parsers)
    requires Reported(Success(rep), l.records, KeyFor(kind, l.tag, parsers), n, parsers)
    ensures AllReported(reps + [rep], ls + [l], kind, n, parsers)
  {
    var reps', ls' := reps + [rep], ls + [l];
    forall k | 0 <= k < |ls'|
      ensures Reported(Success(reps'[k]), ls'[k].records, KeyFor(kind, ls'[k].tag, parsers), n, parsers)
    {
      if k < |ls| {
        assert reps'[k] == reps[k] && ls'[k] == ls[k];
      }
    }
  }

  /**
   * One `prepare_img_table_for_tag` call per list, in list order, each sorted
   * by `kind`; the first exception ends the loop.
   */
  method ReportLists(lists: seq<TagList>, kind: KeyKind, n: nat, parsers: DateParsers)
    returns (res: Result<seq<Report>, ReportError>)
    ensures res.Failure? ==> FirstFailure(lists, kind, n, parsers) == Some(res.error)
    ensures res.Success? ==> FirstFailure(lists, kind, n, parsers) == None && AllReported(res.value, lists, kind, n, parsers)
  {
    var reps: seq<Report> := [];
    var i := 0;
    while i < |lists|
      invariant 0 <= i <= |lists|
      invariant FirstFailure(lists, kind, n, parsers) == FirstFailure(lists[i..], kind, n, parsers)
      invariant AllReported(reps, lists[..i], kind, n, parsers)
    {
      var rep := PrepareTagReport(lists[i].records, KeyFor(kind, lists[i].tag, parsers), n, parsers);
      FirstFailureStep(lists, i, kind, n, parsers);
      if rep.Failure? {
        return Failure(rep.error);
      }
      AllReportedSnoc(reps, lists[..i], rep.value, lists[i], kind, n, parsers);
      assert lists[..i] + [lists[i]] == lists[..i + 1];
      reps := reps + [rep.value];
      i := i + 1;
    }
    assert lists[..i] == lists;
    return Success(reps);
  }

  /** The darkroom groups as report lists, in vocabulary order (lines 545-559). */
  function GroupLists(kept: seq<string>, groups: map<string, seq<Record>>): (ls: seq<TagList>)
    ensures |ls| == |kept|
    ensures forall k :: 0 <= k < |kept| ==>
      ls[k].tag == kept[k] && ls[k].records == (if kept[k] in groups then groups[kept[k]] else [])
  {
    if kept == [] then []
    else [TagList(kept[0], if kept[0] in groups then groups[kept[0]] else [])] + GroupLists(kept[1..], groups)
  }

  /** The darkroom groups of lines 533-536: each vocabulary tag of the index with its de-duplicated entry. */
  function DarkroomMap(vocab: seq<string>, index: map<string, seq<Record>>): map<string, seq<Record>>
  {
    map d | d in vocab && d in index :: RemoveDuplicate(index[d])
  }

  /** The lists the user-tag reports are built from, given the valid records. */
  function UserLists(vocab: seq<string>, valid: seq<Record>): seq<TagList>
  {
    var index := UserTagIndex(valid);
    GroupLists(KnownTags(vocab, index.Keys), DarkroomMap(vocab, index))
  }

  /**
   * Lines 582-595: the invalid-date records whose DATE_TAKEN is not `'null'`
   * are kept, in order, and reported by the gap between the two dates.
   */
  method InvalidDateReport(invalid: seq<Record>, n: nat, parsers: DateParsers)
    returns (nonNull: seq<Record>, rep: Result<Report, ReportError>)
    ensures nonNull == Filter(invalid, Not(NullTaken))
    ensures ReportedWithoutTag(rep, nonNull, GapKey(parsers), n, parsers)
    ensures rep != Failure(BadDate)
    ensures rep.Success? ==> forall x :: x in rep.value.sorted ==> x in invalid && x.dateTaken != "null"
  {
    nonNull := Keep(invalid, Not(NullTaken));
    rep := PrepareReportWithoutTag(nonNull, GapKey(parsers), n, parsers);
    GapKeyNeverBadDate(RemoveDuplicate(nonNull), n, parsers);
    if rep.Success? {
      ReportHoldsOnly(rep.value, nonNull, GapKey(parsers), n, parsers);
      forall x | x in rep.value.sorted ensures x in invalid && x.dateTaken != "null" {
        FilterMembership(invalid, Not(NullTaken), x);
      }
    }
  }

  /** The reports of the tag pass: one per tag list and one per threshold list. */
  datatype TagReports = TagReports(tagReports: seq<Report>, thresholdReports: seq<Report>)

  /**
   * The tag pass with its reports: a tag report per tag list (by score) and a
   * threshold report per threshold list (by upload time). The first failing
   * report ends `generate_img_html`.
   */
  method TagPhase(tags: TagBuckets, cfg: Config, n: nat)
    returns (order: seq<string>, v: Views, res: Result<TagReports, ReportError>)
    ensures forall t :: multiset(order)[t] == if t in tags then 1 else 0
    ensures forall i, j :: 0 <= i < j < |order| ==>
      TagPopulation(tags, order[i], cfg.buckets) <= TagPopulation(tags, order[j], cfg.buckets)
    ensures v == Classified(tags, order, cfg)
    ensures res.Failure? ==>
      OrElse(FirstFailure(v.tagLists, ByScore, n, cfg.parsers), FirstFailure(v.thresholdLists, ByUpload, n, cfg.parsers)) == Some(res.error)
    ensures res.Success? ==>
      FirstFailure(v.tagLists, ByScore, n, cfg.parsers) == None &&
      FirstFailure(v.thresholdLists, ByUpload, n, cfg.parsers) == None &&
      AllReported(res.value.tagReports, v.tagLists, ByScore, n, cfg.parsers) &&
      AllReported(res.value.thresholdReports, v.thresholdLists, ByUpload, n, cfg.parsers)
  {
    order, v := ClassifyTags(tags, cfg);
    var tagRes := ReportLists(v.tagLists, ByScore, n, cfg.parsers);
    if tagRes.Failure? {
      return order, v, Failure(tagRes.error);
    }
    var thresholdRes := ReportLists(v.thresholdLists, ByUpload, n, cfg.parsers);
    if thresholdRes.Failure? {
      return order, v, Failure(thresholdRes.error);
    }
    res := Success(TagReports(tagRes.value, thresholdRes.value));
  }

  /**
   * Lines 523-559: the user-tag index of the valid records, the darkroom
   * groups and the narrowed vocabulary, and a report per darkroom tag sorted
   * by upload time, up to the first that fails.
   */
  method UserTagPhase(valid: seq<Record>, vocab: seq<string>, n: nat, parsers: DateParsers)
    returns (index: map<string, seq<Record>>, groups: map<string, seq<Record>>, kept: seq<string>,
             res: Result<seq<Report>, ReportError>)
    ensures index == UserTagIndex(valid)
    ensures groups == DarkroomMap(vocab, index)
    ensures kept == KnownTags(vocab, index.Keys)
    ensures res.Failure? ==> FirstFailure(UserLists(vocab, valid), ByUpload, n, parsers) == Some(res.error)
    ensures res.Success? ==>
      FirstFailure(UserLists(vocab, valid), ByUpload, n, parsers) == None &&
      AllReported(res.value, UserLists(vocab, valid), ByUpload, n, parsers)
  {
    index := BuildUserTagIndex(valid);
    groups, kept := DarkroomGroups(vocab, index);
    assert groups.Keys == DarkroomMap(vocab, index).Keys;
    MapExt(groups, DarkroomMap(vocab, index));
    res := ReportLists(GroupLists(kept, groups), ByUpload, n, parsers);
  }

  /** The two outlier reports; either is absent when its list is empty. */
  datatype OutlierReports = OutlierReports(weird: Option<Report>, invalid: Option<Report>)

  /**
   * The exception `prepare_img_table_without_tag` raises on `records`: any
   * failure but the empty list's, which only stops that report.
   */
  function OutlierFailure(records: seq<Record>, key: SortKey, n: nat, parsers: DateParsers): Option<ReportError>
  {
    var f := ReportFailure(RemoveDuplicate(records), key, n, parsers);
    if f == Some(NoRecords) then None else f
  }

  /** The report `prepare_img_table_without_tag` makes when it does not raise: none for an empty list. */
  predicate OutlierReported(rep: Option<Report>, records: seq<Record>, key: SortKey, n: nat, parsers: DateParsers)
  {
    match rep
    case None => records == []
    case Some(r) => ReportedWithoutTag(Success(r), records, key, n, parsers)
  }

  /** An outlier report either raises its list's outlier failure, or there is none and the report is made (or skipped for an empty list). */
  lemma OutlierOutcome(res: Result<Report, ReportError>, records: seq<Record>, key: SortKey, n: nat, parsers: DateParsers)
    requires ReportedWithoutTag(res, records, key, n, parsers)
    ensures res.Failure? && res.error != NoRecords ==> OutlierFailure(records, key, n, parsers) == Some(res.error)
    ensures !(res.Failure? && res.error != NoRecords) ==>
      OutlierFailure(records, key, n, parsers) == None &&
      OutlierReported(if res.Success? then Some(res.value) else None, records, key, n, parsers)
  {
    assert RemoveDuplicate(records) == [] <==> records == [];
  }

  /**
   * Lines 572-595 when outlier pages are enabled: the weird-aspect records by
   * aspect ratio, then the invalid-date records with a real DATE_TAKEN by the
   * gap between their dates.
   */
  method OutlierPhase(weird: seq<Record>, invalid: seq<Record>, n: nat, parsers: DateParsers, printOutliers: bool)
    returns (nonNull: seq<Record>, res: Result<OutlierReports, ReportError>)
    ensures res.Failure? ==>
      printOutliers &&
      OrElse(OutlierFailure(weird, AspectKey, n, parsers),
             OutlierFailure(Filter(invalid, Not(NullTaken)), GapKey(parsers), n, parsers)) == Some(res.error)
    ensures res.Success? && printOutliers ==>
      OutlierFailure(weird, AspectKey, n, parsers) == None &&
      OutlierFailure(nonNull, GapKey(parsers), n, parsers) == None &&
      nonNull == Filter(invalid, Not(NullTaken)) &&
      OutlierReported(res.value.weird, weird, AspectKey, n, parsers) &&
      OutlierReported(res.value.invalid, nonNull, GapKey(parsers), n, parsers)
    ensures res.Success? && !printOutliers ==> res.value == OutlierReports(None, None)
    ensures res.Success? && res.value.invalid.Some? ==>
      forall x :: x in res.value.invalid.value.sorted ==> x in invalid && x.dateTaken != "null"
  {
    nonNull := [];
    if !printOutliers {
      return nonNull, Success(OutlierReports(None, None));
    }
    var w := PrepareReportWithoutTag(weird, AspectKey, n, parsers);
    OutlierOutcome(w, weird, AspectKey, n, parsers);
    if w.Failure? && w.error != NoRecords {
      return nonNull, Failure(w.error);
    }
    var i;
    nonNull, i := InvalidDateReport(invalid, n, parsers);
    OutlierOutcome(i, nonNull, GapKey(parsers), n, parsers);
    if i.Failure? && i.error != NoRecords {
      return nonNull, Failure(i.error);
    }
    var weirdReport := if w.Success? then Some(w.value) else None;
    var invalidReport := if i.Success? then Some(i.value) else None;
    res := Success(OutlierReports(weirdReport, invalidReport));
  }

  /** Everything `generate_img_html` computes before rendering, when no report raises. */
  datatype ImgHtml = ImgHtml(
    views: Views,
    tagReports: TagReports,
    userIndex: map<string, seq<Record>>,
    darkroomGroups: map<string, seq<Record>>,
    darkroomTags: seq<string>,
    userReports: seq<Report>,
    nonNull: seq<Record>,
    outliers: OutlierReports)

  /**
   * The exception `generate_img_html` ends with when the tags are processed
   * in `order`: the first failing tag-pass report, else the first failing
   * user-tag report, else the weird-aspect report's, else the invalid-date
   * report's.
   */
  function RunFailure(tags: TagBuckets, order: seq<string>, cfg: Config, n: nat, vocab: seq<string>, printOutliers: bool): Option<ReportError>
  {
    var v := Classified(tags, order, cfg);
    var p := cfg.parsers;
    var outliers :=
      if printOutliers then
        OrElse(OutlierFailure(v.weird, AspectKey, n, p), OutlierFailure(Filter(v.invalid, Not(NullTaken)), GapKey(p), n, p))
      else None;
    OrElse(OrElse(FirstFailure(v.tagLists, ByScore, n, p), FirstFailure(v.thresholdLists, ByUpload, n, p)),
           OrElse(FirstFailure(UserLists(vocab, v.valid), ByUpload, n, p), outliers))
  }

  /**
   * `generate_img_html` (lines 418-603) without rendering: the tag pass,
   * then the user tags of the valid records, then the outlier reports on
   * the weird and invalid lists the tag pass collected. The first report
   * that raises ends the run.
   */
  method GenerateImgHtml(tags: TagBuckets, cfg: Config, n: nat, vocab: seq<string>, printOutliers: bool)
    returns (order: seq<string>, res: Result<ImgHtml, ReportError>)
    ensures forall t :: multiset(order)[t] == if t in tags then 1 else 0
    ensures forall i, j :: 0 <= i < j < |order| ==>
      TagPopulation(tags, order[i], cfg.buckets) <= TagPopulation(tags, order[j], cfg.buckets)
    ensures res.Failure? <==> RunFailure(tags, order, cfg, n, vocab, printOutliers).Some?
    ensures res.Failure? ==> RunFailure(tags, order, cfg, n, vocab, printOutliers) == Some(res.error)
    ensures res.Success? ==>
      var out := res.value;
      out.views == Classified(tags, order, cfg) &&
      AllReported(out.tagReports.tagReports, out.views.tagLists, ByScore, n, cfg.parsers) &&
      AllReported(out.tagReports.thresholdReports, out.views.thresholdLists, ByUpload, n, cfg.parsers)
    ensures res.Success? ==>
      var out := res.value;
      out.userIndex == UserTagIndex(out.views.valid) &&
      out.darkroomGroups == DarkroomMap(vocab, out.userIndex) &&
      out.darkroomTags == KnownTags(vocab, out.userIndex.Keys) &&
      AllReported(out.userReports, UserLists(vocab, out.views.valid), ByUpload, n, cfg.parsers)
    ensures res.Success? && printOutliers ==>
      var out := res.value;
      out.nonNull == Filter(out.views.invalid, Not(NullTaken)) &&
      OutlierReported(out.outliers.weird, out.views.weird, AspectKey, n, cfg.parsers) &&
      OutlierReported(out.outliers.invalid, out.nonNull, GapKey(cfg.parsers), n, cfg.parsers)
    ensures res.Success? && !printOutliers ==> res.value.outliers == OutlierReports(None, None)
  {
    var v, tagRes;
    order, v, tagRes := TagPhase(tags, cfg, n);
    if tagRes.Failure? {
      return order, Failure(tagRes.error);
    }
    var index, groups, kept, userRes := UserTagPhase(v.valid, vocab, n, cfg.parsers);
    if userRes.Failure? {
      return order, Failure(userRes.error);
    }
    var nonNull, outRes := OutlierPhase(v.weird, v.invalid, n, cfg.parsers, printOutliers);
    if outRes.Failure? {
      return order, Failure(outRes.error);
    }
    res := Success(ImgHtml(v, tagRes.value, index, groups, kept, userRes.value, nonNull, outRes.value));
  }

  lemma {:induction false} TagNamesAt(ls: seq<TagList>, k: nat)
    requires k < |ls|
    ensures TagNames(ls)[k] == ls[k].tag
    decreases |ls|
  {
    if k < |ls| - 1 {
      TagNamesAt(ls[..|ls| - 1], k);
    }
  }

  /** On valid-date records the upload key never raises and every date parses. */
  lemma ValidListClean(records: seq<Record>, t: string, n: nat, parsers: DateParsers)
    requires records != []
    requires forall x :: x in records ==> !IsInvalidDate(x, parsers)
    ensures ReportFailure(records, KeyFor(ByUpload, t, parsers), n, parsers) == if n == 0 then Some(ZeroPageSize) else None
  {
    forall x | x in records ensures DatesParse(x, parsers) && KeyFor(ByUpload, t, parsers)(x).Some? {
      ValidDateMeansTakenBeforeUploaded(x, parsers);
    }
    ReportSucceedsIff(records, KeyFor(ByUpload, t, parsers), n, parsers);
  }

  /** Threshold lists hold valid-date records only, so their reports fail only for a zero page size. */
  lemma ThresholdListsClean(ls: seq<TagList>, tags: TagBuckets, cfg: Config, n: nat)
    requires ThresholdListsSound(ls, tags, cfg)
    ensures forall k :: 0 <= k < |ls| ==>
      ListFailure(ls[k], ByUpload, n, cfg.parsers) == if n == 0 then Some(ZeroPageSize) else None
  {
    forall k | 0 <= k < |ls|
      ensures ListFailure(ls[k], ByUpload, n, cfg.parsers) == if n == 0 then Some(ZeroPageSize) else None
    {
      var l := ls[k];
      var dated := DatedPool(tags, l.tag, cfg);
      forall x | x in l.records ensures !IsInvalidDate(x, cfg.parsers) {
        FilterMembership(dated, ScoreAbove(l.tag, cfg.conf), x);
        FilterMembership(PoolOf(tags, l.tag, cfg.buckets), Not(InvalidDate(cfg.parsers)), x);
      }
      ValidListClean(l.records, l.tag, n, cfg.parsers);
    }
  }

  /**
   * The source makes each tag's threshold report right after its tag report.
   * Taking the tag reports' first exception before the threshold reports'
   * therefore names the same exception: a threshold report fails only for a
   * zero page size, and then the first tag report has already failed.
   */
  lemma ThresholdFailureFollowsTagFailure(tags: TagBuckets, order: seq<string>, cfg: Config, n: nat)
    ensures n > 0 ==> FirstFailure(Classified(tags, order, cfg).thresholdLists, ByUpload, n, cfg.parsers) == None
    ensures n == 0 && Classified(tags, order, cfg).thresholdLists != [] ==>
      Classified(tags, order, cfg).tagLists != [] &&
      ListFailure(Classified(tags, order, cfg).tagLists[0], ByScore, n, cfg.parsers).Some?
  {
    var v := Classified(tags, order, cfg);
    ClassifiedListsSound(tags, order, cfg);
    ThresholdListsClean(v.thresholdLists, tags, cfg, n);
    FirstFailureIsFirst(v.thresholdLists, ByUpload, n, cfg.parsers);
    if n == 0 && v.thresholdLists != [] {
      var t := v.thresholdLists[0].tag;
      TagNamesAt(v.thresholdLists, 0);
      ClassifiedThresholdTags(tags, order, cfg, t);
      ClassifiedReportedTags(tags, order, cfg, t);
      assert DatedPool(tags, t, cfg) != [];
      assert |TagNames(v.tagLists)| > 0;
      assert v.tagLists[0].records != [];
    }
  }

  /** The user-tag lists hold valid records, and none is empty, so their reports fail only for a zero page size. */
  lemma UserListsClean(vocab: seq<string>, valid: seq<Record>, n: nat, parsers: DateParsers)
    requires forall x :: x in valid ==> !IsInvalidDate(x, parsers)
    ensures forall k :: 0 <= k < |UserLists(vocab, valid)| ==>
      ListFailure(UserLists(vocab, valid)[k], ByUpload, n, parsers) == if n == 0 then Some(ZeroPageSize) else None
  {
    var index := UserTagIndex(valid);
    var kept := KnownTags(vocab, index.Keys);
    var ls := UserLists(vocab, valid);
    forall k | 0 <= k < |ls|
      ensures ListFailure(ls[k], ByUpload, n, parsers) == if n == 0 then Some(ZeroPageSize) else None
    {
      var d := kept[k];
      KnownTagsMembership(vocab, index.Keys, d);
      assert ls[k].records == RemoveDuplicate(index[d]);
      UserTagIndexMembership(valid, d, Record(0, "", map[], 1, 1, "", ""));
      var y :| y in valid && d in ParseUserTags(y);
      UserTagIndexMembership(valid, d, y);
      forall x | x in ls[k].records ensures !IsInvalidDate(x, parsers) {
        DarkroomGroupIds(valid, d, x);
      }
      ValidListClean(ls[k].records, d, n, parsers);
    }
  }

  /** The weird-aspect records have valid dates, so their report raises only for a zero page size. */
  lemma WeirdReportClean(weird: seq<Record>, n: nat, parsers: DateParsers)
    requires forall x :: x in weird ==> !IsInvalidDate(x, parsers)
    ensures OutlierFailure(weird, AspectKey, n, parsers) == if n == 0 && weird != [] then Some(ZeroPageSize) else None
  {
    var unique := RemoveDuplicate(weird);
    forall x | x in unique ensures DatesParse(x, parsers) && AspectKey(x).Some? {
      ValidDateMeansTakenBeforeUploaded(x, parsers);
    }
    ReportSucceedsIff(unique, AspectKey, n, parsers);
  }

  /**
   * The invalid-date report raises exactly when a de-duplicated record has a
   * date that does not parse (in the sort key), or when there are records
   * and the page size is 0.
   */
  lemma InvalidReportFailure(records: seq<Record>, n: nat, parsers: DateParsers)
    ensures OutlierFailure(records, GapKey(parsers), n, parsers) ==
      if !Renderable(RemoveDuplicate(records), parsers) then Some(BadKey)
      else if n == 0 && records != [] then Some(ZeroPageSize)
      else None
  {
    GapKeyNeverBadDate(RemoveDuplicate(records), n, parsers);
  }

  /** On valid-date records that all score `t`, the score key never raises and every date parses. */
  lemma ScoredListClean(records: seq<Record>, t: string, n: nat, parsers: DateParsers)
    requires records != []
    requires forall x :: x in records ==> t in x.scores && !IsInvalidDate(x, parsers)
    ensures ReportFailure(records, KeyFor(ByScore, t, parsers), n, parsers) == if n == 0 then Some(ZeroPageSize) else None
  {
    forall x | x in records ensures DatesParse(x, parsers) {
      ValidDateMeansTakenBeforeUploaded(x, parsers);
    }
    ReportSucceedsIff(records, KeyFor(ByScore, t, parsers), n, parsers);
  }

  lemma ScoredValidMembership(recs: seq<Record>, t: string, parsers: DateParsers, x: Record)
    requires x in Filter(recs, Both(HasTag(t), Not(InvalidDate(parsers))))
    ensures t in x.scores && !IsInvalidDate(x, parsers)
  {
    FilterMembership(recs, Both(HasTag(t), Not(InvalidDate(parsers))), x);
    assert Holds(HasTag(t), x) && Holds(Not(InvalidDate(parsers)), x);
    assert !Holds(InvalidDate(parsers), x);
  }

  /** Only a tag of the buckets has a non-empty pool. */
  lemma DatedPoolTag(tags: TagBuckets, t: string, cfg: Config)
    ensures DatedPool(tags, t, cfg) != [] ==> t in tags
  {
  }

  /** On the buckets `_load_files` builds, a tag's valid-date pool holds records scoring the tag. */
  lemma LoadedDatedRecord(recs: seq<Record>, allow: Option<seq<string>>, t: string, cfg: Config, x: Record)
    requires |cfg.buckets| > 0 && Distinct(cfg.buckets)
    requires x in DatedPool(Bucketed(recs, cfg.buckets, allow), t, cfg)
    ensures t in x.scores && !IsInvalidDate(x, cfg.parsers)
  {
    var tags := Bucketed(recs, cfg.buckets, allow);
    var wanted := Both(HasTag(t), Not(InvalidDate(cfg.parsers)));
    DatedPoolTag(tags, t, cfg);
    var dated := DatedPool(tags, t, cfg);
    var chosen := Filter(recs, wanted);
    DatedPoolContents(recs, allow, t, cfg);
    assert multiset(dated) == multiset(chosen);
    assert x in multiset(dated);
    assert x in chosen;
    ScoredValidMembership(recs, t, cfg.parsers, x);
  }

  /** On the buckets `_load_files` builds, a tag's report fails only for a zero page size. */
  lemma LoadedPoolClean(recs: seq<Record>, allow: Option<seq<string>>, t: string, cfg: Config, n: nat)
    requires |cfg.buckets| > 0 && Distinct(cfg.buckets)
    requires DatedPool(Bucketed(recs, cfg.buckets, allow), t, cfg) != []
    ensures var dated := DatedPool(Bucketed(recs, cfg.buckets, allow), t, cfg);
      ReportFailure(dated, KeyFor(ByScore, t, cfg.parsers), n, cfg.parsers) == if n == 0 then Some(ZeroPageSize) else None
  {
    var dated := DatedPool(Bucketed(recs, cfg.buckets, allow), t, cfg);
    forall x | x in dated ensures t in x.scores && !IsInvalidDate(x, cfg.parsers) {
      LoadedDatedRecord(recs, allow, t, cfg, x);
    }
    ScoredListClean(dated, t, n, cfg.parsers);
  }

  /** On the buckets `_load_files` builds, the tag reports fail only for a zero page size. */
  lemma LoadedTagListsClean(recs: seq<Record>, allow: Option<seq<string>>, order: seq<string>, cfg: Config, n: nat)
    requires |cfg.buckets| > 0 && Distinct(cfg.buckets)
    ensures var ls := Classified(Bucketed(recs, cfg.buckets, allow), order, cfg).tagLists;
      forall k :: 0 <= k < |ls| ==> ListFailure(ls[k], ByScore, n, cfg.parsers) == if n == 0 then Some(ZeroPageSize) else None
  {
    var tags := Bucketed(recs, cfg.buckets, allow);
    var ls := Classified(tags, order, cfg).tagLists;
    ClassifiedListsSound(tags, order, cfg);
    forall k | 0 <= k < |ls|
      ensures ListFailure(ls[k], ByScore, n, cfg.parsers) == if n == 0 then Some(ZeroPageSize) else None
    {
      LoadedPoolClean(recs, allow, ls[k].tag, cfg, n);
    }
  }

  /** Every record of the valid and weird lists has valid dates. */
  lemma ClassifiedValidDates(tags: TagBuckets, order: seq<string>, cfg: Config)
    ensures forall x :: x in Classified(tags, order, cfg).valid ==> !IsInvalidDate(x, cfg.parsers)
    ensures forall x :: x in Classified(tags, order, cfg).weird ==> !IsInvalidDate(x, cfg.parsers)
  {
    forall x | x in Classified(tags, order, cfg).valid || x in Classified(tags, order, cfg).weird
      ensures !IsInvalidDate(x, cfg.parsers)
    {
      ClassifiedMembership(tags, order, cfg, x);
    }
  }

  /**
   * On the buckets `_load_files` builds with a positive page size, the only
   * report that can raise is the invalid-date one, in its sort key.
   */
  lemma LoadedRunFailure(recs: seq<Record>, allow: Option<seq<string>>, order: seq<string>, cfg: Config, n: nat,
                         vocab: seq<string>, printOutliers: bool)
    requires |cfg.buckets| > 0 && Distinct(cfg.buckets) && n > 0
    ensures var tags := Bucketed(recs, cfg.buckets, allow);
      RunFailure(tags, order, cfg, n, vocab, printOutliers) ==
        if printOutliers then OutlierFailure(Filter(Classified(tags, order, cfg).invalid, Not(NullTaken)), GapKey(cfg.parsers), n, cfg.parsers)
        else None
  {
    var tags := Bucketed(recs, cfg.buckets, allow);
    var v := Classified(tags, order, cfg);
    LoadedTagListsClean(recs, allow, order, cfg, n);
    FirstFailureIsFirst(v.tagLists, ByScore, n, cfg.parsers);
    ThresholdFailureFollowsTagFailure(tags, order, cfg, n);
    ClassifiedValidDates(tags, order, cfg);
    UserListsClean(vocab, v.valid, n, cfg.parsers);
    FirstFailureIsFirst(UserLists(vocab, v.valid), ByUpload, n, cfg.parsers);
    WeirdReportClean(v.weird, n, cfg.parsers);
  }

  /** On the buckets `_load_files` builds with page size 0, the run raises at the first tag report, if there is one. */
  lemma LoadedRunFailureZeroPageSize(recs: seq<Record>, allow: Option<seq<string>>, order: seq<string>, cfg: Config,
                                     vocab: seq<string>, printOutliers: bool)
    requires |cfg.buckets| > 0 && Distinct(cfg.buckets)
    requires Classified(Bucketed(recs, cfg.buckets, allow), order, cfg).tagLists != []
    ensures RunFailure(Bucketed(recs, cfg.buckets, allow), order, cfg, 0, vocab, printOutliers) == Some(ZeroPageSize)
  {
    var tags := Bucketed(recs, cfg.buckets, allow);
    var v := Classified(tags, order, cfg);
    LoadedTagListsClean(recs, allow, order, cfg, 0);
    assert FirstFailure(v.tagLists, ByScore, 0, cfg.parsers) == ListFailure(v.tagLists[0], ByScore, 0, cfg.parsers);
  }
}
