/**
 * One tag of `generate_tag_dict_html` (lines 325-393): the tag report, then,
 * when excluded IDs are given, the split into included and excluded records
 * and a report on each side.
 */
module TagDict {
  import opened Common
  import opened Metadata
  import opened Selection
  import opened Pages
  import opened Reports

  /** The reports one tag produces, and the two sides of the excluded-ID split. */
  datatype DictPages = DictPages(
    tagReport: Option<Result<Report, ReportError>>,
    included: seq<Record>,
    excluded: seq<Record>,
    includedReport: Option<Result<Report, ReportError>>,
    excludedReport: Option<Result<Report, ReportError>>)

  /** Lines 356-360: each record goes to the excluded side when its ID is excluded, else to the included side. */
  method SplitExcluded(records: seq<Record>, excludedIds: set<nat>) returns (included: seq<Record>, excluded: seq<Record>)
    ensures included == Filter(records, Not(Excluded(excludedIds)))
    ensures excluded == Filter(records, Excluded(excludedIds))
  {
    excluded, included := Partition(records, Excluded(excludedIds));
  }

  /** The two sides of the split hold every record once. */
  lemma SplitExcludedPartition(records: seq<Record>, excludedIds: set<nat>)
    ensures multiset(Filter(records, Not(Excluded(excludedIds)))) + multiset(Filter(records, Excluded(excludedIds))) == multiset(records)
  {
    FilterPartition(records, Excluded(excludedIds));
  }

  /** A record is on the excluded side exactly when its ID is excluded, and on the included side exactly when not. */
  lemma SplitExcludedMembership(records: seq<Record>, excludedIds: set<nat>, x: Record)
    ensures x in Filter(records, Excluded(excludedIds)) <==> x in records && x.id in excludedIds
    ensures x in Filter(records, Not(Excluded(excludedIds))) <==> x in records && x.id !in excludedIds
  {
    FilterMembership(records, Excluded(excludedIds), x);
    FilterMembership(records, Not(Excluded(excludedIds)), x);
  }

  /**
   * Whether the block reaches the excluded-ID split: the tag has records,
   * excluded IDs are given, and the tag report did not raise.
   */
  predicate SplitReached(t: string, records: seq<Record>, excludedIds: set<nat>, n: nat, parsers: DateParsers)
  {
    records != [] && excludedIds != {} && ReportFailure(records, KeyFor(ByScore, t, parsers), n, parsers) == None
  }

  /**
   * The block as written: a tag without records is skipped; otherwise the
   * tag report is made and, when excluded IDs are given, the included list
   * is reported unconditionally while the excluded list is reported only
   * when it is non-empty. Any report that raises ends the block. A tag
   * whose records are all excluded therefore reaches the mean of an empty
   * list (line 609) on the included side.
   */
  method TagDictPagesAsWritten(t: string, records: seq<Record>, excludedIds: set<nat>, n: nat, parsers: DateParsers)
    returns (out: DictPages)
    ensures out.tagReport.Some? <==> records != []
    ensures out.tagReport.Some? ==> Reported(out.tagReport.value, records, KeyFor(ByScore, t, parsers), n, parsers)
    ensures out.included == (if SplitReached(t, records, excludedIds, n, parsers) then Filter(records, Not(Excluded(excludedIds))) else [])
    ensures out.excluded == (if SplitReached(t, records, excludedIds, n, parsers) then Filter(records, Excluded(excludedIds)) else [])
    ensures out.includedReport.Some? <==> SplitReached(t, records, excludedIds, n, parsers)
    ensures out.includedReport.Some? ==> Reported(out.includedReport.value, out.included, KeyFor(ByScore, t, parsers), n, parsers)
    ensures out.excludedReport.Some? <==>
      out.excluded != [] && out.includedReport.Some? && out.includedReport.value.Success?
    ensures out.excludedReport.Some? ==> Reported(out.excludedReport.value, out.excluded, KeyFor(ByScore, t, parsers), n, parsers)
    ensures SplitReached(t, records, excludedIds, n, parsers) && (forall x :: x in records ==> x.id in excludedIds) ==>
      out.includedReport == Some(Failure(NoRecords))
  {
    out := DictPages(None, [], [], None, None);
    if |records| == 0 {
      return;
    }
    var key := KeyFor(ByScore, t, parsers);
    var rep := PrepareTagReport(records, key, n, parsers);
    out := out.(tagReport := Some(rep));
    if rep.Failure? || excludedIds == {} {
      return;
    }
    var included, excluded := SplitExcluded(records, excludedIds);
    out := out.(included := included, excluded := excluded);
    var incRep := PrepareTagReport(included, key, n, parsers);
    out := out.(includedReport := Some(incRep));
    if forall x :: x in records ==> x.id in excludedIds {
      NothingIncluded(records, excludedIds);
    }
    if incRep.Failure? {
      return;
    }
    if |excluded| > 0 {
      var excRep := PrepareTagReport(excluded, key, n, parsers);
      out := out.(excludedReport := Some(excRep));
    }
  }

  lemma NothingIncluded(records: seq<Record>, excludedIds: set<nat>)
    requires forall x :: x in records ==> x.id in excludedIds
    ensures Filter(records, Not(Excluded(excludedIds))) == []
  {
    var inc := Filter(records, Not(Excluded(excludedIds)));
    if inc != [] {
      FilterMembership(records, Not(Excluded(excludedIds)), inc[0]);
    }
  }

  /** A tag with one record whose ID is excluded: the as-written block reaches the empty mean. */
  lemma AllExcludedExample()
    ensures var r := Record(7, "", map["dog" := 0.9], 1, 1, "", "");
      [r] != [] && (forall x :: x in [r] ==> x.id in {7}) && Filter([r], Not(Excluded({7}))) == []
  {
    var r := Record(7, "", map["dog" := 0.9], 1, 1, "", "");
    NothingIncluded([r], {7});
  }

  /** A report that was made did not fail for want of records. */
  predicate NeverEmpty(rep: Option<Result<Report, ReportError>>)
  {
    rep.Some? ==> rep.value != Failure(NoRecords)
  }

  /** A report that was made failed, if at all, only because the page size is zero. */
  predicate OnlyPageSizeFails(rep: Option<Result<Report, ReportError>>, n: nat)
  {
    rep.Some? && rep.value.Failure? ==> rep.value.error == ZeroPageSize && n == 0
  }

  /** Records that all score `t` and have parseable dates. */
  predicate Clean(t: string, records: seq<Record>, parsers: DateParsers)
  {
    forall x :: x in records ==> t in x.scores && DatesParse(x, parsers)
  }

  /** A non-empty clean list's report fails only for a zero page size. */
  lemma CleanFailure(t: string, records: seq<Record>, n: nat, parsers: DateParsers)
    requires records != [] && Clean(t, records, parsers)
    ensures ReportFailure(records, KeyFor(ByScore, t, parsers), n, parsers) == if n == 0 then Some(ZeroPageSize) else None
  {
    ReportSucceedsIff(records, KeyFor(ByScore, t, parsers), n, parsers);
  }

  /** Both sides of the split of a clean list are clean. */
  lemma CleanSides(t: string, records: seq<Record>, excludedIds: set<nat>, parsers: DateParsers)
    requires Clean(t, records, parsers)
    ensures Clean(t, Filter(records, Not(Excluded(excludedIds))), parsers)
    ensures Clean(t, Filter(records, Excluded(excludedIds)), parsers)
  {
    forall x | x in Filter(records, Not(Excluded(excludedIds))) || x in Filter(records, Excluded(excludedIds))
      ensures x in records
    {
      SplitExcludedMembership(records, excludedIds, x);
    }
  }

  /**
   * The block with the included side guarded like the excluded side: no
   * report is ever asked of an empty list, so none fails for want of
   * records; on records that all score the tag and have parseable dates a
   * failure can only come from a zero page size.
   */
  method TagDictPages(t: string, records: seq<Record>, excludedIds: set<nat>, n: nat, parsers: DateParsers)
    returns (out: DictPages)
    ensures out.tagReport.Some? <==> records != []
    ensures out.tagReport.Some? ==> Reported(out.tagReport.value, records, KeyFor(ByScore, t, parsers), n, parsers)
    ensures out.included == (if SplitReached(t, records, excludedIds, n, parsers) then Filter(records, Not(Excluded(excludedIds))) else [])
    ensures out.excluded == (if SplitReached(t, records, excludedIds, n, parsers) then Filter(records, Excluded(excludedIds)) else [])
    ensures out.includedReport.Some? <==> SplitReached(t, records, excludedIds, n, parsers) && out.included != []
    ensures out.includedReport.Some? ==> Reported(out.includedReport.value, out.included, KeyFor(ByScore, t, parsers), n, parsers)
    ensures out.excludedReport.Some? <==>
      SplitReached(t, records, excludedIds, n, parsers) && out.excluded != [] &&
      (out.includedReport.None? || out.includedReport.value.Success?)
    ensures out.excludedReport.Some? ==> Reported(out.excludedReport.value, out.excluded, KeyFor(ByScore, t, parsers), n, parsers)
    ensures NeverEmpty(out.tagReport) && NeverEmpty(out.includedReport) && NeverEmpty(out.excludedReport)
    ensures Clean(t, records, parsers) ==>
      OnlyPageSizeFails(out.tagReport, n) && OnlyPageSizeFails(out.includedReport, n) && OnlyPageSizeFails(out.excludedReport, n)
  {
    out := DictPages(None, [], [], None, None);
    if |records| == 0 {
      return;
    }
    var key := KeyFor(ByScore, t, parsers);
    var rep := PrepareTagReport(records, key, n, parsers);
    out := out.(tagReport := Some(rep));
    if Clean(t, records, parsers) {
      CleanFailure(t, records, n, parsers);
    }
    if rep.Failure? || excludedIds == {} {
      return;
    }
    var included, excluded := SplitExcluded(records, excludedIds);
    out := out.(included := included, excluded := excluded);
    if Clean(t, records, parsers) {
      CleanSides(t, records, excludedIds, parsers);
    }
    if |included| > 0 {
      var incRep := PrepareTagReport(included, key, n, parsers);
      out := out.(includedReport := Some(incRep));
      if Clean(t, records, parsers) {
        CleanFailure(t, included, n, parsers);
      }
      if incRep.Failure? {
        return;
      }
    }
    if |excluded| > 0 {
      var excRep := PrepareTagReport(excluded, key, n, parsers);
      out := out.(excludedReport := Some(excRep));
      if Clean(t, records, parsers) {
        CleanFailure(t, excluded, n, parsers);
      }
    }
  }
}
