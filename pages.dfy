/**
 * Splitting a sorted record list into pages (`chunks`) and the two report
 * builders that decide between one page and an index of pages:
 * `prepare_img_table_for_tag` and `prepare_img_table_without_tag`.
 */
module Pages {
  import opened Common
  import opened Metadata
  import opened Selection
  import opened Sorting

  /** `chunks(lst, n)`: successive slices `lst[i:i + n]` for `i` in `range(0, len(lst), n)`. */
  function Chunks<T>(s: seq<T>, n: nat): seq<seq<T>>
    requires n > 0
    decreases |s|
  {
    if |s| == 0 then []
    else if |s| <= n then [s]
    else [s[..n]] + Chunks(s[n..], n)
  }

  /** The chunks put back together are the list. */
  lemma {:induction false} ChunksFlatten<T>(s: seq<T>, n: nat)
    requires n > 0
    ensures Flatten(Chunks(s, n)) == s
    decreases |s|
  {
    if |s| > n {
      ChunksFlatten(s[n..], n);
      assert s == s[..n] + s[n..];
    } else if |s| > 0 {
      assert Flatten(Chunks(s, n)) == s + Flatten([]);
    }
  }

  /**
   * There are `ceil(len / n)` chunks: the least count whose `n`-record pages
   * hold the whole list.
   */
  lemma {:induction false} ChunksCount<T>(s: seq<T>, n: nat)
    requires n > 0
    ensures |Chunks(s, n)| * n >= |s|
    ensures |Chunks(s, n)| > 0 ==> (|Chunks(s, n)| - 1) * n < |s|
    ensures |Chunks(s, n)| == 0 <==> |s| == 0
    decreases |s|
  {
    if |s| > n {
      ChunksCount(s[n..], n);
      var c := |Chunks(s[n..], n)|;
      assert |Chunks(s, n)| == c + 1;
      assert (c + 1) * n == c * n + n;
      assert c * n == (c - 1) * n + n;
    }
  }

  lemma MulPred(k: nat, n: nat)
    requires k > 0
    ensures (k - 1) * n + n == k * n
  {
  }

  /** A slice of the list without its first `n` elements is a shifted slice of the list. */
  lemma DropSlice<T>(s: seq<T>, n: nat, lo: nat, hi: nat)
    requires n <= |s| && lo <= hi <= |s| - n
    ensures s[n..][lo..hi] == s[lo + n .. hi + n]
  {
  }

  lemma MinShift(a: int, b: int, n: int)
    ensures Min(a, b) + n == Min(a + n, b + n)
  {
  }

  lemma {:induction false} ChunksTail<T>(s: seq<T>, n: nat, k: nat)
    requires n > 0 && 0 < k < |Chunks(s, n)|
    ensures |s| > n && k - 1 < |Chunks(s[n..], n)| && Chunks(s, n)[k] == Chunks(s[n..], n)[k - 1]
  {
  }

  /** Chunk `k` covers `[k*n, min(k*n + n, len))`. */
  lemma {:induction false} ChunkAt<T>(s: seq<T>, n: nat, k: nat)
    requires n > 0 && k < |Chunks(s, n)|
    ensures k * n < |s|
    ensures Chunks(s, n)[k] == s[k * n .. Min(k * n + n, |s|)]
    decreases |s|
  {
    if k == 0 {
      assert k * n == 0;
    } else {
      ChunksTail(s, n, k);
      var t := s[n..];
      ChunkAt(t, n, k - 1);
      var lo := (k - 1) * n;
      MulPred(k, n);
      MinShift(lo + n, |t|, n);
      DropSlice(s, n, lo, Min(lo + n, |t|));
    }
  }

  /** Every chunk but the last is full, and the last holds between 1 and `n` records. */
  lemma ChunkLength<T>(s: seq<T>, n: nat, k: nat)
    requires n > 0 && k < |Chunks(s, n)|
    ensures k < |Chunks(s, n)| - 1 ==> |Chunks(s, n)[k]| == n
    ensures 1 <= |Chunks(s, n)[k]| <= n
  {
    ChunkAt(s, n, k);
    if k < |Chunks(s, n)| - 1 {
      ChunkAt(s, n, k + 1);
      assert (k + 1) * n == k * n + n;
    }
  }

  /** One page of an index: its bounds, its records and their number of invalid dates. */
  datatype Page = Page(lower: nat, upper: nat, records: seq<Record>, invalidDates: nat)

  /**
   * The pages the chunk loop builds from `sorted` (lines 616-643 and
   * 199-216): page `k` is chunk `k`, bounded by `k*n` and
   * `min(k*n + n, len)`, with its own invalid-date count.
   */
  predicate Paged(pages: seq<Page>, sorted: seq<Record>, n: nat, parsers: DateParsers)
    requires n > 0
  {
    var cs := Chunks(sorted, n);
    |pages| == |cs| &&
    forall k :: 0 <= k < |pages| ==>
      pages[k] == Page(k * n, Min(k * n + n, |sorted|), cs[k], GetInvalidDates(cs[k], parsers))
  }

  function RecordsOf(pages: seq<Page>): (rs: seq<seq<Record>>)
    ensures |rs| == |pages|
    ensures forall k :: 0 <= k < |pages| ==> rs[k] == pages[k].records
  {
    if pages == [] then [] else [pages[0].records] + RecordsOf(pages[1..])
  }

  /** The invalid-date counts of the pages, summed. */
  function SumInvalid(pages: seq<Page>): nat
  {
    if pages == [] then 0 else pages[0].invalidDates + SumInvalid(pages[1..])
  }

  lemma {:induction false} SumInvalidSnoc(pages: seq<Page>, p: Page)
    ensures SumInvalid(pages + [p]) == SumInvalid(pages) + p.invalidDates
  {
    if pages == [] {
      assert [] + [p] == [p];
    } else {
      assert (pages + [p])[1..] == pages[1..] + [p];
      SumInvalidSnoc(pages[1..], p);
    }
  }

  lemma {:induction false} SumInvalidOfChunks(cs: seq<seq<Record>>, pages: seq<Page>, parsers: DateParsers)
    requires |pages| == |cs|
    requires forall k :: 0 <= k < |cs| ==> pages[k].invalidDates == GetInvalidDates(cs[k], parsers)
    ensures SumInvalid(pages) == GetInvalidDates(Flatten(cs), parsers)
  {
    if cs != [] {
      SumInvalidOfChunks(cs[1..], pages[1..], parsers);
      CountConcat(cs[0], Flatten(cs[1..]), InvalidDate(parsers));
    }
  }

  /**
   * What a page list promises: each page is the slice of `sorted` between its
   * bounds, its bounds differ by its length, every page but the last holds
   * `n` records and the last between 1 and `n`, the pages cover `sorted` in
   * order, and the per-page invalid counts add up to the whole list's.
   */
  lemma PagedCovers(pages: seq<Page>, sorted: seq<Record>, n: nat, parsers: DateParsers)
    requires n > 0 && Paged(pages, sorted, n, parsers)
    ensures |pages| * n >= |sorted|
    ensures |pages| > 0 ==> (|pages| - 1) * n < |sorted|
    ensures forall k :: 0 <= k < |pages| ==>
      pages[k].lower < pages[k].upper <= |sorted| &&
      pages[k].records == sorted[pages[k].lower .. pages[k].upper] &&
      pages[k].upper - pages[k].lower == |pages[k].records| <= n
    ensures forall k :: 0 <= k < |pages| - 1 ==> |pages[k].records| == n && pages[k].upper == pages[k + 1].lower
    ensures Flatten(RecordsOf(pages)) == sorted
    ensures SumInvalid(pages) == GetInvalidDates(sorted, parsers)
  {
    var cs := Chunks(sorted, n);
    ChunksCount(sorted, n);
    forall k | 0 <= k < |pages|
      ensures pages[k].lower < pages[k].upper <= |sorted|
      ensures pages[k].records == sorted[pages[k].lower .. pages[k].upper]
      ensures pages[k].upper - pages[k].lower == |pages[k].records| <= n
      ensures k < |pages| - 1 ==> |pages[k].records| == n
    {
      ChunkAt(sorted, n, k);
      ChunkLength(sorted, n, k);
    }
    forall k | 0 <= k < |pages| - 1
      ensures pages[k].upper == pages[k + 1].lower
    {
      ChunkAt(sorted, n, k + 1);
      assert k * n + n == (k + 1) * n;
    }
    assert RecordsOf(pages) == cs;
    ChunksFlatten(sorted, n);
    SumInvalidOfChunks(cs, pages, parsers);
  }

  /** The chunk loop: one page per chunk, with its bounds and its invalid-date count. */
  method Paginate(sorted: seq<Record>, n: nat, parsers: DateParsers) returns (pages: seq<Page>)
    requires n > 0
    ensures Paged(pages, sorted, n, parsers)
  {
    var cs := Chunks(sorted, n);
    pages := [];
    var chunkIdx := 0;
    while chunkIdx < |cs|
      invariant 0 <= chunkIdx <= |cs|
      invariant |pages| == chunkIdx
      invariant forall k :: 0 <= k < chunkIdx ==>
        pages[k] == Page(k * n, Min(k * n + n, |sorted|), cs[k], GetInvalidDates(cs[k], parsers))
    {
      var chunk := cs[chunkIdx];
      var lower := chunkIdx * n;
      var upper := Min(lower + n, |sorted|);
      pages := pages + [Page(lower, upper, chunk, GetInvalidDates(chunk, parsers))];
      chunkIdx := chunkIdx + 1;
    }
  }

  /** How a report fails instead of producing pages. */
  datatype ReportError =
    /**
     * The list is empty: the mean divides by zero in
     * `prepare_img_table_for_tag`, and `prepare_img_table_without_tag`
     * stops at its debugger breakpoint and returns without a page.
     */
    | NoRecords
    /** `imgs_per_page` is 0 and the list must be chunked: `range` refuses a zero step. */
    | ZeroPageSize
    /** The sort key raises on a record: a missing tag score, or a date string that does not parse. */
    | BadKey
    /**
     * A page's table parses every DATE_TAKEN with `isoparse` and every
     * DATE_UPLOADED with `int` (lines 145-146, 223-224), and one of them does
     * not parse.
     */
    | BadDate

  /** A `key=` lambda of the source: the value it computes, or None where it raises. */
  type SortKey = Record -> Option<real>

  /** The values of a key, for sorting a list on which it never raises. */
  function KeyValue(key: SortKey): Record -> real
  {
    (x: Record) => if key(x).Some? then key(x).value else 0.0
  }

  predicate KeyDefined(records: seq<Record>, key: SortKey)
  {
    forall x :: x in records ==> key(x).Some?
  }

  /** Both date strings of `r` parse, so a page's table can show it. */
  predicate DatesParse(r: Record, parsers: DateParsers)
  {
    parsers.taken(r.dateTaken).Some? && parsers.uploaded(r.dateUploaded).Some?
  }

  predicate Renderable(records: seq<Record>, parsers: DateParsers)
  {
    forall x :: x in records ==> DatesParse(x, parsers)
  }

  /**
   * The exception a report on `records` ends with, in the order the builders
   * meet them: the sort key on every record, then the mean of an empty list,
   * then chunking with a zero page size, then the tables' date parsing.
   */
  function ReportFailure(records: seq<Record>, key: SortKey, n: nat, parsers: DateParsers): Option<ReportError>
  {
    if !KeyDefined(records, key) then Some(BadKey)
    else if records == [] then Some(NoRecords)
    else if n == 0 then Some(ZeroPageSize)
    else if !Renderable(records, parsers) then Some(BadDate)
    else None
  }

  /** A report succeeds exactly on a non-empty list with a positive page size, a key defined everywhere and dates that parse. */
  lemma ReportSucceedsIff(records: seq<Record>, key: SortKey, n: nat, parsers: DateParsers)
    ensures ReportFailure(records, key, n, parsers) == None <==>
      records != [] && n > 0 && KeyDefined(records, key) && Renderable(records, parsers)
    ensures records != [] && KeyDefined(records, key) && Renderable(records, parsers) ==>
      ReportFailure(records, key, n, parsers) == if n == 0 then Some(ZeroPageSize) else None
  {
  }

  /** A report on one page, or an index of pages. */
  datatype Layout = SinglePage(records: seq<Record>) | Indexed(pages: seq<Page>)

  /** A report: the sorted records, their invalid-date count and the page layout. */
  datatype Report = Report(sorted: seq<Record>, invalidDates: nat, layout: Layout)

  /** The sorted list, its invalid count and its layout as the report promises them. */
  predicate ReportOf(rep: Report, records: seq<Record>, key: SortKey, n: nat, parsers: DateParsers)
  {
    multiset(rep.sorted) == multiset(records) &&
    SortedBy(rep.sorted, KeyValue(key)) &&
    rep.invalidDates == GetInvalidDates(records, parsers) &&
    match rep.layout
    case SinglePage(rs) => rs == rep.sorted
    case Indexed(pages) => n > 0 && Paged(pages, rep.sorted, n, parsers)
  }

  /**
   * What `prepare_img_table_for_tag` promises for one list: the exception
   * `ReportFailure` names, or a report on the list that fits on one page
   * exactly when the list has at most `imgs_per_page` records.
   */
  predicate Reported(res: Result<Report, ReportError>, records: seq<Record>, key: SortKey, n: nat, parsers: DateParsers)
  {
    match res
    case Failure(e) => ReportFailure(records, key, n, parsers) == Some(e)
    case Success(rep) =>
      ReportFailure(records, key, n, parsers) == None &&
      ReportOf(rep, records, key, n, parsers) && (rep.layout.SinglePage? <==> |records| <= n)
  }

  lemma SameMembers(a: seq<Record>, b: seq<Record>)
    requires multiset(a) == multiset(b)
    ensures forall x :: x in a <==> x in b
  {
    assert forall x :: x in a <==> x in multiset(a);
    assert forall x :: x in b <==> x in multiset(b);
  }

  /**
   * `prepare_img_table_for_tag` (lines 606-657): sort by the score key, count
   * invalid dates, take the mean, then either one page with every record (at
   * most `imgs_per_page` of them) or one page per chunk plus an index; each
   * page's table parses the dates of its records.
   */
  method PrepareTagReport(records: seq<Record>, key: SortKey, n: nat, parsers: DateParsers)
    returns (res: Result<Report, ReportError>)
    ensures Reported(res, records, key, n, parsers)
  {
    if !KeyDefined(records, key) {
      return Failure(BadKey);
    }
    var sorted := SortBy(records, KeyValue(key));
    var nInvalid := GetInvalidDates(sorted, parsers);
    CountOfPermutation(sorted, records, InvalidDate(parsers));
    SameMembers(sorted, records);
    if |sorted| == 0 {
      return Failure(NoRecords);
    }
    if |sorted| > n {
      if n == 0 {
        return Failure(ZeroPageSize);
      }
      var pages := Paginate(sorted, n, parsers);
      if !Renderable(sorted, parsers) {
        return Failure(BadDate);
      }
      return Success(Report(sorted, nInvalid, Indexed(pages)));
    }
    if !Renderable(sorted, parsers) {
      return Failure(BadDate);
    }
    return Success(Report(sorted, nInvalid, SinglePage(sorted)));
  }

  /**
   * What `prepare_img_table_without_tag` promises: the exception
   * `ReportFailure` names for the de-duplicated list, or an index of pages
   * over it, with the input's IDs once each.
   */
  predicate ReportedWithoutTag(res: Result<Report, ReportError>, records: seq<Record>, key: SortKey, n: nat, parsers: DateParsers)
  {
    var unique := RemoveDuplicate(records);
    match res
    case Failure(e) => ReportFailure(unique, key, n, parsers) == Some(e)
    case Success(rep) =>
      ReportFailure(unique, key, n, parsers) == None &&
      ReportOf(rep, unique, key, n, parsers) && rep.layout.Indexed? &&
      IdsOf(rep.sorted) == IdsOf(records) && DistinctIds(rep.sorted)
  }

  /**
   * `prepare_img_table_without_tag` (lines 172-218): drop duplicate IDs, sort
   * by the key and count invalid dates; an empty list stops there, any other
   * list is always chunked into an index, even when it fits on one page.
   */
  method PrepareReportWithoutTag(records: seq<Record>, key: SortKey, n: nat, parsers: DateParsers)
    returns (res: Result<Report, ReportError>)
    ensures ReportedWithoutTag(res, records, key, n, parsers)
  {
    var unique := RemoveDuplicate(records);
    if !KeyDefined(unique, key) {
      return Failure(BadKey);
    }
    var sorted := SortBy(unique, KeyValue(key));
    var nInvalid := GetInvalidDates(sorted, parsers);
    CountOfPermutation(sorted, unique, InvalidDate(parsers));
    SameMembers(sorted, unique);
    if |unique| == 0 {
      return Failure(NoRecords);
    }
    if n == 0 {
      return Failure(ZeroPageSize);
    }
    var pages := Paginate(sorted, n, parsers);
    if !Renderable(sorted, parsers) {
      return Failure(BadDate);
    }
    PermutationKeepsIds(sorted, unique);
    return Success(Report(sorted, nInvalid, Indexed(pages)));
  }

  /** A report on the deduplicated list shows only records of the list. */
  lemma ReportHoldsOnly(rep: Report, records: seq<Record>, key: SortKey, n: nat, parsers: DateParsers)
    requires ReportOf(rep, RemoveDuplicate(records), key, n, parsers)
    ensures forall x :: x in rep.sorted ==> x in records
  {
    forall x | x in rep.sorted ensures x in records {
      assert x in multiset(rep.sorted);
      assert x in RemoveDuplicate(records);
    }
  }
}
