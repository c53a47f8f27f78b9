/**
 * The user-tag inverted index that `generate_img_html` builds from the
 * valid records, and its restriction to the darkroom vocabulary.
 */
module UserTags {
  import opened Common
  import opened Metadata

  /** `parse_user_tags`: a plain split of USER_TAGS on commas, empty segments kept. */
  function ParseUserTags(r: Record): (parts: seq<string>)
    ensures |parts| >= 1
  {
    Split(r.userTags, ',')
  }

  /** The segments hold no comma and, joined with commas, give back USER_TAGS. */
  lemma ParseUserTagsRoundTrip(r: Record)
    ensures forall k :: 0 <= k < |ParseUserTags(r)| ==> ',' !in ParseUserTags(r)[k]
    ensures Join(ParseUserTags(r), ',') == r.userTags
  {
    SplitSegmentsHaveNoSeparator(r.userTags, ',');
    JoinSplit(r.userTags, ',');
  }

  /** Any comma-free segments with at least one entry are what some USER_TAGS string parses to. */
  lemma ParseUserTagsOfJoin(r: Record, parts: seq<string>)
    requires |parts| >= 1
    requires forall k :: 0 <= k < |parts| ==> ',' !in parts[k]
    requires r.userTags == Join(parts, ',')
    ensures ParseUserTags(r) == parts
  {
    SplitJoin(parts, ',');
  }

  function SetOf(segs: seq<string>): set<string>
  {
    set x | x in segs
  }

  /** `k` copies of `r`, as `append` called `k` times leaves them. */
  function Repeat(r: Record, k: nat): (rs: seq<Record>)
    ensures |rs| == k
  {
    if k == 0 then [] else Repeat(r, k - 1) + [r]
  }

  lemma {:induction false} RepeatMembership(r: Record, k: nat, x: Record)
    ensures x in Repeat(r, k) <==> k > 0 && x == r
  {
    if k > 0 {
      RepeatMembership(r, k - 1, x);
    }
  }

  /** Every segment some record's USER_TAGS parses into. */
  function SegmentsOf(recs: seq<Record>): set<string>
  {
    if recs == [] then {} else SegmentsOf(recs[..|recs| - 1]) + SetOf(ParseUserTags(recs[|recs| - 1]))
  }

  /** The index entry for `tg`: each record once per occurrence of `tg` among its segments, in input order. */
  function IndexEntry(recs: seq<Record>, tg: string): seq<Record>
  {
    if recs == [] then []
    else
      var r := recs[|recs| - 1];
      IndexEntry(recs[..|recs| - 1], tg) + Repeat(r, multiset(ParseUserTags(r))[tg])
  }

  /** The index `all_user_tags` after the loop of lines 524-530. */
  function UserTagIndex(recs: seq<Record>): map<string, seq<Record>>
  {
    map tg | tg in SegmentsOf(recs) :: IndexEntry(recs, tg)
  }

  lemma SegmentsOfSnoc(pre: seq<Record>, r: Record)
    ensures SegmentsOf(pre + [r]) == SegmentsOf(pre) + SetOf(ParseUserTags(r))
  {
    assert (pre + [r])[..|pre + [r]| - 1] == pre;
  }

  lemma IndexEntrySnoc(pre: seq<Record>, r: Record, tg: string)
    ensures IndexEntry(pre + [r], tg) == IndexEntry(pre, tg) + Repeat(r, multiset(ParseUserTags(r))[tg])
  {
    assert (pre + [r])[..|pre + [r]| - 1] == pre;
  }

  lemma {:induction false} SegmentsOfMembership(recs: seq<Record>, tg: string)
    ensures tg in SegmentsOf(recs) <==> exists x :: x in recs && tg in ParseUserTags(x)
  {
    if recs != [] {
      var init, r := recs[..|recs| - 1], recs[|recs| - 1];
      SegmentsOfMembership(init, tg);
      assert recs == init + [r];
      assert forall x :: x in recs <==> x in init || x == r;
    }
  }

  /** A record is in the entry for `tg` exactly when it is in the input and one of its segments is `tg`. */
  lemma {:induction false} IndexEntryMembership(recs: seq<Record>, tg: string, x: Record)
    ensures x in IndexEntry(recs, tg) <==> x in recs && tg in ParseUserTags(x)
  {
    if recs != [] {
      var init, r := recs[..|recs| - 1], recs[|recs| - 1];
      IndexEntryMembership(init, tg, x);
      assert recs == init + [r];
      assert x in recs <==> x in init || x == r;
      assert tg in ParseUserTags(r) <==> tg in multiset(ParseUserTags(r));
      RepeatMembership(r, multiset(ParseUserTags(r))[tg], x);
    }
  }

  /** The keys of the index are exactly the segments that occur, each naming the records that carry it. */
  lemma UserTagIndexMembership(recs: seq<Record>, tg: string, x: Record)
    ensures tg in UserTagIndex(recs) <==> exists y :: y in recs && tg in ParseUserTags(y)
    ensures tg in UserTagIndex(recs) ==> (x in UserTagIndex(recs)[tg] <==> x in recs && tg in ParseUserTags(x))
  {
    SegmentsOfMembership(recs, tg);
    IndexEntryMembership(recs, tg, x);
  }

  lemma {:induction false} RepeatMultiplicity(r: Record, k: nat, x: Record)
    ensures multiset(Repeat(r, k))[x] == if x == r then k else 0
  {
    if k > 0 {
      RepeatMultiplicity(r, k - 1, x);
    }
  }

  /**
   * A record is appended once per occurrence of the segment: the entry for
   * `tg` holds `x` as many times as `x` occurs in the input times the number
   * of `tg` segments in its USER_TAGS.
   */
  lemma IndexEntrySnocCount(pre: seq<Record>, r: Record, tg: string, x: Record)
    ensures multiset(IndexEntry(pre + [r], tg))[x] ==
      multiset(IndexEntry(pre, tg))[x] + (if r == x then multiset(ParseUserTags(x))[tg] else 0)
  {
    IndexEntrySnoc(pre, r, tg);
    RepeatMultiplicity(r, multiset(ParseUserTags(r))[tg], x);
  }

  lemma {:induction false} IndexEntryCount(recs: seq<Record>, tg: string, x: Record)
    ensures multiset(IndexEntry(recs, tg))[x] == multiset(recs)[x] * multiset(ParseUserTags(x))[tg]
  {
    if recs != [] {
      var init, r := recs[..|recs| - 1], recs[|recs| - 1];
      assert recs == init + [r];
      IndexEntryCount(init, tg, x);
      IndexEntrySnocCount(init, r, tg, x);
      var c, m, k := multiset(init)[x], multiset(recs)[x], multiset(ParseUserTags(x))[tg];
      if r == x {
        assert m == c + 1;
        MulSucc(m, c, k);
      } else {
        assert m == c;
      }
    }
  }

  lemma MulSucc(m: nat, c: nat, k: nat)
    requires m == c + 1
    ensures m * k == c * k + k
  {
  }

  lemma {:induction false} IndexEntryOfUnseen(recs: seq<Record>, tg: string)
    requires tg !in SegmentsOf(recs)
    ensures IndexEntry(recs, tg) == []
  {
    if recs != [] {
      var init, r := recs[..|recs| - 1], recs[|recs| - 1];
      IndexEntryOfUnseen(init, tg);
      assert tg !in multiset(ParseUserTags(r));
    }
  }

  /** The entry for `tg` part-way through record `r`, once the segments `segs` of `r` are handled. */
  function PartEntry(pre: seq<Record>, r: Record, segs: seq<string>, tg: string): seq<Record>
  {
    IndexEntry(pre, tg) + Repeat(r, multiset(segs)[tg])
  }

  /**
   * The index part-way through record `r`: the segments `segs` of `r`
   * already handled have added `r` once per occurrence.
   */
  function PartlyIndexed(pre: seq<Record>, r: Record, segs: seq<string>): map<string, seq<Record>>
  {
    map tg | tg in SegmentsOf(pre) + SetOf(segs) :: PartEntry(pre, r, segs, tg)
  }

  lemma PartlyIndexedStart(pre: seq<Record>, r: Record)
    ensures PartlyIndexed(pre, r, []) == UserTagIndex(pre)
  {
    var m, u := PartlyIndexed(pre, r, []), UserTagIndex(pre);
    assert m.Keys == u.Keys;
    forall tg | tg in m.Keys ensures m[tg] == u[tg] {
      assert PartEntry(pre, r, [], tg) == IndexEntry(pre, tg) + [];
    }
  }

  lemma PartlyIndexedDone(pre: seq<Record>, r: Record)
    ensures PartlyIndexed(pre, r, ParseUserTags(r)) == UserTagIndex(pre + [r])
  {
    var m, u := PartlyIndexed(pre, r, ParseUserTags(r)), UserTagIndex(pre + [r]);
    SegmentsOfSnoc(pre, r);
    assert m.Keys == u.Keys;
    forall tg | tg in m.Keys ensures m[tg] == u[tg] {
      IndexEntrySnoc(pre, r, tg);
    }
  }

  lemma RepeatSnoc(r: Record, k: nat)
    ensures Repeat(r, k + 1) == Repeat(r, k) + [r]
  {
  }

  /** The entry for the segment being handled gains one more copy of `r`. */
  lemma PartEntryStep(pre: seq<Record>, r: Record, segs: seq<string>, x: string)
    ensures PartEntry(pre, r, segs + [x], x) == PartEntry(pre, r, segs, x) + [r]
  {
    var c := multiset(segs)[x];
    assert multiset(segs + [x])[x] == c + 1;
    RepeatSnoc(r, c);
  }

  /** A segment that is neither seen before nor among `segs` has an empty entry. */
  lemma PartEntryUnseen(pre: seq<Record>, r: Record, segs: seq<string>, x: string)
    requires x !in SegmentsOf(pre) + SetOf(segs)
    ensures PartEntry(pre, r, segs, x) == []
  {
    IndexEntryOfUnseen(pre, x);
    assert x !in multiset(segs);
  }

  /** The entries of the other segments do not change. */
  lemma PartEntryOther(pre: seq<Record>, r: Record, segs: seq<string>, x: string, y: string)
    requires y != x
    ensures PartEntry(pre, r, segs + [x], y) == PartEntry(pre, r, segs, y)
  {
    assert multiset(segs + [x])[y] == multiset(segs)[y];
  }

  lemma PartlyIndexedStepKeys(pre: seq<Record>, r: Record, segs: seq<string>, x: string)
    ensures PartlyIndexed(pre, r, segs + [x]).Keys == PartlyIndexed(pre, r, segs).Keys + {x}
  {
    assert SetOf(segs + [x]) == SetOf(segs) + {x};
  }

  /** A map that differs from `m` only by `r` appended at `x` is `m` updated at `x`. */
  lemma AppendedAt(m: map<string, seq<Record>>, n: map<string, seq<Record>>, x: string, r: Record)
    requires n.Keys == m.Keys + {x}
    requires n[x] == (if x in m then m[x] else []) + [r]
    requires forall y :: y in m && y != x ==> n[y] == m[y]
    ensures n == m[x := (if x in m then m[x] else []) + [r]]
  {
  }

  /** Handling one more segment `x` of `r` appends `r` to the entry for `x`, creating it if new. */
  lemma PartlyIndexedStep(pre: seq<Record>, r: Record, segs: seq<string>, x: string)
    ensures
      var m := PartlyIndexed(pre, r, segs);
      PartlyIndexed(pre, r, segs + [x]) == m[x := (if x in m then m[x] else []) + [r]]
  {
    var m, n := PartlyIndexed(pre, r, segs), PartlyIndexed(pre, r, segs + [x]);
    PartlyIndexedStepKeys(pre, r, segs, x);
    PartEntryStep(pre, r, segs, x);
    if x !in m {
      PartEntryUnseen(pre, r, segs, x);
    }
    forall y | y in m && y != x ensures n[y] == m[y] {
      PartEntryOther(pre, r, segs, x, y);
    }
    AppendedAt(m, n, x, r);
  }

  /** The body of the inner loop, lines 528-530: create the entry on first sight, then append. */
  method AddUserTag(index: map<string, seq<Record>>, r: Record, t: string, ghost pre: seq<Record>, ghost segs: seq<string>)
    returns (index': map<string, seq<Record>>)
    requires index == PartlyIndexed(pre, r, segs)
    ensures index' == PartlyIndexed(pre, r, segs + [t])
  {
    PartlyIndexedStep(pre, r, segs, t);
    index' := index;
    if t !in index' {
      index' := index'[t := []];
    }
    index' := index'[t := index'[t] + [r]];
  }

  /** The inner loop of lines 527-530 for one record: each segment in turn gets the record appended. */
  method AddUserTags(index: map<string, seq<Record>>, r: Record, ghost pre: seq<Record>)
    returns (index': map<string, seq<Record>>)
    requires index == UserTagIndex(pre)
    ensures index' == UserTagIndex(pre + [r])
  {
    var userTagList := ParseUserTags(r);
    PartlyIndexedStart(pre, r);
    index' := index;
    var j := 0;
    while j < |userTagList|
      invariant 0 <= j <= |userTagList|
      invariant index' == PartlyIndexed(pre, r, userTagList[..j])
    {
      assert userTagList[..j + 1] == userTagList[..j] + [userTagList[j]];
      index' := AddUserTag(index', r, userTagList[j], pre, userTagList[..j]);
      j := j + 1;
    }
    assert userTagList[..j] == userTagList;
    PartlyIndexedDone(pre, r);
  }

  /** The loop of lines 524-530 over all valid records. */
  method BuildUserTagIndex(valid: seq<Record>) returns (index: map<string, seq<Record>>)
    ensures index == UserTagIndex(valid)
  {
    index := map[];
    var i := 0;
    while i < |valid|
      invariant 0 <= i <= |valid|
      invariant index == UserTagIndex(valid[..i])
    {
      assert valid[..i + 1] == valid[..i] + [valid[i]];
      index := AddUserTags(index, valid[i], valid[..i]);
      i := i + 1;
    }
    assert valid[..i] == valid;
  }

  /** The vocabulary entries that are keys of `known`, in vocabulary order (repeats kept). */
  function KnownTags(vocab: seq<string>, known: set<string>): seq<string>
  {
    if vocab == [] then []
    else
      var d := vocab[|vocab| - 1];
      KnownTags(vocab[..|vocab| - 1], known) + (if d in known then [d] else [])
  }

  lemma {:induction false} KnownTagsMembership(vocab: seq<string>, known: set<string>, d: string)
    ensures d in KnownTags(vocab, known) <==> d in vocab && d in known
  {
    if vocab != [] {
      var init := vocab[..|vocab| - 1];
      KnownTagsMembership(init, known, d);
      assert vocab == init + [vocab[|vocab| - 1]];
      assert d in vocab <==> d in init || d == vocab[|vocab| - 1];
    }
  }

  /** The filtered vocabulary keeps the vocabulary's order. */
  lemma {:induction false} KnownTagsKeepsOrder(vocab: seq<string>, known: set<string>)
    ensures Subsequence(KnownTags(vocab, known), vocab)
  {
    if vocab != [] {
      var init, d := vocab[..|vocab| - 1], vocab[|vocab| - 1];
      KnownTagsKeepsOrder(init, known);
      assert vocab == init + [d];
      SubsequenceSnoc(KnownTags(init, known), init, d, d in known);
    }
  }

  lemma KnownTagsAgree(vocab: seq<string>, a: set<string>, b: set<string>)
    requires forall d :: d in vocab ==> (d in a <==> d in b)
    ensures KnownTags(vocab, a) == KnownTags(vocab, b)
  {
    if vocab != [] {
      var init := vocab[..|vocab| - 1];
      assert forall d :: d in init ==> d in vocab;
      KnownTagsAgree(init, a, b);
    }
  }

  /**
   * Lines 532-541: for each vocabulary tag present in the index, its group is
   * the index entry with duplicate IDs removed; then the vocabulary is
   * narrowed to the tags that got a group, in vocabulary order.
   */
  method DarkroomGroups(vocab: seq<string>, index: map<string, seq<Record>>)
    returns (groups: map<string, seq<Record>>, kept: seq<string>)
    ensures forall d :: d in groups <==> d in vocab && d in index
    ensures forall d :: d in groups ==> groups[d] == RemoveDuplicate(index[d])
    ensures kept == KnownTags(vocab, index.Keys)
  {
    groups := map[];
    var i := 0;
    while i < |vocab|
      invariant 0 <= i <= |vocab|
      invariant forall d :: d in groups <==> d in vocab[..i] && d in index
      invariant forall d :: d in groups ==> groups[d] == RemoveDuplicate(index[d])
    {
      var dTag := vocab[i];
      assert vocab[..i + 1] == vocab[..i] + [dTag];
      if dTag in index {
        groups := groups[dTag := RemoveDuplicate(index[dTag])];
      }
      i := i + 1;
    }
    assert vocab[..i] == vocab;
    kept := [];
    i := 0;
    while i < |vocab|
      invariant 0 <= i <= |vocab|
      invariant kept == KnownTags(vocab[..i], groups.Keys)
    {
      var dTag := vocab[i];
      assert vocab[..i + 1][..i] == vocab[..i];
      if dTag in groups {
        kept := kept + [dTag];
      }
      i := i + 1;
    }
    assert vocab[..i] == vocab;
    KnownTagsAgree(vocab, groups.Keys, index.Keys);
  }

  /** Each darkroom group has one record per ID among the records carrying that user tag. */
  lemma DarkroomGroupIds(valid: seq<Record>, d: string, x: Record)
    requires d in UserTagIndex(valid)
    ensures DistinctIds(RemoveDuplicate(UserTagIndex(valid)[d]))
    ensures x in RemoveDuplicate(UserTagIndex(valid)[d]) ==> x in valid && d in ParseUserTags(x)
  {
    IndexEntryMembership(valid, d, x);
  }
}
