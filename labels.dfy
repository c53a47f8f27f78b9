/**
 * `tag_and_score`: the one-line summary of a record's auto-tags shown in the
 * report tables, `tag:score` entries in ascending score order joined by `|`.
 */
module Labels {
  import opened Common
  import opened Sorting

  /** The score of `t`, for a tag that `scores` holds. */
  function ScoreOf(scores: map<string, real>, t: string): real
  {
    if t in scores then scores[t] else 0.0
  }

  /**
   * One entry, `f"{t.replace(' ','_')}:{score}"`: the tag name with spaces
   * turned into underscores, a colon, and the formatted score (`fmt` stands
   * for the two-decimal format).
   */
  function Segment(t: string, score: real, fmt: real -> string): (seg: string)
    ensures |seg| == |t| + 1 + |fmt(score)|
    ensures forall i :: 0 <= i < |t| ==> seg[i] == (if t[i] == ' ' then '_' else t[i])
    ensures seg[|t|] == ':' && seg[|t| + 1..] == fmt(score)
  {
    Replace(t, ' ', '_') + ":" + fmt(score)
  }

  /** The entries for the tags of `order`, in that order. */
  function Segments(order: seq<string>, scores: map<string, real>, fmt: real -> string): (segs: seq<string>)
    ensures |segs| == |order|
    ensures forall k :: 0 <= k < |order| ==> segs[k] == Segment(order[k], ScoreOf(scores, order[k]), fmt)
  {
    if order == [] then []
    else [Segment(order[0], ScoreOf(scores, order[0]), fmt)] + Segments(order[1..], scores, fmt)
  }

  /** The label: the entries joined with `|`. */
  function Label(order: seq<string>, scores: map<string, real>, fmt: real -> string): string
  {
    Join(Segments(order, scores, fmt), '|')
  }

  /**
   * `tag_and_score`, lines 677-680: the keys of AUTO_TAG_SCORES sorted by
   * ascending score, then the label built from them.
   */
  method TagAndScore(scores: map<string, real>, fmt: real -> string) returns (order: seq<string>, summary: string)
    ensures forall t :: multiset(order)[t] == if t in scores then 1 else 0
    ensures forall i, j :: 0 <= i < j < |order| ==> ScoreOf(scores, order[i]) <= ScoreOf(scores, order[j])
    ensures summary == Label(order, scores, fmt)
  {
    var keys := KeyList(scores);
    order := SortBy(keys, (t: string) => ScoreOf(scores, t));
    summary := Join(Segments(order, scores, fmt), '|');
  }

  /** A tag with no `|` whose formatted score has none gives an entry with none. */
  lemma SegmentHasNoBar(t: string, score: real, fmt: real -> string)
    requires '|' !in t && '|' !in fmt(score)
    ensures '|' !in Segment(t, score, fmt)
  {
    var seg := Segment(t, score, fmt);
    forall i | 0 <= i < |seg| ensures seg[i] != '|' {
      if i > |t| {
        assert seg[i] == fmt(score)[i - |t| - 1];
      }
    }
  }

  /**
   * When no tag and no formatted score contains `|`, splitting the label on
   * `|` gives back one entry per tag, in order.
   */
  lemma LabelRoundTrip(order: seq<string>, scores: map<string, real>, fmt: real -> string)
    requires |order| >= 1
    requires forall k :: 0 <= k < |order| ==> '|' !in order[k] && '|' !in fmt(ScoreOf(scores, order[k]))
    ensures Split(Label(order, scores, fmt), '|') == Segments(order, scores, fmt)
  {
    var segs := Segments(order, scores, fmt);
    forall k | 0 <= k < |segs| ensures '|' !in segs[k] {
      SegmentHasNoBar(order[k], ScoreOf(scores, order[k]), fmt);
    }
    SplitJoin(segs, '|');
  }

  /** The label is empty exactly when the record has no auto-tags: every entry holds a colon. */
  lemma LabelEmptyIff(order: seq<string>, scores: map<string, real>, fmt: real -> string)
    ensures Label(order, scores, fmt) == "" <==> order == []
  {
    var segs := Segments(order, scores, fmt);
    if order != [] {
      assert |segs[0]| > 0;
      if |segs| > 1 {
        assert Join(segs, '|') == segs[0] + ['|'] + Join(segs[1..], '|');
      }
    }
  }

  /**
   * For a tag without `:`, the part of its entry before the first colon is
   * the tag name with underscores for spaces, and it holds no space.
   */
  lemma SegmentTagName(t: string, score: real, fmt: real -> string)
    requires ':' !in t
    ensures Split(Segment(t, score, fmt), ':') == [Replace(t, ' ', '_')] + Split(fmt(score), ':')
    ensures ' ' !in Replace(t, ' ', '_')
  {
    var name := Replace(t, ' ', '_');
    assert ':' !in name by {
      forall i | 0 <= i < |name| ensures name[i] != ':' {
        assert t[i] != ':';
      }
    }
    assert Segment(t, score, fmt) == name + [':'] + fmt(score);
    SplitAtFirstSeparator(name, ':', fmt(score));
  }
}
