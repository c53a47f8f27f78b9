/**
 * One photo's metadata record, the date parsers it is judged with, and the
 * identity-by-ID wrapper (`_Metadata`) with the de-duplication built on it.
 */
module Metadata {
  import opened Common

  /** Image edge lengths after the image-size probe: always positive. */
  type Pos = n: int | n > 0 witness 1

  /**
   * The fields of a record that the classification core reads. `id` is the
   * photo's numeric identifier, `scores` the automatic tag confidences
   * (AUTO_TAG_SCORES), `userTags` the raw comma-separated USER_TAGS string,
   * and the two date fields the raw DATE_TAKEN / DATE_UPLOADED strings.
   */
  datatype Record = Record(
    id: nat,
    userTags: string,
    scores: map<string, real>,
    width: Pos,
    height: Pos,
    dateTaken: string,
    dateUploaded: string)

  /**
   * The two date parsers the source calls into a date library for:
   * `taken` stands for ISO-8601 parsing of DATE_TAKEN, `uploaded` for reading
   * DATE_UPLOADED as epoch seconds. Both yield an instant in seconds, or None
   * when parsing raises.
   */
  datatype DateParsers = DateParsers(taken: string -> Option<int>, uploaded: string -> Option<int>)

  /**
   * `_Metadata.__eq__`: two records are the same photo exactly when their IDs
   * agree. `__hash__` hashes the ID alone, so the set that de-duplicates
   * keeps one record per ID (`RemoveDuplicate`).
   */
  predicate SameMeta(a: Record, b: Record)
  {
    a.id == b.id
  }

  function IdsOf(s: seq<Record>): set<nat>
  {
    set r | r in s :: r.id
  }

  predicate DistinctIds(s: seq<Record>)
  {
    forall i, j :: 0 <= i < j < |s| ==> s[i].id != s[j].id
  }

  lemma IdsOfCons(x: Record, s: seq<Record>)
    ensures IdsOf([x] + s) == {x.id} + IdsOf(s)
  {
    assert forall y :: y in [x] + s <==> y == x || y in s;
  }

  lemma DistinctIdsCons(x: Record, s: seq<Record>)
    requires DistinctIds(s) && x.id !in IdsOf(s)
    ensures DistinctIds([x] + s)
  {
    var r := [x] + s;
    forall i, j | 0 <= i < j < |r| ensures r[i].id != r[j].id {
      if i == 0 {
        assert r[j] == s[j - 1];
        assert s[j - 1] in s;
      } else {
        assert r[i] == s[i - 1] && r[j] == s[j - 1];
      }
    }
  }

  /**
   * Keeps the first record of every ID not in `seen`. This is what building a
   * set of `_Metadata` wrappers does: inserting an element equal to one already
   * present leaves the present one in place.
   */
  function DedupFrom(s: seq<Record>, seen: set<nat>): (r: seq<Record>)
    ensures DistinctIds(r)
    ensures IdsOf(r) == IdsOf(s) - seen
    ensures forall x :: x in r ==> x in s && x.id !in seen
    decreases |s|
  {
    if s == [] then []
    else
      IdsOfCons(s[0], s[1..]);
      assert [s[0]] + s[1..] == s;
      if s[0].id in seen then
        DedupFrom(s[1..], seen)
      else
        var rest := DedupFrom(s[1..], seen + {s[0].id});
        IdsOfCons(s[0], rest);
        DistinctIdsCons(s[0], rest);
        [s[0]] + rest
  }

  /** `remove_duplicate`: at most one record per ID, and no ID lost. */
  function RemoveDuplicate(s: seq<Record>): (r: seq<Record>)
    ensures DistinctIds(r)
    ensures IdsOf(r) == IdsOf(s)
    ensures forall x :: x in r ==> x in s
    ensures |r| <= |s|
    ensures r == [] <==> s == []
  {
    DedupLength(s, {});
    assert s != [] ==> s[0].id in IdsOf(s);
    DedupFrom(s, {})
  }

  lemma {:induction false} DedupLength(s: seq<Record>, seen: set<nat>)
    ensures |DedupFrom(s, seen)| <= |s|
    decreases |s|
  {
    if s != [] {
      if s[0].id in seen {
        DedupLength(s[1..], seen);
      } else {
        DedupLength(s[1..], seen + {s[0].id});
      }
    }
  }

  lemma {:induction false} DedupOfDistinct(s: seq<Record>, seen: set<nat>)
    requires DistinctIds(s)
    requires IdsOf(s) !! seen
    ensures DedupFrom(s, seen) == s
    decreases |s|
  {
    if s != [] {
      assert s[0] in s;
      assert s[0].id !in seen;
      assert IdsOf(s[1..]) !! (seen + {s[0].id}) by {
        forall x | x in s[1..] ensures x.id !in seen + {s[0].id} {
          var k :| 0 <= k < |s[1..]| && s[1..][k] == x;
          assert s[k + 1] == x;
          assert x in s;
        }
      }
      DedupOfDistinct(s[1..], seen + {s[0].id});
    }
  }

  /** A list whose IDs are already distinct is left as it is. */
  lemma RemoveDuplicateOfDistinct(s: seq<Record>)
    requires DistinctIds(s)
    ensures RemoveDuplicate(s) == s
  {
    DedupOfDistinct(s, {});
  }

  /** De-duplicating twice is the same as de-duplicating once. */
  lemma RemoveDuplicateIdempotent(s: seq<Record>)
    ensures RemoveDuplicate(RemoveDuplicate(s)) == RemoveDuplicate(s)
    ensures IdsOf(RemoveDuplicate(RemoveDuplicate(s))) == IdsOf(s)
  {
    RemoveDuplicateOfDistinct(RemoveDuplicate(s));
  }

  /** Records that differ in every field but the ID collapse to one. */
  lemma RemoveDuplicateCollapsesSameId(a: Record, b: Record)
    requires SameMeta(a, b)
    ensures |RemoveDuplicate([a, b])| == 1
  {
    assert [a, b][1..] == [b];
    assert [b][1..] == [];
    assert DedupFrom([b], {a.id}) == [];
    assert {} + {a.id} == {a.id};
    assert DedupFrom([a, b], {}) == [a];
  }

  /** With distinct IDs, no record occurs twice. */
  lemma {:induction false} DistinctIdsOccurOnce(s: seq<Record>, x: Record)
    requires DistinctIds(s)
    ensures multiset(s)[x] <= 1
  {
    if s != [] {
      var rest := s[1..];
      assert DistinctIds(rest) by {
        forall i, j | 0 <= i < j < |rest| ensures rest[i].id != rest[j].id {
          assert rest[i] == s[i + 1] && rest[j] == s[j + 1];
        }
      }
      DistinctIdsOccurOnce(rest, x);
      assert s == [s[0]] + rest;
      if s[0] == x {
        assert x !in rest by {
          forall k | 0 <= k < |rest| ensures rest[k] != x {
            assert rest[k] == s[k + 1];
          }
        }
      }
    }
  }

  /** A record at two positions occurs at least twice. */
  lemma TwoPositions(s: seq<Record>, i: nat, j: nat)
    requires i < j < |s| && s[i] == s[j]
    ensures multiset(s)[s[i]] >= 2
  {
    assert s == s[..j] + [s[j]] + s[j + 1..];
    assert s[..j][i] == s[i];
    assert multiset(s[..j])[s[i]] >= 1;
  }

  /** Reordering a list keeps its ID set and keeps its IDs distinct. */
  lemma PermutationKeepsIds(a: seq<Record>, b: seq<Record>)
    requires multiset(a) == multiset(b)
    ensures IdsOf(a) == IdsOf(b)
    ensures DistinctIds(b) ==> DistinctIds(a)
  {
    assert forall r :: r in a <==> r in multiset(a);
    assert forall r :: r in b <==> r in multiset(b);
    if DistinctIds(b) {
      forall i, j | 0 <= i < j < |a| ensures a[i].id != a[j].id {
        if a[i] == a[j] {
          TwoPositions(a, i, j);
          DistinctIdsOccurOnce(b, a[i]);
        } else {
          assert a[i] in b && a[j] in b;
          var p :| 0 <= p < |b| && b[p] == a[i];
          var q :| 0 <= q < |b| && b[q] == a[j];
          assert p != q;
          if p < q { assert b[p].id != b[q].id; } else { assert b[q].id != b[p].id; }
        }
      }
    }
  }
}
