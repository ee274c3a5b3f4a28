/** Top-N selection over per-row relevance scores, as pandas
    `df[df.score > 0].nlargest(n, 'score')` does it: keep the rows scoring above
    zero, order them by descending score with ties in original row order, and
    keep the first `n`.

    An `Entry` is a row position with its score. The order is fixed by
    `Before`: higher score first, then lower position. */
module Ranking {
  import opened Frames

  datatype Entry = Entry(pos: nat, score: real)

  predicate Before(a: Entry, b: Entry) {
    a.score > b.score || (a.score == b.score && a.pos < b.pos)
  }

  /** Strictly ordered by `Before`: descending score, ties by ascending position. */
  ghost predicate Ranked(s: seq<Entry>) {
    forall i, j :: 0 <= i < j < |s| ==> Before(s[i], s[j])
  }

  ghost predicate Ascending(s: seq<Entry>) {
    forall i, j :: 0 <= i < j < |s| ==> s[i].pos < s[j].pos
  }

  /** Inserts `x` after the entries that score strictly higher. */
  function Insert(x: Entry, s: seq<Entry>): (r: seq<Entry>)
    ensures multiset(r) == multiset(s) + multiset{x} && |r| == |s| + 1
  {
    if s == [] then [x]
    else if s[0].score > x.score then
      assert s == [s[0]] + s[1..];
      [s[0]] + Insert(x, s[1..])
    else [x] + s
  }

  /** Stable sort by descending score. */
  function SortDesc(s: seq<Entry>): (r: seq<Entry>)
    ensures multiset(r) == multiset(s) && |r| == |s|
  {
    if s == [] then []
    else
      assert s == [s[0]] + s[1..];
      Insert(s[0], SortDesc(s[1..]))
  }

  /** The positions scoring above zero, in position order. */
  function Candidates(scores: seq<real>): (c: seq<Entry>)
    ensures |c| <= |scores|
    decreases |scores|
  {
    if scores == [] then []
    else
      var n := |scores| - 1;
      Candidates(scores[..n]) + (if scores[n] > 0.0 then [Entry(n, scores[n])] else [])
  }

  /** `nlargest(n)` of the candidates: at most `n` entries, and no more than
      there are rows. `TopSpec` states which entries and in what order. */
  function Top(scores: seq<real>, n: nat): (r: seq<Entry>)
    ensures |r| <= n && |r| <= |scores|
  {
    var sorted := SortDesc(Candidates(scores));
    sorted[..Min(n, |sorted|)]
  }

  lemma {:induction false} InsertRanked(x: Entry, s: seq<Entry>)
    requires Ranked(s)
    requires forall e :: e in s ==> x.pos < e.pos
    ensures Ranked(Insert(x, s))
    decreases |s|
  {
    if s != [] && s[0].score > x.score {
      InsertRanked(x, s[1..]);
      var r := Insert(x, s);
      var t := Insert(x, s[1..]);
      assert r == [s[0]] + t;
      forall e | e in t ensures Before(s[0], e) {
        assert e in multiset(t);
        if e != x {
          assert e in s[1..];
        }
      }
    }
  }

  lemma {:induction false} SortDescRanked(s: seq<Entry>)
    requires Ascending(s)
    ensures Ranked(SortDesc(s))
    decreases |s|
  {
    if s != [] {
      SortDescRanked(s[1..]);
      var t := SortDesc(s[1..]);
      forall e | e in t ensures s[0].pos < e.pos {
        assert e in multiset(t);
        assert e in s[1..];
      }
      InsertRanked(s[0], t);
    }
  }

  /** What `Candidates` holds: exactly the positive-scoring positions with their
      scores, in ascending position order. */
  lemma CandidatesSpec(scores: seq<real>)
    ensures Ascending(Candidates(scores))
    ensures forall e :: e in Candidates(scores) <==>
      e.pos < |scores| && e.score == scores[e.pos] && e.score > 0.0
  {
    CandidatesMembers(scores);
    CandidatesAscending(scores);
  }

  lemma {:induction false} CandidatesMembers(scores: seq<real>)
    ensures forall e :: e in Candidates(scores) <==>
      e.pos < |scores| && e.score == scores[e.pos] && e.score > 0.0
    decreases |scores|
  {
    if scores != [] {
      var n := |scores| - 1;
      var init := scores[..n];
      CandidatesMembers(init);
      var tail := if scores[n] > 0.0 then [Entry(n, scores[n])] else [];
      assert Candidates(scores) == Candidates(init) + tail;
      forall e ensures e in Candidates(scores) <==>
        e.pos < |scores| && e.score == scores[e.pos] && e.score > 0.0
      {
        if e.pos < n {
          assert init[e.pos] == scores[e.pos];
        }
      }
    }
  }

  lemma {:induction false} CandidatesAscending(scores: seq<real>)
    ensures Ascending(Candidates(scores))
    decreases |scores|
  {
    if scores != [] {
      var n := |scores| - 1;
      var init := scores[..n];
      CandidatesAscending(init);
      CandidatesMembers(init);
      var c := Candidates(init);
      assert forall k :: 0 <= k < |c| ==> c[k] in c && c[k].pos < n;
    }
  }

  /** The selection is the top `n` of the positive-scoring rows: ranked, of
      length `min(n, #candidates)`, each entry a positive-scoring position with
      its own score, and every positive-scoring position left out ranks after
      every position kept. */
  lemma TopSpec(scores: seq<real>, n: nat)
    ensures var t := Top(scores, n);
      && Ranked(t)
      && |t| == Min(n, |Candidates(scores)|)
      && (forall k :: 0 <= k < |t| ==> t[k].pos < |scores| && t[k].score == scores[t[k].pos] && t[k].score > 0.0)
      && (forall p :: 0 <= p < |scores| && scores[p] > 0.0 && Entry(p, scores[p]) !in t ==>
            forall k :: 0 <= k < |t| ==> Before(t[k], Entry(p, scores[p])))
  {
    TopRanked(scores, n);
    SortedLength(scores);
    TopEntries(scores, n);
    TopLeftOutAfter(scores, n);
  }

  /** The kept entries are ranked. */
  lemma TopRanked(scores: seq<real>, n: nat)
    ensures Ranked(Top(scores, n))
  {
    var sorted := SortDesc(Candidates(scores));
    CandidatesAscending(scores);
    SortDescRanked(Candidates(scores));
    var t := Top(scores, n);
    forall i, j | 0 <= i < j < |t|
      ensures Before(t[i], t[j])
    {
      assert t[i] == sorted[i] && t[j] == sorted[j];
    }
  }

  /** Sorting keeps the number of candidates. */
  lemma SortedLength(scores: seq<real>)
    ensures |SortDesc(Candidates(scores))| == |Candidates(scores)|
  {
    var c := Candidates(scores);
    assert |multiset(SortDesc(c))| == |multiset(c)|;
  }

  /** At most `n` entries are kept. */
  lemma TopAtMost(scores: seq<real>, n: nat)
    ensures |Top(scores, n)| <= n
  {
    var sorted := SortDesc(Candidates(scores));
    assert |sorted[..Min(n, |sorted|)]| == Min(n, |sorted|);
  }

  /** Every kept entry is a position of `scores`. */
  lemma TopInRange(scores: seq<real>, n: nat)
    ensures var t := Top(scores, n);
      forall k :: 0 <= k < |t| ==> t[k].pos < |scores|
  {
    TopEntries(scores, n);
  }

  /** Every kept entry is a positive-scoring position with its own score. */
  lemma TopEntries(scores: seq<real>, n: nat)
    ensures var t := Top(scores, n);
      forall k :: 0 <= k < |t| ==> t[k].pos < |scores| && t[k].score == scores[t[k].pos] && t[k].score > 0.0
  {
    var c := Candidates(scores);
    var sorted := SortDesc(c);
    var t := Top(scores, n);
    CandidatesSpec(scores);
    forall k | 0 <= k < |t|
      ensures t[k].pos < |scores| && t[k].score == scores[t[k].pos] && t[k].score > 0.0
    {
      assert t[k] == sorted[k];
      assert t[k] in multiset(sorted);
      assert t[k] in c;
    }
  }

  /** A positive-scoring position left out sorts after every kept entry. */
  lemma TopLeftOutAfter(scores: seq<real>, n: nat)
    ensures var t := Top(scores, n);
      forall p :: 0 <= p < |scores| && scores[p] > 0.0 && Entry(p, scores[p]) !in t ==>
        forall k :: 0 <= k < |t| ==> Before(t[k], Entry(p, scores[p]))
  {
    var c := Candidates(scores);
    var sorted := SortDesc(c);
    var m := Min(n, |sorted|);
    var t := Top(scores, n);
    assert t == sorted[..m];
    CandidatesSpec(scores);
    SortDescRanked(c);
    forall p | 0 <= p < |scores| && scores[p] > 0.0 && Entry(p, scores[p]) !in t
      ensures forall k :: 0 <= k < |t| ==> Before(t[k], Entry(p, scores[p]))
    {
      var e := Entry(p, scores[p]);
      assert e in c;
      assert e in multiset(sorted);
      var q :| 0 <= q < |sorted| && sorted[q] == e;
      assert q >= m;
    }
  }

  /** A position scoring above zero makes the candidate list non-empty. */
  lemma CandidatesNonEmpty(scores: seq<real>, p: nat)
    requires p < |scores| && scores[p] > 0.0
    ensures Candidates(scores) != []
  {
    CandidatesSpec(scores);
    assert Entry(p, scores[p]) in Candidates(scores);
  }

  /** With no position scoring above zero there are no candidates. */
  lemma {:induction false} CandidatesNone(scores: seq<real>)
    requires forall p :: 0 <= p < |scores| ==> scores[p] <= 0.0
    ensures Candidates(scores) == []
    decreases |scores|
  {
    if scores != [] {
      var n := |scores| - 1;
      var init := scores[..n];
      forall p | 0 <= p < n ensures init[p] <= 0.0 {
        assert init[p] == scores[p];
      }
      CandidatesNone(init);
      assert !(scores[n] > 0.0);
    }
  }

  /** No position is kept twice. */
  lemma TopDistinct(scores: seq<real>, n: nat)
    ensures var t := Top(scores, n);
      forall i, j :: 0 <= i < j < |t| ==> t[i].pos != t[j].pos
  {
    var t := Top(scores, n);
    TopSpec(scores, n);
    forall i, j | 0 <= i < j < |t|
      ensures t[i].pos != t[j].pos
    {
      assert Before(t[i], t[j]);
    }
  }

  /** Nothing is selected exactly when `n` is 0 or no row scores above zero. */
  lemma TopEmpty(scores: seq<real>, n: nat)
    ensures Top(scores, n) == [] <==> n == 0 || forall p :: 0 <= p < |scores| ==> scores[p] <= 0.0
  {
    TopSpec(scores, n);
    if exists p :: 0 <= p < |scores| && scores[p] > 0.0 {
      var p :| 0 <= p < |scores| && scores[p] > 0.0;
      CandidatesNonEmpty(scores, p);
    } else {
      CandidatesNone(scores);
    }
  }

  /** A positive-scoring position left out of `Top(scores, n)` means `n`
      entries were kept, each scoring at least as high. */
  lemma TopLeavesOut(scores: seq<real>, n: nat)
    ensures var t := Top(scores, n);
      forall p :: 0 <= p < |scores| && scores[p] > 0.0 && (forall k :: 0 <= k < |t| ==> t[k].pos != p) ==>
        |t| == n && forall k :: 0 <= k < |t| ==> scores[p] <= t[k].score
  {
    var t := Top(scores, n);
    TopAtMost(scores, n);
    TopLeftOutAfter(scores, n);
    CandidatesSpec(scores);
    TopShort(scores, n);
    forall p | 0 <= p < |scores| && scores[p] > 0.0 && (forall k :: 0 <= k < |t| ==> t[k].pos != p)
      ensures |t| == n && forall k :: 0 <= k < |t| ==> scores[p] <= t[k].score
    {
      var e := Entry(p, scores[p]);
      assert e !in t;
      assert e in Candidates(scores);
    }
  }

  /** A selection shorter than `n` holds every candidate. */
  lemma TopShort(scores: seq<real>, n: nat)
    ensures |Top(scores, n)| < n ==> forall e :: e in Candidates(scores) ==> e in Top(scores, n)
  {
    var sorted := SortDesc(Candidates(scores));
    assert |sorted| == |Candidates(scores)| by {
      assert |multiset(sorted)| == |multiset(Candidates(scores))|;
    }
    forall e | e in Candidates(scores) ensures e in sorted {
      assert e in multiset(sorted);
    }
  }
}
