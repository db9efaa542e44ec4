/** The ranking step of a query: sort the snapshot's indices by distance to
    the query embedding, keep the first thirty, turn each distance into the
    displayed score, and cut the machine-readable summary to three. */
module Ranking {

  /** How many candidates a query keeps (`[:30]`). */
  const TopCount: nat := 30

  /** How many of them the JSON endpoint returns (`[:3]`). */
  const SummaryCount: nat := 3

  function Min(a: int, b: int): int
  {
    if a <= b then a else b
  }

  /** One ranked result: the displayed score and the original-image path. */
  datatype Hit = Hit(score: real, path: string)

  /** Every index in `s` points into `d`. */
  predicate InRange(d: seq<real>, s: seq<nat>)
  {
    forall j :: 0 <= j < |s| ==> s[j] < |d|
  }

  predicate Distinct<T(==)>(s: seq<T>)
  {
    forall a, b :: 0 <= a < b < |s| ==> s[a] != s[b]
  }

  /** The indices in `s` are in non-decreasing order of distance. */
  predicate SortedBy(d: seq<real>, s: seq<nat>)
    requires InRange(d, s)
  {
    forall a, b :: 0 <= a < b < |s| ==> d[s[a]] <= d[s[b]]
  }

  /** Index `i` placed into the index sequence `s`, already in order of
      distance, before the first index that is not nearer than it. */
  function Insert(d: seq<real>, i: nat, s: seq<nat>): (r: seq<nat>)
    requires i < |d| && InRange(d, s) && SortedBy(d, s)
    ensures |r| == |s| + 1
    ensures forall x :: x in r <==> x == i || x in s
    ensures InRange(d, r) && SortedBy(d, r)
    decreases |s|
  {
    if s == [] || d[i] <= d[s[0]] then
      [i] + s
    else
      var rest := Insert(d, i, s[1..]);
      assert forall x :: x in rest ==> d[s[0]] <= d[x];
      [s[0]] + rest
  }

  /** Inserting an index not yet listed keeps the list free of repeats. */
  lemma {:induction false} InsertDistinct(d: seq<real>, i: nat, s: seq<nat>)
    requires i < |d| && InRange(d, s) && SortedBy(d, s)
    requires Distinct(s) && i !in s
    ensures Distinct(Insert(d, i, s))
    decreases |s|
  {
    if s != [] && d[s[0]] < d[i] {
      InsertDistinct(d, i, s[1..]);
      assert s[0] !in s[1..];
    }
  }

  /** The indices `0 .. n-1` of `d` in order of distance: `np.argsort`
      restricted to its first `n` entries. Ties may come out in any order;
      nothing below depends on which. */
  function ArgSort(d: seq<real>, n: nat): (r: seq<nat>)
    requires n <= |d|
    ensures |r| == n
    ensures forall x: nat :: x in r <==> x < n
    ensures Distinct(r)
    ensures InRange(d, r) && SortedBy(d, r)
  {
    if n == 0 then
      []
    else
      var prev := ArgSort(d, n - 1);
      InsertDistinct(d, n - 1, prev);
      var r := Insert(d, n - 1, prev);
      assert forall x: nat :: x in r <==> x == n - 1 || x < n - 1;
      r
  }

  /** `np.argsort(d)[:k]`: the first `k` indices in order of distance. */
  function TopK(d: seq<real>, k: nat): (r: seq<nat>)
    ensures |r| == Min(k, |d|)
    ensures Distinct(r)
    ensures InRange(d, r) && SortedBy(d, r)
  {
    ArgSort(d, |d|)[..Min(k, |d|)]
  }

  /** Nothing left out of the top `k` is nearer than anything kept. */
  lemma TopKIsNearest(d: seq<real>, k: nat, j: nat, x: nat)
    requires j < |TopK(d, k)|
    requires x < |d| && x !in TopK(d, k)
    ensures d[TopK(d, k)[j]] <= d[x]
  {
    var all := ArgSort(d, |d|);
    var top := TopK(d, k);
    assert x in all;
    var p :| 0 <= p < |all| && all[p] == x;
    assert top[j] == all[j];
  }

  /** The displayed score of an L2 distance, `(1 - d) * 100`: 100 for an
      exact match, never above 100 for a distance, which is not negative. */
  function Score(dist: real): (r: real)
    ensures r == 100.0 <==> dist == 0.0
    ensures dist >= 0.0 ==> r <= 100.0
  {
    (1.0 - dist) * 100.0
  }

  /** A nearer image never scores lower, and a strictly nearer one scores
      strictly higher. */
  lemma ScoreAntitone(d1: real, d2: real)
    ensures d1 <= d2 <==> Score(d2) <= Score(d1)
  {
  }

  /** The score is not a percentage: a distance above 1 scores below 0. */
  lemma ScoreBelowZero(dist: real)
    ensures dist > 1.0 <==> Score(dist) < 0.0
  {
  }

  /** The ranked list a query shows: the top thirty indices by distance,
      each as its score and its snapshot path. */
  function Rank(d: seq<real>, paths: seq<string>): (r: seq<Hit>)
    requires |d| == |paths|
    ensures |r| == Min(TopCount, |d|)
    ensures forall a, b :: 0 <= a < b < |r| ==> r[a].score >= r[b].score
  {
    var ids := TopK(d, TopCount);
    seq(|ids|, j requires 0 <= j < |ids| => Hit(Score(d[ids[j]]), paths[ids[j]]))
  }

  /** Each ranked result is a snapshot entry with its own score and path. */
  lemma RankedEntry(d: seq<real>, paths: seq<string>, j: nat) returns (i: nat)
    requires |d| == |paths| && j < |Rank(d, paths)|
    ensures i < |d|
    ensures Rank(d, paths)[j] == Hit(Score(d[i]), paths[i])
  {
    i := TopK(d, TopCount)[j];
  }

  /** No two results carry the same path. */
  predicate DistinctPaths(hits: seq<Hit>)
  {
    forall a, b :: 0 <= a < b < |hits| ==> hits[a].path != hits[b].path
  }

  /** Different results come from different entries: with distinct paths
      in the snapshot, no path is listed twice. */
  lemma RankDistinct(d: seq<real>, paths: seq<string>)
    requires |d| == |paths| && Distinct(paths)
    ensures DistinctPaths(Rank(d, paths))
  {
    var r := Rank(d, paths);
    var ids := TopK(d, TopCount);
    forall a, b | 0 <= a < b < |r| ensures r[a].path != r[b].path {
      assert ids[a] != ids[b];
      assert r[a].path == paths[ids[a]] && r[b].path == paths[ids[b]];
    }
  }

  /** Ranking keeps the thirty best: every snapshot entry whose path is not
      listed scores no higher than any listed result. */
  lemma RankIsNearest(d: seq<real>, paths: seq<string>, x: nat)
    requires |d| == |paths| && Distinct(paths) && x < |d|
    requires forall j :: 0 <= j < |Rank(d, paths)| ==> Rank(d, paths)[j].path != paths[x]
    ensures forall j :: 0 <= j < |Rank(d, paths)| ==> Score(d[x]) <= Rank(d, paths)[j].score
  {
    var r := Rank(d, paths);
    var ids := TopK(d, TopCount);
    assert x !in ids by {
      forall j | 0 <= j < |ids| ensures ids[j] != x {
        assert r[j].path == paths[ids[j]] != paths[x];
      }
    }
    forall j | 0 <= j < |r| ensures Score(d[x]) <= r[j].score {
      TopKIsNearest(d, TopCount, j, x);
      ScoreAntitone(d[ids[j]], d[x]);
    }
  }

  /** The JSON endpoint's `scores[:3]`: the first three results, in order. */
  function Summary(hits: seq<Hit>): (r: seq<Hit>)
    ensures |r| == Min(SummaryCount, |hits|)
    ensures forall j :: 0 <= j < |r| ==> r[j] == hits[j]
  {
    hits[..Min(SummaryCount, |hits|)]
  }
}
