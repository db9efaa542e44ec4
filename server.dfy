/** The search server: the two image directories, the embedding cache, the
    in-memory snapshot of that cache, and the requests that read and grow
    them. Directories are sets and maps keyed by image identifier; the CNN
    and the L2 norm are functions the server is given. */
module Server {
  import opened Paths
  import opened Ranking

  /** An embedding as produced by the extractor. */
  type Vec = seq<real>

  /** What a request answers: the rendered page (its query path and ranked
      results), or the JSON object of the `/inference` endpoint. */
  datatype Response =
    | Page(queryPath: Path, scores: seq<Hit>)
    | Json(query: Path, similarity: seq<Hit>)

  /** What the shared part of a query produces: nothing to rank when the
      stacked snapshot held no numbers, else the ranked results. */
  datatype Outcome = EmptyIndex | Ranked(hits: seq<Hit>)

  /** No result in `hits` carries the path `p`. */
  predicate Unlisted(hits: seq<Hit>, p: Path)
  {
    forall j :: 0 <= j < |hits| ==> hits[j].path != p
  }

  /** The identifiers listed in `s`. */
  function Elems(s: seq<Id>): set<Id>
  {
    set x | x in s
  }

  /** The cached vectors of `ids`, in that order. */
  function Rows(cache: map<Id, Vec>, ids: seq<Id>): seq<Vec>
    requires Elems(ids) <= cache.Keys
  {
    seq(|ids|, i requires 0 <= i < |ids| => assert ids[i] in Elems(ids); cache[ids[i]])
  }

  /** The original-image paths of `ids`, in that order. */
  function PathsOf(ids: seq<Id>): seq<Path>
  {
    seq(|ids|, i requires 0 <= i < |ids| => OriginalPath(ids[i]))
  }

  /** `fs` and `ps` are the two lists `get_features` builds from `cache`
      when the directory listing yields the stems `ids`: every cached entry
      exactly once, row `i` holding the vector of `ids[i]` and path `i` its
      original image. */
  ghost predicate IsSnapshot(cache: map<Id, Vec>, fs: seq<Vec>, ps: seq<Path>, ids: seq<Id>)
  {
    && Distinct(ids)
    && Elems(ids) == cache.Keys
    && fs == Rows(cache, ids)
    && ps == PathsOf(ids)
  }

  /** Appending an identifier not yet listed keeps a listing free of
      repeats and adds exactly that identifier. */
  lemma AppendFresh(s: seq<Id>, x: Id)
    requires Distinct(s) && x !in Elems(s)
    ensures Distinct(s + [x]) && Elems(s + [x]) == Elems(s) + {x}
  {
    assert Elems(s + [x]) == Elems(s) + {x};
    forall a, b | 0 <= a < b < |s| + 1 ensures (s + [x])[a] != (s + [x])[b] {
      if b == |s| {
        assert s[a] in Elems(s);
      }
    }
  }

  lemma {:induction false} DistinctCount(s: seq<Id>)
    requires Distinct(s)
    ensures |Elems(s)| == |s|
  {
    if s != [] {
      var init := s[..|s| - 1];
      DistinctCount(init);
      assert Elems(s) == Elems(init) + {s[|s| - 1]};
    }
  }

  /** A snapshot has one row per cached embedding. */
  lemma SnapshotSize(cache: map<Id, Vec>, fs: seq<Vec>, ps: seq<Path>, ids: seq<Id>)
    requires IsSnapshot(cache, fs, ps, ids)
    ensures |fs| == |ps| == |cache|
  {
    DistinctCount(ids);
  }

  /** The paths of a snapshot are pairwise different, and each names the
      identifier of its own row, whose vector is that row's. */
  lemma SnapshotPaths(cache: map<Id, Vec>, fs: seq<Vec>, ps: seq<Path>, ids: seq<Id>)
    requires IsSnapshot(cache, fs, ps, ids)
    ensures Distinct(ps)
    ensures forall i :: 0 <= i < |ps| ==> StemOf(ps[i]) == ids[i] && ids[i] in cache && fs[i] == cache[ids[i]]
  {
    forall a, b | 0 <= a < b < |ps| ensures ps[a] != ps[b] {
      OriginalPathInjective(ids[a], ids[b]);
    }
    forall i | 0 <= i < |ps| ensures StemOf(ps[i]) == ids[i] && ids[i] in cache && fs[i] == cache[ids[i]] {
      StemOfOriginalPath(ids[i]);
      assert ids[i] in Elems(ids);
    }
  }

  /** `np.array(features).size`: the number of numbers in the stacked rows. */
  function ArraySize(rows: seq<Vec>): (n: nat)
    ensures n == 0 <==> forall i :: 0 <= i < |rows| ==> rows[i] == []
  {
    if rows == [] then 0 else |rows[0]| + ArraySize(rows[1..])
  }

  /** The cache `update_features` leaves behind: every entry kept as it was,
      and an extracted embedding for each resized image that had none. */
  function Reconciled(resized: set<Id>, cache: map<Id, Vec>, extract: Id -> Vec): (r: map<Id, Vec>)
    ensures r.Keys == cache.Keys + resized
    ensures forall id :: id in cache ==> r[id] == cache[id]
    ensures forall id :: id in resized && id !in cache ==> r[id] == extract(id)
  {
    map id | id in cache.Keys + resized :: if id in cache then cache[id] else extract(id)
  }

  /** Reconciling a cache that already covers every resized image changes
      nothing; in particular reconciling twice is reconciling once. */
  lemma ReconciledIdempotent(resized: set<Id>, cache: map<Id, Vec>, extract: Id -> Vec)
    ensures resized <= cache.Keys ==> Reconciled(resized, cache, extract) == cache
    ensures var once := Reconciled(resized, cache, extract);
            Reconciled(resized, once, extract) == once
  {
  }

  /** Visiting one more resized image adds its embedding if, and only if,
      none was cached for it. */
  lemma ReconciledStep(done: set<Id>, cache: map<Id, Vec>, extract: Id -> Vec, id: Id)
    ensures var before := Reconciled(done, cache, extract);
            Reconciled(done + {id}, cache, extract)
              == if id in before then before else before[id := extract(id)]
  {
  }

  /** Reconciling a covered cache after one new image was stored computes
      exactly one new embedding, the new image's. */
  lemma ReconciledAddsQuery(resized: set<Id>, cache: map<Id, Vec>, extract: Id -> Vec, newId: Id)
    requires resized <= cache.Keys && newId !in cache
    ensures Reconciled(resized + {newId}, cache, extract) == cache[newId := extract(newId)]
  {
  }

  /** `np.linalg.norm(features - query, axis=1)`: one distance per row. */
  function Distances(fs: seq<Vec>, query: Vec, distance: (Vec, Vec) -> real): (d: seq<real>)
    ensures |d| == |fs|
    ensures forall i :: 0 <= i < |fs| ==> d[i] == distance(fs[i], query)
  {
    seq(|fs|, i requires 0 <= i < |fs| => distance(fs[i], query))
  }

  /** What a query promises about its results: each is a distinct cached
      image with the score of its distance to the query, best first, and no
      cached image left out scores higher than one listed. */
  ghost predicate RankedFrom(cache: map<Id, Vec>, query: Vec, distance: (Vec, Vec) -> real, hits: seq<Hit>)
  {
    && DistinctPaths(hits)
    && (forall a, b :: 0 <= a < b < |hits| ==> hits[a].score >= hits[b].score)
    && (forall j :: 0 <= j < |hits| ==>
          var stem := StemOf(hits[j].path);
          && stem in cache
          && hits[j] == Hit(Score(distance(cache[stem], query)), OriginalPath(stem)))
    && (forall id :: id in cache && Unlisted(hits, OriginalPath(id)) ==>
          forall j :: 0 <= j < |hits| ==> Score(distance(cache[id], query)) <= hits[j].score)
  }

  /** Ranking a snapshot of `cache` ranks the cache itself, whatever order
      the snapshot listed its images in. */
  lemma RankSnapshot(cache: map<Id, Vec>, fs: seq<Vec>, ps: seq<Path>, ids: seq<Id>,
                     query: Vec, distance: (Vec, Vec) -> real)
    requires IsSnapshot(cache, fs, ps, ids)
    ensures RankedFrom(cache, query, distance, Rank(Distances(fs, query, distance), ps))
  {
    RankedEntriesAreDistinct(cache, fs, ps, ids, query, distance);
    RankedEntriesAreCached(cache, fs, ps, ids, query, distance);
    RankedEntriesAreNearest(cache, fs, ps, ids, query, distance);
  }

  /** A query lists thirty results, or every cached image when fewer are
      cached. */
  lemma RankedCount(cache: map<Id, Vec>, fs: seq<Vec>, ps: seq<Path>, ids: seq<Id>,
                    query: Vec, distance: (Vec, Vec) -> real)
    requires IsSnapshot(cache, fs, ps, ids)
    ensures |Rank(Distances(fs, query, distance), ps)| == Min(TopCount, |cache|)
  {
    SnapshotSize(cache, fs, ps, ids);
  }

  lemma RankedEntriesAreDistinct(cache: map<Id, Vec>, fs: seq<Vec>, ps: seq<Path>, ids: seq<Id>,
                                 query: Vec, distance: (Vec, Vec) -> real)
    requires IsSnapshot(cache, fs, ps, ids)
    ensures DistinctPaths(Rank(Distances(fs, query, distance), ps))
  {
    SnapshotPaths(cache, fs, ps, ids);
    RankDistinct(Distances(fs, query, distance), ps);
  }

  lemma RankedEntriesAreCached(cache: map<Id, Vec>, fs: seq<Vec>, ps: seq<Path>, ids: seq<Id>,
                               query: Vec, distance: (Vec, Vec) -> real)
    requires IsSnapshot(cache, fs, ps, ids)
    ensures var hits := Rank(Distances(fs, query, distance), ps);
            forall j :: 0 <= j < |hits| ==>
              var stem := StemOf(hits[j].path);
              && stem in cache
              && hits[j] == Hit(Score(distance(cache[stem], query)), OriginalPath(stem))
  {
    var d := Distances(fs, query, distance);
    var hits := Rank(d, ps);
    forall j | 0 <= j < |hits|
      ensures var stem := StemOf(hits[j].path);
              && stem in cache
              && hits[j] == Hit(Score(distance(cache[stem], query)), OriginalPath(stem))
    {
      var i := RankedEntry(d, ps, j);
      StemOfOriginalPath(ids[i]);
    }
  }

  lemma RankedEntriesAreNearest(cache: map<Id, Vec>, fs: seq<Vec>, ps: seq<Path>, ids: seq<Id>,
                                query: Vec, distance: (Vec, Vec) -> real)
    requires IsSnapshot(cache, fs, ps, ids)
    ensures var hits := Rank(Distances(fs, query, distance), ps);
            forall id :: id in cache && Unlisted(hits, OriginalPath(id)) ==>
              forall j :: 0 <= j < |hits| ==> Score(distance(cache[id], query)) <= hits[j].score
  {
    var d := Distances(fs, query, distance);
    var hits := Rank(d, ps);
    SnapshotPaths(cache, fs, ps, ids);
    forall id | id in cache && Unlisted(hits, OriginalPath(id))
      ensures forall j :: 0 <= j < |hits| ==> Score(distance(cache[id], query)) <= hits[j].score
    {
      var i :| 0 <= i < |ids| && ids[i] == id;
      RankIsNearest(d, ps, i);
    }
  }

  /** The three-item summary of a ranking is itself a ranking of the same
      cache: whatever it leaves out scores no higher than what it keeps. */
  lemma SummaryKeepsRanking(cache: map<Id, Vec>, query: Vec, distance: (Vec, Vec) -> real, hits: seq<Hit>)
    requires RankedFrom(cache, query, distance, hits)
    ensures RankedFrom(cache, query, distance, Summary(hits))
  {
    var top := Summary(hits);
    forall id | id in cache && Unlisted(top, OriginalPath(id))
      ensures forall j :: 0 <= j < |top| ==> Score(distance(cache[id], query)) <= top[j].score
    {
      if !Unlisted(hits, OriginalPath(id)) {
        var k :| 0 <= k < |hits| && hits[k].path == OriginalPath(id);
        OriginalPathInjective(StemOf(hits[k].path), id);
        assert hits[k].score == Score(distance(cache[id], query));
      }
    }
  }

  /** A query whose identifier was not cached when the snapshot was taken
      never finds itself. */
  lemma SelfExcluded(cache: map<Id, Vec>, hits: seq<Hit>, newId: Id)
    requires forall j :: 0 <= j < |hits| ==> StemOf(hits[j].path) in cache && hits[j].path == OriginalPath(StemOf(hits[j].path))
    requires newId !in cache
    ensures Unlisted(hits, OriginalPath(newId))
  {
    forall j | 0 <= j < |hits| ensures hits[j].path != OriginalPath(newId) {
      OriginalPathInjective(StemOf(hits[j].path), newId);
    }
  }

  /** The stacked snapshot holds no numbers exactly when every cached
      embedding is empty, in particular when nothing is cached. */
  lemma EmptySnapshot(cache: map<Id, Vec>, fs: seq<Vec>, ps: seq<Path>, ids: seq<Id>)
    requires IsSnapshot(cache, fs, ps, ids)
    ensures ArraySize(fs) == 0 <==> forall id :: id in cache ==> cache[id] == []
  {
    if ArraySize(fs) == 0 {
      forall id | id in cache ensures cache[id] == [] {
        assert id in Elems(ids);
        var i :| 0 <= i < |ids| && ids[i] == id;
        assert fs[i] == cache[id];
      }
    }
  }

  /** `get_features`: list the feature directory `cache`, appending each vector and the
      original path of the same stem. The listing order is not fixed. */
  method GetFeatures(cache: map<Id, Vec>) returns (fs: seq<Vec>, ps: seq<Path>, ghost ids: seq<Id>)
    ensures IsSnapshot(cache, fs, ps, ids)
    ensures |fs| == |ps| && Distinct(ps)
    ensures forall i :: 0 <= i < |ps| ==>
              var stem := StemOf(ps[i]);
              stem in cache && ps[i] == OriginalPath(stem) && fs[i] == cache[stem]
    ensures forall id :: id in cache ==> OriginalPath(id) in ps
  {
    fs, ps, ids := [], [], [];
    var todo := cache.Keys;
    while todo != {}
      invariant todo <= cache.Keys
      invariant Distinct(ids)
      invariant Elems(ids) == cache.Keys - todo
      invariant fs == Rows(cache, ids) && ps == PathsOf(ids)
      decreases todo
    {
      var id :| id in todo;
      AppendFresh(ids, id);
      fs := fs + [cache[id]];
      ps := ps + [OriginalPath(id)];
      ids := ids + [id];
      todo := todo - {id};
    }
    SnapshotPaths(cache, fs, ps, ids);
    forall id | id in cache ensures OriginalPath(id) in ps {
      assert id in Elems(ids);
      var i :| 0 <= i < |ids| && ids[i] == id;
      assert ps[i] == OriginalPath(id);
    }
  }

  /** The order of the sorted walk is fixed: two repeat-free listings of
      the same images, both in directory order, are the same listing. So
      the extractor calls of `update_features` come in one order only. */
  lemma {:induction false} InNameOrderUnique(a: seq<Id>, b: seq<Id>)
    requires Distinct(a) && Distinct(b) && Elems(a) == Elems(b)
    requires InNameOrder(a) && InNameOrder(b)
    ensures a == b
    decreases |a|
  {
    if a != [] {
      assert a[0] in Elems(b);
      assert b != [];
      forall o | o in Elems(a) ensures NameBelow(a[0], o) && NameBelow(b[0], o) {
        var i :| 0 <= i < |a| && a[i] == o;
        var j :| 0 <= j < |b| && b[j] == o;
        if i == 0 { BelowTotal(FileName(o), FileName(o)); }
        if j == 0 { BelowTotal(FileName(o), FileName(o)); }
      }
      FirstIsUnique(Elems(a), a[0], b[0]);
      assert Elems(a[1..]) == Elems(a) - {a[0]} by {
        forall x | x in Elems(a[1..]) ensures x != a[0] {
          var i :| 0 <= i < |a[1..]| && a[1..][i] == x;
        }
        assert a == [a[0]] + a[1..];
      }
      assert Elems(b[1..]) == Elems(b) - {b[0]} by {
        forall x | x in Elems(b[1..]) ensures x != b[0] {
          var i :| 0 <= i < |b[1..]| && b[1..][i] == x;
        }
        assert b == [b[0]] + b[1..];
      }
      InNameOrderUnique(a[1..], b[1..]);
      assert a == [a[0]] + a[1..] && b == [b[0]] + b[1..];
    } else {
      DistinctCount(b);
      assert Elems(a) == {};
    }
  }

  class SearchServer {
    /** Stems of the files under `static/resized`. */
    var resized: set<Id>
    /** Stems of the files under `static/original`. */
    var original: set<Id>
    /** The files under `static/feature`, by stem. */
    var feature: map<Id, Vec>
    /** The global `_features`. */
    var features: seq<Vec>
    /** The global `_img_paths`. */
    var imgPaths: seq<Path>
    /** The order in which the last snapshot listed the feature files. */
    ghost var snapshotIds: seq<Id>

    /** The CNN applied to the stored resized image of an identifier. */
    const extract: Id -> Vec
    /** The L2 norm of the difference of two embeddings. */
    const distance: (Vec, Vec) -> real

    /** Between requests every resized image has an embedding and the
        globals are a snapshot of the cache. */
    ghost predicate Valid()
      reads this
    {
      resized <= feature.Keys && IsSnapshot(feature, features, imgPaths, snapshotIds)
    }

    /** Module start-up: take a snapshot, then reconcile the cache. */
    constructor (resized0: set<Id>, original0: set<Id>, feature0: map<Id, Vec>,
                 extract: Id -> Vec, distance: (Vec, Vec) -> real)
      ensures Valid()
      ensures resized == resized0 && original == original0
      ensures feature == Reconciled(resized0, feature0, extract)
      ensures this.extract == extract && this.distance == distance
    {
      resized, original, feature := resized0, original0, feature0;
      this.extract, this.distance := extract, distance;
      features, imgPaths, snapshotIds := [], [], [];
      new;
      features, imgPaths, snapshotIds := GetFeatures(feature);
      var _ := UpdateFeatures();
    }

    /** `update_features`: reconcile the cache with the resized directory,
        then refresh the snapshot globals from the cache. Returns the
        identifiers the extractor was called on, in call order. */
    method UpdateFeatures() returns (extracted: seq<Id>)
      modifies this`feature, this`features, this`imgPaths, this`snapshotIds
      ensures resized == old(resized) && original == old(original)
      ensures feature == Reconciled(resized, old(feature), extract)
      ensures Elems(extracted) == resized - old(feature).Keys
      ensures Distinct(extracted)
      ensures InNameOrder(extracted)
      ensures extracted == [] <==> resized <= old(feature).Keys
      ensures Valid()
    {
      extracted := FillCache();
      features, imgPaths, snapshotIds := GetFeatures(feature);
    }

    /** The loop of `update_features`: walk the resized images in file-name
        order, and for each one whose embedding file is missing call the
        extractor and store its result. */
    method FillCache() returns (extracted: seq<Id>)
      modifies this`feature
      ensures feature == Reconciled(resized, old(feature), extract)
      ensures Elems(extracted) == resized - old(feature).Keys
      ensures Distinct(extracted)
      ensures InNameOrder(extracted)
      ensures extracted == [] <==> resized <= old(feature).Keys
    {
      extracted := [];
      var todo := resized;
      while todo != {}
        invariant todo <= resized
        invariant feature == Reconciled(resized - todo, old(feature), extract)
        invariant Elems(extracted) == (resized - todo) - old(feature).Keys
        invariant Distinct(extracted)
        invariant InNameOrder(extracted)
        invariant forall x, o :: x in extracted && o in todo ==> NameBelow(x, o)
        decreases todo
      {
        ghost var first := FirstInOrder(todo);
        var id :| id in todo && forall o :: o in todo ==> NameBelow(id, o);
        ReconciledStep(resized - todo, old(feature), extract, id);
        if id !in feature {
          assert id !in Elems(extracted);
          AppendFresh(extracted, id);
          AppendInOrder(extracted, id);
          feature := feature[id := extract(id)];
          extracted := extracted + [id];
        }
        assert resized - (todo - {id}) == (resized - todo) + {id};
        todo := todo - {id};
      }
      assert resized - todo == resized;
      assert extracted != [] ==> extracted[0] in Elems(extracted);
      assert extracted == [] ==> Elems(extracted) == {};
    }

    /** `save_image`: store the query under a fresh name in both image
        directories and return the original path. */
    method SaveImage(newId: Id) returns (path: Path)
      requires newId !in resized && newId !in original
      modifies this`resized, this`original
      ensures resized == old(resized) + {newId} && original == old(original) + {newId}
      ensures path == OriginalPath(newId)
    {
      original := original + {newId};
      resized := resized + {newId};
      path := OriginalPath(newId);
    }

    /** The body `demo` and `inference` share: save the query, snapshot the
        cache before reconciling, rank the snapshot against the query
        embedding unless the stacked array is empty, then reconcile. The
        query's own embedding is cached afterwards but was not in the
        snapshot, so it is never among its own results. */
    method Search(newId: Id, query: Vec) returns (queryPath: Path, outcome: Outcome)
      requires Valid()
      requires newId !in resized && newId !in original && newId !in feature
      modifies this
      ensures Valid()
      ensures queryPath == OriginalPath(newId)
      ensures resized == old(resized) + {newId} && original == old(original) + {newId}
      ensures feature == old(feature)[newId := extract(newId)]
      ensures outcome == EmptyIndex <==> forall id :: id in old(feature) ==> old(feature)[id] == []
      ensures outcome.Ranked? ==> |outcome.hits| == Min(TopCount, |old(feature)|)
      ensures outcome.Ranked? ==> RankedFrom(old(feature), query, distance, outcome.hits)
      ensures outcome.Ranked? ==> Unlisted(outcome.hits, queryPath)
    {
      ghost var cache := feature;
      queryPath := SaveImage(newId);
      var fs, ps, ids := GetFeatures(feature);
      features, imgPaths, snapshotIds := fs, ps, ids;
      if ArraySize(fs) == 0 {
        outcome := EmptyIndex;
      } else {
        outcome := Ranked(Rank(Distances(fs, query, distance), ps));
      }
      var _ := UpdateFeatures();
      ReconciledAddsQuery(old(resized), cache, extract, newId);
      assert feature == cache[newId := extract(newId)];
      EmptySnapshot(cache, fs, ps, ids);
      if outcome.Ranked? {
        RankedCount(cache, fs, ps, ids, query, distance);
        RankSnapshot(cache, fs, ps, ids, query, distance);
        SelfExcluded(cache, outcome.hits, newId);
      }
    }

    /** The `POST /` handler: the page with the query path and all ranked
        results, none when the cache held no numbers. */
    method Demo(newId: Id, query: Vec) returns (response: Response)
      requires Valid()
      requires newId !in resized && newId !in original && newId !in feature
      modifies this
      ensures Valid()
      ensures resized == old(resized) + {newId} && original == old(original) + {newId}
      ensures feature == old(feature)[newId := extract(newId)]
      ensures response.Page? && response.queryPath == OriginalPath(newId)
      ensures response.scores == [] <==> forall id :: id in old(feature) ==> old(feature)[id] == []
      ensures response.scores != [] ==> |response.scores| == Min(TopCount, |old(feature)|)
      ensures RankedFrom(old(feature), query, distance, response.scores)
      ensures Unlisted(response.scores, response.queryPath)
    {
      var queryPath, outcome := Search(newId, query);
      response := Page(queryPath, if outcome.Ranked? then outcome.hits else []);
    }

    /** The `POST /inference` handler: the JSON object with the query path
        and the first three results, or, when the cache held no numbers,
        the page without results. */
    method Inference(newId: Id, query: Vec) returns (response: Response)
      requires Valid()
      requires newId !in resized && newId !in original && newId !in feature
      modifies this
      ensures Valid()
      ensures resized == old(resized) + {newId} && original == old(original) + {newId}
      ensures feature == old(feature)[newId := extract(newId)]
      ensures response.Page? <==> forall id :: id in old(feature) ==> old(feature)[id] == []
      ensures response.Page? ==> response == Page(OriginalPath(newId), [])
      ensures response.Json? ==> response.query == OriginalPath(newId)
      ensures response.Json? ==> |response.similarity| == Min(SummaryCount, |old(feature)|)
      ensures response.Json? ==> RankedFrom(old(feature), query, distance, response.similarity)
      ensures response.Json? ==> Unlisted(response.similarity, response.query)
    {
      var queryPath, outcome := Search(newId, query);
      if outcome.EmptyIndex? {
        response := Page(queryPath, []);
      } else {
        response := Json(queryPath, Summary(outcome.hits));
        SummaryKeepsRanking(old(feature), query, distance, outcome.hits);
      }
    }
  }
}
