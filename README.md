# Image-similarity search server: feature cache and nearest-neighbour ranking

This project models the core of `server.py`, an image-similarity search
server. The server keeps three stores on disk, all keyed by a random image
identifier (the file stem):

- `static/original/<id>.jpg`: the uploaded image;
- `static/resized/<id>.jpg`: a 256×256 copy of it;
- `static/feature/<id>.npy`: the CNN embedding of the resized copy.

Two module globals hold a snapshot of the embedding cache. `_features`
holds the stacked vectors and `_img_paths` the original-image path of each
row.

A query does the following:
1. It stores the upload under a fresh identifier in both image directories.
2. It embeds the upload.
3. It refreshes the snapshot *before* the new image has an embedding.
4. If the stacked array holds no numbers, it answers with no results.
5. Otherwise it ranks every cached image by L2 distance to the query. It
   keeps the thirty nearest and scores each as `(1 - d) * 100`.
6. Finally it reconciles the cache. Every resized image without an
   embedding file gets one, in file-name order. Then it refreshes the
   snapshot again.

`POST /` renders every result. `POST /inference` returns the first three
as JSON.

The model has three modules:

- `Paths` (`paths.dfy`) holds identifiers and the path strings built from
  them. It also defines the code-point order in which `sorted` lists file
  names.
- `Ranking` (`ranking.dfy`) holds the pure ranking step: argsort, the
  top-thirty prefix, the score and the three-item summary.
- `Server` (`server.dfy`) holds the stores and requests. The class
  `SearchServer` has set and map fields for the three directories and
  sequence fields for the two globals. Its methods change them as the
  source does. The CNN (`extract`) and the L2 norm (`distance`) are
  functions the server is constructed with.

The central invariant is `SearchServer.Valid`, which holds between
requests. Every resized image has a cached embedding, and the globals are
a snapshot of the cache: every cached embedding appears exactly once, and
row `i` and path `i` belong to the same identifier.

`RankedFrom` states what a query promises about its results:
- every result is a distinct cached image;
- each result carries the score of its own distance to the query;
- results are best first;
- no cached image left out scores higher than any image listed.

Two behaviours of the code are kept as they are, though a caller might
expect otherwise:
- `/inference` with an empty cache answers with the rendered page, not
  with JSON.
- No request reports a storage or embedding error. The code has no error
  handling, so a failure is an uncaught exception that this model does not
  represent.

## Model

| member | source | states |
|---|---|---|
| Paths.OriginalPath | server.py:17 | the original path of an identifier lies in `static/original/`, ends in `.jpg`, and is exactly as long as those two parts plus the identifier; `StemOfOriginalPath` takes it back to the identifier |
| Paths.StemOfOriginalPath | server.py:17 | the stem of the original path built for an identifier is that identifier, so a snapshot path names its own feature file |
| Paths.OriginalPathInjective | server.py:33-34 | two identifiers share an original path exactly when they are equal |
| Paths.BelowTotal | server.py:23 | any two file names are comparable in the order `sorted` uses |
| Paths.BelowTransitive | server.py:23 | the file-name order is transitive |
| Paths.BelowAntisymmetric | server.py:23 | two file names that each come no later than the other are equal |
| Paths.AppendInOrder | server.py:23 | appending an image that no listed image comes after keeps a listing in file-name order |
| Paths.FirstInOrder | server.py:23 | every non-empty set of images has a first one in file-name order |
| Paths.FirstIsUnique | server.py:23 | that first image is unique, so the sorted walk has a single visiting order |
| Ranking.Insert | server.py:62 | inserting an index into a distance-sorted index list keeps it sorted and adds exactly that index |
| Ranking.InsertDistinct | server.py:62 | inserting an index not yet listed keeps the index list free of repeats |
| Ranking.ArgSort | server.py:62 | argsort yields every index below `n` exactly once, in non-decreasing order of distance |
| Ranking.TopK | server.py:62 | the `[:30]` prefix has `min(k, N)` distinct in-range indices in non-decreasing order of distance |
| Ranking.TopKIsNearest | server.py:62 | no index left out of the prefix is nearer than an index kept |
| Ranking.Score | server.py:63 | the score of a distance is 100 exactly for distance 0, and never above 100 for a distance, which is not negative |
| Ranking.ScoreAntitone | server.py:63 | a smaller distance gives a score no lower, and a strictly smaller one a strictly higher score |
| Ranking.ScoreBelowZero | server.py:63 | the score is below zero exactly when the distance exceeds 1, so it is not bounded to 0..100 |
| Ranking.Rank | server.py:61-63 | the result list has `min(30, N)` entries with non-increasing scores |
| Ranking.RankedEntry | server.py:63 | each result is the score and path of one snapshot row |
| Ranking.RankDistinct | server.py:63 | with distinct snapshot paths, no two results carry the same path |
| Ranking.RankIsNearest | server.py:61-63 | a snapshot row whose path is not listed scores no higher than any listed result |
| Ranking.Summary | server.py:97 | the JSON summary is exactly the first `min(3, len)` results, in order |
| Server.AppendFresh | server.py:16-17 | appending an unlisted stem keeps the listing free of repeats and adds exactly that stem |
| Server.DistinctCount | server.py:15-17 | a listing without repeats has as many entries as distinct stems |
| Server.SnapshotSize | server.py:18-19 | the snapshot has as many vectors and as many paths as there are cached embeddings |
| Server.SnapshotPaths | server.py:15-17 | snapshot paths are pairwise different, and path `i` names the stem whose cached vector is row `i` |
| Server.GetFeatures | server.py:12-19 | the two lists have equal length and pairwise different paths. Path `i` is the original path of a cached stem whose vector is row `i`, every cached stem is listed, and the listing order is left open |
| Server.ArraySize | server.py:57 | the stacked array holds no numbers exactly when every row is empty |
| Server.EmptySnapshot | server.py:55-57 | the snapshot array is empty exactly when every cached embedding is empty, in particular when nothing is cached |
| Server.Reconciled | server.py:23-27 | after reconciliation the cache covers the old keys plus every resized image; old entries are unchanged and each new entry is the extractor's output for its image |
| Server.ReconciledIdempotent | server.py:24-27 | reconciling a cache that covers every resized image changes nothing, so reconciling twice equals reconciling once |
| Server.ReconciledStep | server.py:24-27 | visiting one more resized image adds its embedding exactly when none was cached |
| Server.ReconciledAddsQuery | server.py:65 | after one new upload, reconciling a covered cache adds exactly the new image's embedding |
| Server.Distances | server.py:61 | one distance per snapshot row, that row's distance to the query |
| Server.RankSnapshot | server.py:55-63 | the results of ranking a snapshot satisfy `RankedFrom` for the cache, whatever the listing order |
| Server.RankedCount | server.py:62 | a query lists `min(30, N)` results for a cache of `N` images |
| Server.RankedEntriesAreDistinct | server.py:63 | no two results of ranking a snapshot carry the same original path |
| Server.RankedEntriesAreCached | server.py:63 | every result is a cached image with the score of its own distance and its original path |
| Server.RankedEntriesAreNearest | server.py:62-63 | a cached image that is not listed scores no higher than any result |
| Server.SummaryKeepsRanking | server.py:97 | the three-item summary of a ranking is itself a ranking of the same cache |
| Server.SelfExcluded | server.py:50-63 | an image that was not cached when the snapshot was taken is never among the results |
| Server.InNameOrderUnique | server.py:23-25 | two repeat-free listings of the same images, both in file-name order, are equal, so the extractor-call log of `update_features` is determined by the stores |
| Server.SearchServer.constructor | server.py:40-41 | start-up takes a snapshot, then reconciles; the directories are kept and the cache is reconciled with the resized directory |
| Server.SearchServer.UpdateFeatures | server.py:21-28 | the cache becomes `Reconciled` of the old cache, and the extractor runs once per resized image lacking an embedding, in file-name order and nowhere else (none at all when the cache already covers them). The image directories are unchanged, and the globals are refreshed to a snapshot, re-establishing `Valid` |
| Server.SearchServer.FillCache | server.py:23-27 | the sorted loop stores exactly the missing embeddings, never overwrites one, and reports the extracted stems in file-name order without repeats |
| Server.SearchServer.SaveImage | server.py:30-38 | the fresh name is added to both image directories, and the original path is returned |
| Server.SearchServer.Search | server.py:50-65 | the shared query body. The outcome is empty exactly when the old cache holds no numbers. Otherwise it has `min(30, N)` results that satisfy `RankedFrom` for the cache before the request, without the query itself. Afterwards the cache equals the old cache plus the query's embedding, the directories gain the query, and `Valid` holds |
| Server.SearchServer.Demo | server.py:44-68 | the page carries the query path. Its results are empty exactly when the old cache held no numbers, and otherwise they are the `min(30, N)`-entry ranking of the old cache, without the query |
| Server.SearchServer.Inference | server.py:73-98 | with an empty old cache, the page with the query path and no results. Otherwise, the JSON object with the query path and `min(3, N)` results that rank the old cache, without the query. The stores change as for `Demo` |

## Left out

- HTTP plumbing is left out: Flask routing, `request.files`, template rendering and the `GET /` branch of `demo` (server.py:43-48, 66-70, 100-101). A response is a `Page` or `Json` value.
- The CNN is the function `extract`, applied to an identifier's stored resized image. Each request's query embedding is a separate parameter. The source embeds the in-memory resized image, while the cache later embeds the re-read JPEG, and the two need not coincide.
- Image decoding, RGB conversion, the 256×256 resize and JPEG encoding (server.py:31-32, 36-37) are left out. An image is represented by its identifier only.
- Floating point and `np.linalg.norm` are left out: distances come from the function `distance`, and scores are exact reals.
- `np.save` and `np.load` are an exact map store. The glob listing order of `get_features` is left arbitrary, and `os.listdir` is a membership test.
- `uuid.uuid4` is replaced by the precondition that the new identifier is in none of the three stores.
- Concurrent requests are left out. The globals are shared without locking, and the model runs one request at a time.
- Failures are left out: an unreadable upload, a failing write, an extractor exception, and a stored image without an embedding after a crash. The source has no error handling, and such a failure ends the request with an exception.
- The stacked NumPy array is a sequence of rows. Rows of different lengths, and a query of a different dimension, are not rejected as NumPy would reject them; `distance` is total.
- Ranking.ArgSort: promises no order among equal distances, because `np.argsort`'s default sort is not stable. The model's insertion order is one admissible choice.
- Server.SearchServer.Search: says nothing about the values of the snapshot globals during the request. Only their state after the closing `update_features` is stated.
