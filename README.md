# spotify-analysis enrichment scripts, modelled in Dafny

This project models the decision logic of the two data-enrichment scripts of the
spotify-analysis repository and proves properties of it.

`spotify-preview-url-scraper/server.js` resolves every edge of a collaboration graph to a
Spotify track. An edge has a source artist, a target artist and a track title.
- Names are compared after normalization. Normalization keeps the ASCII letters and digits and upper-cases them.
- The resolver takes the first search result whose artists and title all match. If none does, it takes the first result.
- When that result carries no preview URL, the resolver looks up the track once more by id.
- The result is a record with one of three error tags.
- The batch loop reuses a cached record when one exists for the edge.
- Otherwise the batch loop escalates:
  - after "not found", it searches again without the artist clause;
  - after "request error", it repeats the search, and searches without the artist clause if that repeat finds nothing.
- The `/clean` handler keeps the first row of every undirected `(source_id, target_id)` pair and numbers the survivors in the `''` column.

`fetch_images.mjs` splits the node ids into batches of 50 and requests each batch from the
artists endpoint. It then merges the artist lists of the fulfilled requests and maps every
artist id to the URL of its first image. Finally it writes that map as the text
`id,image_url` followed by one `id,url` line per entry.

Modules:
- `Wrappers`: `Option`.
- `Builtins`: `join`, `slice` and a line splitter that is the partner of `join`.
- `Matching`: normalization, `getDataCoincides` and the choice of candidate.
- `Resolver`: `getSpotifyData`.
- `Scrape`: the loop and retry ladder of `getIDs`.
- `Clean`: the `/clean` deduplication and re-indexing.
- `FetchImages`: `fetch_images.mjs`.

The network is an oracle.
- `Api` is a pair of functions for the search and detail endpoints. Each answer depends on the request and on the number of the resolver call, so a retry of the same query may be answered differently.
- In `fetch_images.mjs` the oracle is a function from the number of a batch and its id list to the settled outcome of that batch's request, so two batches with the same ids may settle differently.

The retry ladder has an independent reference definition, `NextCall`. It is a state machine over the error tags seen so far. `Escalate` unrolls it into the calls made for one edge. `Total` numbers the resolver calls of the whole batch. `GetIDs`, a loop that follows the source's `if` ladder, is proved to return `Themes`, the reference result, and to make exactly `Total` resolver calls.

`Object.fromEntries` and `Object.entries` are modelled on an association list with distinct keys, kept in property-creation order. `Object.entries` lists the keys that are array indices first, in ascending numeric order, and then the other keys in creation order (ECMA-262, section 10.1.11.1, OrdinaryOwnPropertyKeys). Spotify ids have 22 characters and are therefore never array indices (`LongKeyIsNotArrayIndex`).

The search query with the artist clause hidden is `track:<title> ` with a trailing space. The code builds it that way and the model follows the code.

## Model

| member | source | states |
|---|---|---|
| Matching.StripNonAlnum | spotify-preview-url-scraper/server.js:186-188 | the result keeps only ASCII letters and digits, is no longer than its input, and is the input itself when that is all letters and digits |
| Matching.UpperAscii | spotify-preview-url-scraper/server.js:186-188 | `toUpperCase` on ASCII: same length, each character upper-cased |
| Matching.Normalize | spotify-preview-url-scraper/server.js:186-188 | a normalized text holds upper-case letters and digits only and is no longer than the input |
| Matching.StripAppend | spotify-preview-url-scraper/server.js:186-188 | stripping two texts joined is stripping each and joining, so every kept character keeps its place |
| Matching.UpperAppend | spotify-preview-url-scraper/server.js:186-188 | upper-casing two texts joined is upper-casing each and joining |
| Matching.NormalizeAppend | spotify-preview-url-scraper/server.js:186-188 | normalizing two texts joined is normalizing each and joining: no letter or digit is lost or moved |
| Matching.NormalizeChar | spotify-preview-url-scraper/server.js:186-188 | a single ASCII letter or digit normalizes to itself upper-cased; any other character to nothing |
| Matching.SlashIsIgnored | spotify-preview-url-scraper/server.js:186-188 | `AC/DC` and `ACDC` both normalize to `ACDC` |
| Matching.NormalizeFixedPoints | spotify-preview-url-scraper/server.js:186-188 | a text is its own normalization exactly when it is made of upper-case letters and digits |
| Matching.NormalizeIdempotent | spotify-preview-url-scraper/server.js:186-188 | normalizing twice equals normalizing once |
| Matching.NormalizeIgnoresCase | spotify-preview-url-scraper/server.js:186-188 | upper-casing before normalization changes nothing, so case never decides a comparison |
| Matching.AnyNormalizesTo | spotify-preview-url-scraper/server.js:186-187 | `some` is true exactly when some name normalizes to the key |
| Matching.ArtistNames | spotify-preview-url-scraper/server.js:185 | the names of the artists, one per artist, in order |
| Matching.DataCoincides | spotify-preview-url-scraper/server.js:184-196 | `sourceExists` iff some artist normalizes like the source; `sourceTarget` iff some artist normalizes like the target; `trackNameCoincides` iff the names normalize alike; the artist names in order |
| Matching.FullMatch | spotify-preview-url-scraper/server.js:114-116 | a candidate matches fully exactly when one of its artists normalizes like the source, one like the target, and its name like the edge's title |
| Matching.FirstFullMatch | spotify-preview-url-scraper/server.js:114-117 | `find` returns a fully matching member of the list, and returns nothing exactly when no candidate matches fully |
| Matching.FirstFullMatchIsFirst | spotify-preview-url-scraper/server.js:114-117 | `find` returns the earliest fully matching candidate |
| Matching.SelectCandidate | spotify-preview-url-scraper/server.js:114-119 | the chosen candidate is in the list; it matches fully whenever some candidate does; without a full match it is the first result |
| Matching.SelectFirstFullMatch | spotify-preview-url-scraper/server.js:114-119 | of the fully matching candidates, the earliest is chosen |
| Resolver.Query | spotify-preview-url-scraper/server.js:97 | the query is `track:`, the title and a space, then `artist:<source> <target>` unless the artist is hidden, in which case the text ends right after that space |
| Resolver.HiddenArtistQueryIsPrefix | spotify-preview-url-scraper/server.js:97 | the query without the artist clause is a proper prefix of the full query |
| Resolver.PreviewOf | spotify-preview-url-scraper/server.js:122-139 | a truthy own preview URL wins; otherwise a truthy URL from a successful detail lookup is used; otherwise the preview is `false`; a URL preview is never empty |
| Resolver.BlankRecord | spotify-preview-url-scraper/server.js:153-180 | an error record copies the edge's columns and the tag, and leaves the name, artists and id empty, both match columns blank and the preview `false` |
| Resolver.FoundRecord | spotify-preview-url-scraper/server.js:141-152 | the success record carries the candidate's name and id, the artist names joined by `", "`, the title flag, and `artists_coincides` exactly when both source and target are among the artists |
| Resolver.GetSpotifyData | spotify-preview-url-scraper/server.js:95-182 | the record copies the edge's own columns; its error is `request error` exactly when the search throws and `not found` exactly when it returns no items |
| Resolver.ErrorTextOfCall | spotify-preview-url-scraper/server.js:78-83 | the `error` text the ladder compares is `not found` exactly for no items, `request error` exactly for a failed request, and `''` for a success |
| Resolver.RecordShapes | spotify-preview-url-scraper/server.js:141-180 | an error record is blank apart from the edge's columns; a success record describes the selected candidate with the preview from this call's detail lookup |
| Resolver.OwnPreviewSkipsDetail | spotify-preview-url-scraper/server.js:122-124 | with a truthy own preview URL, any detail endpoint gives the same record, whose preview is that URL |
| Resolver.FailedDetailKeepsSuccess | spotify-preview-url-scraper/server.js:124-138 | a failing detail lookup leaves a success record with preview `false` |
| Resolver.NoItemsIsNotFound | spotify-preview-url-scraper/server.js:108-113 | a search without items yields the `not found` record: blank match columns, empty name, artists and id, preview `false` |
| Scrape.Lookup | spotify-preview-url-scraper/server.js:68 | the cache lookup returns a cached row with the edge's source and target, and returns nothing exactly when no row has them |
| Scrape.LookupFindsFirst | spotify-preview-url-scraper/server.js:68 | the lookup returns the first cached row for the pair |
| Scrape.Errors | spotify-preview-url-scraper/server.js:76-86 | one tag per call made; tag `k` is the `error` column of the record that call `n + k` returns, the column the ladder tests |
| Scrape.NextCall | spotify-preview-url-scraper/server.js:76-86 | the ladder makes at most three calls; it starts with the full query; it hides the artist only after `not found`; it stops after a success |
| Scrape.Continue | spotify-preview-url-scraper/server.js:76-86 | running the ladder on from a partial trace extends it and makes at most three calls |
| Scrape.Escalate | spotify-preview-url-scraper/server.js:76-86 | one edge costs one to three calls, the first with the artist clause |
| Scrape.Final | spotify-preview-url-scraper/server.js:76-88 | the pushed record is the last call's and carries that call's error tag |
| Scrape.ContinueStops | spotify-preview-url-scraper/server.js:76-86 | the ladder never stops while the policy would still retry |
| Scrape.NoRetryOnSuccess | spotify-preview-url-scraper/server.js:76-78 | a first call that succeeds is the only call |
| Scrape.RetryAfterNotFound | spotify-preview-url-scraper/server.js:78-79 | after `not found` exactly one more call is made, with the artist hidden |
| Scrape.RepeatAfterRequestError | spotify-preview-url-scraper/server.js:80-81 | after `request error` the same full query is repeated |
| Scrape.RetryAfterRequestError | spotify-preview-url-scraper/server.js:80-86 | after `request error`, a repeat that finds nothing is followed by a call with the artist hidden; any other repeat result is final |
| Scrape.Cost | spotify-preview-url-scraper/server.js:67-86 | an edge costs at most three calls, and none exactly when it is cached |
| Scrape.Slot | spotify-preview-url-scraper/server.js:67-88 | the record pushed for an edge has that edge's source and target |
| Scrape.Total | spotify-preview-url-scraper/server.js:67-90 | a batch makes at most three calls per edge |
| Scrape.TotalStep | spotify-preview-url-scraper/server.js:67-90 | the calls of the first `i + 1` edges are those of the first `i` plus the cost of edge `i` |
| Scrape.Themes | spotify-preview-url-scraper/server.js:64-93 | one record per edge, in edge order, each with its edge's source and target |
| Scrape.PrefixOfThemes | spotify-preview-url-scraper/server.js:64-93 | the records of a prefix of the edges are a prefix of the records |
| Scrape.CacheHitIsVerbatim | spotify-preview-url-scraper/server.js:68-73 | a cached edge gets the first cached row verbatim and costs no call |
| Scrape.FullCacheMakesNoCalls | spotify-preview-url-scraper/server.js:67-74 | with every edge cached, no resolver call is made |
| Scrape.CacheMissEscalates | spotify-preview-url-scraper/server.js:76-88 | an uncached edge gets the last record of its ladder, and its ladder's calls are counted from the calls before it |
| Scrape.Resolve | spotify-preview-url-scraper/server.js:76-86 | the source's `if` ladder makes exactly the calls of `Escalate` and returns its final record |
| Scrape.GetIDs | spotify-preview-url-scraper/server.js:64-93 | the loop's result is the reference result `Themes`, and its call counter ends at `Total`, so it makes at most three calls per edge and none for a cached edge |
| Scrape.GetIDsKeepsEdgeOrder | spotify-preview-url-scraper/server.js:64-93 | the result has one record per edge, in edge order, with matching source and target |
| Clean.SamePairIsUnorderedPair | spotify-preview-url-scraper/server.js:223-225 | the `some` test holds exactly when the two rows hold the same unordered pair (multiset) of ids |
| Clean.SamePairIsEquivalence | spotify-preview-url-scraper/server.js:223-225 | "same pair in either direction" is reflexive, symmetric and transitive |
| Clean.Listed | spotify-preview-url-scraper/server.js:223-226 | `some` holds exactly when a listed row has the same pair in either direction |
| Clean.Deduplicated | spotify-preview-url-scraper/server.js:221-229 | deduplication never adds rows |
| Clean.Kept | spotify-preview-url-scraper/server.js:221-229 | the positions of the survivors, strictly increasing, one per survivor |
| Clean.KeptPicksSurvivors | spotify-preview-url-scraper/server.js:221-229 | survivor `j` is the input row at the `j`-th kept position, so first occurrences keep their order |
| Clean.DeduplicatedGrows | spotify-preview-url-scraper/server.js:222-229 | the survivors of a prefix of the rows are a prefix of the survivors |
| Clean.SurvivorsAreDistinct | spotify-preview-url-scraper/server.js:223-227 | no two survivors share a pair in either direction |
| Clean.EveryPairSurvives | spotify-preview-url-scraper/server.js:222-229 | every input pair is represented among the survivors |
| Clean.LastKeptIffNew | spotify-preview-url-scraper/server.js:223-227 | a row is pushed exactly when no earlier row has its pair |
| Clean.KeptIffFirst | spotify-preview-url-scraper/server.js:221-229 | a row survives exactly when no earlier row has its pair in either direction |
| Clean.DedupEdges | spotify-preview-url-scraper/server.js:221-229 | the `forEach` loop builds the reference deduplication |
| Clean.Reindexed | spotify-preview-url-scraper/server.js:231-233 | re-indexing keeps the number of rows |
| Clean.ReindexedColumns | spotify-preview-url-scraper/server.js:231-233 | survivor `i` holds `i` in its `''` column and every other column unchanged |
| Clean.ReindexedKeepsPairs | spotify-preview-url-scraper/server.js:231-233 | re-indexing keeps every pair relation between rows |
| Clean.Reindex | spotify-preview-url-scraper/server.js:231-233 | the in-place loop leaves the array equal to the re-indexed rows |
| Clean.CleanEdges | spotify-preview-url-scraper/server.js:221-233 | the rows handed to the writer are the survivors, numbered from 0 |
| Clean.ThreeEdgeExample | spotify-preview-url-scraper/server.js:221-233 | edges `(1,2)`, `(2,1)`, `(3,4)` leave `(1,2)` and `(3,4)`, numbered 0 and 1 |
| FetchImages.GroupCount | fetch_images.mjs:46-47 | the number of batches is the least `g` with `n <= 50 * g`, zero exactly for no nodes |
| FetchImages.Groups | fetch_images.mjs:46-53 | there are `ceil(n / 50)` batches |
| FetchImages.GroupIsRun | fetch_images.mjs:48-51 | batch `i` is the ids from `50 * i` up to `50 * (i + 1)` or the end, and holds 1 to 50 ids |
| FetchImages.GroupsAreRuns | fetch_images.mjs:48-51 | every batch starts inside the id list and is its run of at most 50 ids |
| FetchImages.GroupsConcat | fetch_images.mjs:48-51 | the batches, concatenated in order, are exactly the id list |
| FetchImages.Merge | fetch_images.mjs:57-64 | an artist is merged exactly when it is in the list of some fulfilled batch |
| FetchImages.MergeAppend | fetch_images.mjs:57-64 | merging two runs of results is merging each and concatenating |
| FetchImages.RejectedContributesNothing | fetch_images.mjs:59-63 | a rejected batch contributes no artists, wherever it stands |
| FetchImages.FulfilledBatchInPlace | fetch_images.mjs:58-61 | a fulfilled batch's artists appear in order right after those of the earlier batches |
| FetchImages.AllFulfilledIsConcatenation | fetch_images.mjs:57-64 | with all batches fulfilled, the merge is the concatenation of their lists |
| FetchImages.Put | fetch_images.mjs:65-67 | setting a property keeps keys distinct; an existing key keeps its place and takes the new value; a new key goes last |
| FetchImages.LastValue | fetch_images.mjs:65-67 | the reference "last pair wins" value: none exactly when no pair has the key, else the value of a pair with no later pair of that key |
| FetchImages.Get | fetch_images.mjs:65-67 | reading a key gives nothing exactly when the object lacks it, else a value stored under it |
| FetchImages.GetPut | fetch_images.mjs:65-67 | after setting `k` to `v`, key `k` reads `v` and every other key reads as before |
| FetchImages.FirstIndex | fetch_images.mjs:66 | the position of the first pair with the key |
| FetchImages.FromEntries | fetch_images.mjs:65-67 | the object has distinct keys, each taken from some pair |
| FetchImages.FromEntriesLaterWins | fetch_images.mjs:65-67 | each key reads the value of the last pair with that key, and the object has exactly the keys of the pairs |
| FetchImages.FromEntriesKeepsFirstOccurrenceOrder | fetch_images.mjs:65-67 | properties come in the order in which their keys first occur among the pairs |
| FetchImages.LastValueAt | fetch_images.mjs:65-67 | a pair that no later pair overrides gives the value |
| FetchImages.PairsKeys | fetch_images.mjs:66 | an id has a pair exactly when some merged artist has that id |
| FetchImages.ArtistImageWins | fetch_images.mjs:65-67 | an artist id maps to its first image's URL, or to `""` without images, the last artist with that id deciding |
| FetchImages.DecimalValueLowerBound | fetch_images.mjs:71 | a digit text without a leading zero is at least the power of ten below its length |
| FetchImages.LongKeyIsNotArrayIndex | fetch_images.mjs:71 | a key of eleven characters or more is never an array index |
| FetchImages.KeysWhere | fetch_images.mjs:71 | an entry is kept exactly when it is in the object and its key is of the requested kind |
| FetchImages.KeysWherePartitions | fetch_images.mjs:71 | the two kinds of keys together are all the entries |
| FetchImages.KeysWhereAppend | fetch_images.mjs:71 | keeping one kind distributes over concatenation, so the kept entries keep their order |
| FetchImages.KeysWhereAllNamed | fetch_images.mjs:71 | without array-index keys every entry is of the other kind, in creation order |
| FetchImages.Insert | fetch_images.mjs:71 | insertion adds the entry and nothing else |
| FetchImages.InsertKeepsAscending | fetch_images.mjs:71 | insertion into an ascending list keeps it ascending |
| FetchImages.SortByIndex | fetch_images.mjs:71 | the array-index entries are reordered, not changed, into ascending numeric order |
| FetchImages.Entries | fetch_images.mjs:71 | `Object.entries` lists every property exactly once, the array-index keys before all others and ascending by numeric value |
| FetchImages.IndexKeysFirst | fetch_images.mjs:71 | ascending array-index entries followed by other entries are in `Object.entries` order |
| FetchImages.EntriesOfNamedKeys | fetch_images.mjs:71 | without array-index keys, `Object.entries` is the creation order |
| FetchImages.Csv | fetch_images.mjs:70-73 | with no records the text is the header alone; with records and no newline inside ids and URLs, the lines of the text are the header and one `id,url` line per entry, with no trailing newline |
| FetchImages.HeaderThenLines | fetch_images.mjs:70-73 | the header followed by a join of newline-free lines splits back into the header and those lines |
| FetchImages.LinesHaveNoNewline | fetch_images.mjs:71-73 | there is a line per record and none holds a newline |
| FetchImages.SettleMerged | fetch_images.mjs:48-64 | an artist is merged exactly when the request of some batch returned it |
| FetchImages.ImagesCsv | fetch_images.mjs:46-73 | the text always starts with the header; with no nodes, or with every request rejected, it is the header alone |
| FetchImages.ImagesKeys | fetch_images.mjs:46-67 | the ids of the written object are exactly the ids of the artists some fulfilled request returned |
| Builtins.Join | spotify-preview-url-scraper/server.js:146 | `join` starts with the first element and is as long as the elements plus one separator fewer than there are elements; no elements give `""` |
| Builtins.Slice | fetch_images.mjs:50 | `slice` with its bounds clamped to the length |
| Builtins.Split | fetch_images.mjs:73 | splitting gives at least one piece, none containing the separator |
| Builtins.SplitJoin | fetch_images.mjs:73 | splitting a `join` on its one-character separator gives back the pieces |

## Left out

- The Express app, its routes and `res.send`: server plumbing.
- Reading and writing files, JSON parsing and the CSV libraries: these are I/O. Their inputs and outputs are plain sequences of records.
- The HTTP calls, the bearer token, URL encoding, `URLSearchParams`, the `limit=25` and `type=track` parameters, and the `ids.join(",")` request parameter. These are replaced by oracles: the search oracle receives the resolver-call number and the query text, and the artists oracle receives the batch number and the id list.
- The concurrency of `Promise.allSettled`. Only the settled outcomes are modelled, in request order.
- Console logging.
- `toUpperCase` outside ASCII. Normalization only ever upper-cases ASCII letters and digits.
- Dereferencing the `undefined` returned by the artists helper's `catch`: this untyped crash path is not intended behaviour. Also left out are a missing `artists` list and `null` artists.
- As the source is written, the `.catch` in `get` (`fetch_images.mjs:31-32`) turns every failed request into a fulfilled `undefined`, so no batch can ever be `rejected`. The model's `Rejected` stands for the intended `else` branch at `fetch_images.mjs:61-63`, not for a path the source can reach; the fulfilled `undefined` is the crash path above.
- Exceptions thrown after the search succeeds, for instance a result without `artists`, which the source would report as `request error`. Untyped result shapes are not modelled.
- Scrape.Lookup: cached rows are modelled as records of the same shape as fresh ones. The round trip through the CSV file, where every column becomes a string, is not modelled.
- Clean.Reindex: the objects of the rows are shared between `results` and `newArray` in the source. The model does not capture that aliasing. It re-indexes the survivor array only.
- Scrape.GetIDs: it returns the records and the total number of resolver calls. The number of calls spent on each edge is not returned; `Cost` and `CacheMissEscalates` state it.
