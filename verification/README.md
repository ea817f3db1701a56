# postgres_to_es synchronisation engine, in Dafny

This project models the engine that keeps an Elasticsearch `movies` index in
step with a PostgreSQL film catalogue. It also proves properties of that model.
The engine runs in cycles, one per minute. Each cycle:

1. reads the watermark `last_updated` from a state kept in Redis;
2. finds the `film_work`, `person` and `genre` rows modified after the
   watermark;
3. bulk-loads the changed persons and genres;
4. collects into the Redis set `movie_ids` the ids of every film touched by a
   change;
5. drains that set page by page with SSCAN, and for each page rebuilds the
   films' documents from a LEFT JOIN of films, persons and genres, then
   bulk-loads them;
6. moves the watermark on when there were updates, then sleeps.

Database calls are wrapped in a retry decorator with a doubling delay.

The modules follow the source files:

- `Values` holds the values shared by all modules: `Option`, the column
  values, duplicate-freedom, and flattening of pages.
- `RedisStore` is an in-memory stand-in for the Redis server. It holds string
  keys carrying the decoded state snapshot, and sets kept in insertion order.
  SSCAN is a positional cursor over that order.
- `StateStore` models `core/state.py`. `RedisStorage` reads the snapshot once
  and saves whole snapshots. `State` holds the dictionary, writes through to
  storage and reads with a default.
- `Decorators` models `core/decorators.py`. The `backoff` retry loop runs over
  a supplied sequence of outcomes of the wrapped call, with integer delays.
- `Extract` models `etl_components/extract.py`. The tables are row sequences.
  `select_table` is a filter and a stable sort. `get_updates` drains the three
  results in chunks. `get_film_work_ids` is the identity or a join through the
  link table. `get_movie_data` is the LEFT JOIN.
- `Transform` models `etl_components/transform.py`:
  - `collector` is an SADD;
  - `batcher` is a generator object (`PageGenerator`) that yields pages of
    fresh blank documents and deletes the set at the end;
  - `parser` folds a join row into a `MovieDoc` in place, through `add_person`
    and `add_genre`, and the function `Merge` specifies what it does.
- `Etl` models `main.py`. `etl_process` and one iteration of
  `load_from_postgres` are methods over the database value, the transformer,
  an Elasticsearch loader kept as the log of its bulk calls, and the state.

## Model

| member | source | states |
|---|---|---|
| RedisStore.AddMember | postgres_to_es/etl_components/transform.py:30 | SADD semantics: the result's members are the old ones plus the id. Re-adding a member changes nothing. The old members stay a prefix, and no repeat is ever introduced. |
| RedisStore.ScanPages | postgres_to_es/etl_components/transform.py:46-51 | The chunks a full scan from a position returns concatenate back to exactly the members from that position. There is always at least one chunk, even for an empty set. |
| RedisStore.ScanPagesSizes | postgres_to_es/etl_components/transform.py:48 | In the positional stand-in for SSCAN, every chunk holds at most `count` ids, and every chunk but the last exactly `count`. Real SSCAN treats COUNT as a hint only. |
| RedisStore.ScanPagesPartition | postgres_to_es/etl_components/transform.py:47-51 | For a duplicate-free set, an id is in some chunk exactly when it is a member, and it is never in two chunks. |
| RedisStore.ScanPagesNonEmpty | postgres_to_es/etl_components/transform.py:46-51 | A scan from a position inside the set never returns an empty chunk. |
| RedisStore.Redis.Members | postgres_to_es/etl_components/transform.py:48 | A missing key reads as the empty set. |
| RedisStore.Redis.Get | postgres_to_es/core/state.py:32 | GET returns the stored snapshot, or None when the key is absent. |
| RedisStore.Redis.Set | postgres_to_es/core/state.py:44 | SET replaces one string key and leaves every set alone. |
| RedisStore.Redis.SAdd | postgres_to_es/etl_components/transform.py:30 | The set under the key becomes `AddMember` of its old members. Other keys are unchanged and the sets stay duplicate-free. |
| RedisStore.Redis.SScan | postgres_to_es/etl_components/transform.py:48 | One scan step returns the first pending chunk. The next cursor is 0 once the members are exhausted, and otherwise the position after the chunk. |
| RedisStore.Redis.Delete | postgres_to_es/etl_components/transform.py:52 | DEL removes exactly that key. |
| StateStore.Lookup | postgres_to_es/core/state.py:88 | `dict.get(key, default)`: the stored value when the key is present, the default otherwise. |
| StateStore.ReadYourWrite | postgres_to_es/core/state.py:68-88 | After writing `v` under `k`, reading `k` gives `v` whatever the default. |
| StateStore.WriteIsolated | postgres_to_es/core/state.py:75 | Writing one key leaves the reading of every other key unchanged. |
| StateStore.RedisStorage.constructor | postgres_to_es/core/state.py:31-32 | The storage reads the value under "data" once, when it is built, and holds None when nothing is stored. |
| StateStore.RedisStorage.SaveState | postgres_to_es/core/state.py:34-44 | The whole snapshot replaces the value under "data". The snapshot read at construction does not change. |
| StateStore.RedisStorage.RetrieveState | postgres_to_es/core/state.py:46-56 | The snapshot read at construction, or the empty dictionary when nothing was stored. |
| StateStore.State.constructor | postgres_to_es/core/state.py:65-66 | The state's data is what its storage retrieves, loaded once. |
| StateStore.State.WriteState | postgres_to_es/core/state.py:68-76 | Exactly one key changes, and the entire resulting dictionary, not just that key, is saved under "data". |
| StateStore.State.ReadState | postgres_to_es/core/state.py:78-88 | The value stored under the key when it is present, and the default when it is absent. |
| StateStore.ReadAfterRestart | postgres_to_es/core/state.py:59-88 | After a write, a new State over a new RedisStorage on the same server reads the written value back. |
| Decorators.NextDelay | postgres_to_es/core/decorators.py:30-31 | The delay doubles (the literal 2) while below the border and is otherwise kept. It never decreases. |
| Decorators.FirstUncaught | postgres_to_es/core/decorators.py:25-35 | The index of the first outcome the wrapper does not retry: every earlier one is a caught exception, and this one is not. |
| Decorators.Backoff | postgres_to_es/core/decorators.py:21-35 | The wrapper sleeps once per caught failure before the first uncaught outcome, with the delays of `Sleeps`. A returned value comes back unchanged, and an exception outside `errors` escapes. |
| Decorators.ImmediateSuccess | postgres_to_es/core/decorators.py:27-35 | A call that succeeds at once returns with no sleep. |
| Decorators.UncaughtEscapes | postgres_to_es/core/decorators.py:26-28 | An exception not listed in `errors` escapes on its first occurrence, with no sleep. |
| Decorators.DelayMonotone | postgres_to_es/core/decorators.py:24-31 | Starting from `start_sleep_time` on every call, the delay never falls below the start and never decreases. |
| Decorators.SleepsNonDecreasing | postgres_to_es/core/decorators.py:30-33 | The successive sleeps of one call are non-decreasing and at least the start delay. |
| Decorators.DelayBounds | postgres_to_es/core/decorators.py:30-31 | When the start is below the border, the delay stays below twice the border. When it is not, the delay never changes. |
| Decorators.FirstSleepDoubled | postgres_to_es/core/decorators.py:30-33 | The sleep follows the doubling: the first sleep lasts twice the start delay when the start is below the border. |
| Decorators.DefaultSchedule | postgres_to_es/core/decorators.py:8 | With the defaults (0.1 s and 10 s), the delay reaches 12.8 s after seven failures and stays there. |
| Extract.SortBy | postgres_to_es/etl_components/extract.py:42 | `ORDER BY modified`: the result is sorted by the key and is a permutation of the input. |
| Extract.ModifiedAfter | postgres_to_es/etl_components/extract.py:41 | `WHERE modified > t` keeps exactly the later rows, each as often as it occurs. |
| Extract.SelectTableExact | postgres_to_es/etl_components/extract.py:26-45 | `select_table` returns exactly the table's rows modified after the timestamp, with their multiplicities, in ascending `modified` order. |
| Extract.Chunks | postgres_to_es/etl_components/extract.py:64-65 | Repeated `fetchmany` yields chunks that concatenate back to the result, and yields none exactly when the result is empty. |
| Extract.ChunksSizes | postgres_to_es/etl_components/extract.py:64 | Every chunk holds between 1 and `size` rows. |
| Extract.Queries | postgres_to_es/etl_components/extract.py:60 | One query per table of `TABLES`, in that order. |
| Extract.DrainCursor | postgres_to_es/etl_components/extract.py:64-65 | The `fetchmany` loop yields the chunks of the cursor's result, each tagged with its table. |
| Extract.DrainAll | postgres_to_es/etl_components/extract.py:63-66 | The loop over the query results yields their chunks table after table. |
| Extract.GetUpdates | postgres_to_es/etl_components/extract.py:47-66 | It raises `UpdatesNotFoundError` exactly when no query returned a row, before yielding anything. Otherwise it yields the drained batches. |
| Extract.BatchesByTable | postgres_to_es/etl_components/extract.py:63-65 | The batches are those of film_work, then person, then genre. |
| Extract.BatchesPerTable | postgres_to_es/etl_components/extract.py:60-65 | For each table, its batches concatenated in order are exactly its query result. |
| Extract.BatchShape | postgres_to_es/etl_components/extract.py:24 | Every batch holds between 1 and `BATCH_SIZE` rows, and batches come table by table in the order of `TABLES`. |
| Extract.LinkCount | postgres_to_es/etl_components/extract.py:85-86 | The number of link rows tying a film to the batch is positive exactly when such a link exists. |
| Extract.JoinFilms | postgres_to_es/etl_components/extract.py:83-87 | A film is joined exactly when it has a link row to an entity of the batch. |
| Extract.JoinFilmsCount | postgres_to_es/etl_components/extract.py:83-86 | There is no deduplication: each film occurs once per link row tying it to the batch. |
| Extract.JoinFilmsSorted | postgres_to_es/etl_components/extract.py:87 | The join keeps the films' `modified` order. |
| Extract.GetFilmWorkIds | postgres_to_es/etl_components/extract.py:91-92 | For film_work, the batch's own ids are yielded unchanged, in order. |
| Extract.FilmWorkIdsLinked | postgres_to_es/etl_components/extract.py:79-90 | For person and genre, an id is yielded exactly when a film with that id is linked to a row of the batch. |
| Extract.FilmWorkIdsOrdered | postgres_to_es/etl_components/extract.py:82-90 | For person and genre, the ids are those of the joined films in ascending `modified` order, each as often as the film has links to the batch. |
| Extract.LinksOf | postgres_to_es/etl_components/extract.py:117-119 | The rows of a person_film_work or genre_film_work table that point to a film are exactly those whose film id matches. |
| Extract.LinkPersonParts | postgres_to_es/etl_components/extract.py:118 | LEFT JOIN person: every matching person appears with the link's role, and there is at least one part (NULLs when none match). `LinkPersonPartsOrigin` states the converse. |
| Extract.LinkGenreNames | postgres_to_es/etl_components/extract.py:120 | LEFT JOIN genre: every matching genre's name appears, and there is at least one name (NULL when none match). `LinkGenreNamesOrigin` states the converse. |
| Extract.Cross | postgres_to_es/etl_components/extract.py:117-120 | Two independent LEFT JOINs multiply: one row per (person part, genre name) pair, all carrying the film's id. |
| Extract.CrossHas | postgres_to_es/etl_components/extract.py:117-120 | Every pair of a person part and a genre name is a row of the product. |
| Extract.CrossOnly | postgres_to_es/etl_components/extract.py:117-120 | Every row of the product is such a pair. |
| Extract.LinkPersonPartsOrigin | postgres_to_es/etl_components/extract.py:118 | Each person part of one link is the NULL part, when no person row has the link's person id, or the id and full name of a person row that has it, with the link's role. |
| Extract.LinksPersonPartsOrigin | postgres_to_es/etl_components/extract.py:117-118 | Each person part of several links comes from one of those links. |
| Extract.PersonPartsOrigin | postgres_to_es/etl_components/extract.py:117-118 | Each person part of a film is NULL (no link at all, or a link whose person row is missing), or the columns of a person row that a link of this film points to, with that link's role. |
| Extract.LinkGenreNamesOrigin | postgres_to_es/etl_components/extract.py:120 | Each genre name of one link is the name of a genre row with the link's genre id, or NULL when there is none. |
| Extract.LinksGenreNamesOrigin | postgres_to_es/etl_components/extract.py:119-120 | Each genre name of several links comes from one of those links. |
| Extract.GenreNamesOrigin | postgres_to_es/etl_components/extract.py:119-120 | Each genre name of a film is the name of a genre row that a link of this film points to, or NULL (no genre link, or a link whose genre row is missing). |
| Extract.MovieDataOrigin | postgres_to_es/etl_components/extract.py:116-121 | Each row of the join comes from a requested film of the table and is one of that film's joined rows. |
| Extract.MovieRowOrigin | postgres_to_es/etl_components/extract.py:106-124 | Each row `get_movie_data` returns is a requested film_work row joined with one of its person parts and one of its genre names. The join invents no film, person or genre. |
| Extract.FilmRows | postgres_to_es/etl_components/extract.py:116-120 | A film yields at least one joined row, and all of them carry its id. |
| Extract.MovieData | postgres_to_es/etl_components/extract.py:121 | Only rows of the requested films are returned. |
| Extract.GetMovieData | postgres_to_es/etl_components/extract.py:94-124 | The query is rejected (`IN ()`) exactly when no id is requested. Otherwise it returns rows of the requested films only. |
| Extract.EveryFilmHasRows | postgres_to_es/etl_components/extract.py:116-121 | LEFT JOIN: every requested film of the table yields at least one row. |
| Extract.LinkedPersonAppears | postgres_to_es/etl_components/extract.py:112-118 | A person linked to a requested film appears in a row of that film, with the link's role, id and full name. |
| Extract.LinkedGenreAppears | postgres_to_es/etl_components/extract.py:115-120 | A genre linked to a requested film appears as `genre_name` in a row of that film. |
| Extract.UnlinkedFilmNulls | postgres_to_es/etl_components/extract.py:117-120 | A film without person links has NULL role, person id and name in every row. A film without genre links has a NULL genre name. |
| Extract.RowsForMembers | postgres_to_es/main.py:39-40 | The rows routed to a film's document are exactly the fetched rows carrying its id. |
| Extract.MovieDataFor | postgres_to_es/main.py:39-40 | The rows a film receives from a page's query are the rows of the query for that film alone. Other films of the page do not matter. |
| Transform.PersonsKey | postgres_to_es/etl_components/transform.py:79 | The participants field `'{role}s'` ends in "s", so it is a list field. |
| Transform.NamesKey | postgres_to_es/etl_components/transform.py:80 | The names field `'{role}s_names'` ends in "s", so it is a list field. |
| Transform.GetList | postgres_to_es/etl_components/transform.py:81-82 | `movie.get(key, [])`: an absent field reads as the empty list. |
| Transform.AppendAbsent | postgres_to_es/etl_components/transform.py:84-85 | Append-if-absent: the item is present afterwards, the old list is a prefix, and no duplicate is introduced. |
| Transform.AddPerson | postgres_to_es/etl_components/transform.py:69-87 | `add_person` returns an update of exactly the role's two list fields. |
| Transform.AddGenre | postgres_to_es/etl_components/transform.py:89-102 | `add_genre` returns an update of exactly the "genre" field. |
| Transform.Merge | postgres_to_es/etl_components/transform.py:54-67 | `parser` keeps the id field, every existing field, and list fields as lists. |
| Transform.MergeScalarFields | postgres_to_es/etl_components/transform.py:61-65 | First row wins: once the id is truthy the scalar fields never change. While it is falsy, id, title, description and `imdb_rating` are taken from the row. |
| Transform.ScalarsFromFirstRow | postgres_to_es/etl_components/transform.py:61-65 | After a film's rows are merged into a blank document, its id, title, description and rating are those of the first row. |
| Transform.MergeSkips | postgres_to_es/etl_components/transform.py:66-67 | With a falsy person id the participant lists are untouched, and with a falsy genre name the genre list is untouched. With both falsy on a filled document, nothing changes. |
| Transform.KnownRolesNoClash | postgres_to_es/etl_components/transform.py:79-80 | For the roles actor, director and writer, no participants field of one role is the names field of another. |
| Transform.SameRoleKeys | postgres_to_es/etl_components/transform.py:79-80 | Two roles share a participants field exactly when they share a names field. |
| Transform.RowKeysDistinct | postgres_to_es/etl_components/transform.py:79-80 | One row's participants, names and genre fields are three different fields. |
| Transform.AddPersonLists | postgres_to_es/etl_components/transform.py:81-87 | On the role's fields, the participant and the name are appended together, and only when an equal participant is not yet listed. Every other list field is kept. |
| Transform.AddGenreLists | postgres_to_es/etl_components/transform.py:99-102 | The genre name is appended to "genre" only when absent. Every other list field is kept. |
| Transform.MergeLists | postgres_to_es/etl_components/transform.py:66-67 | What one `parser` call does to each list field: the person and genre appends, each guarded by the truthiness of its column. |
| Transform.MergeAllInvariants | postgres_to_es/etl_components/transform.py:79-102 | From a blank document, for any rows, each role's participants stay duplicate-free and parallel to their names (same length, i-th name of i-th participant). The genres stay duplicate-free. This needs only that no row's role clashes with the one considered. |
| Transform.KnownRolesInvariants | postgres_to_es/etl_components/transform.py:79-102 | With the actor, director and writer roles, those list invariants hold for each role. |
| Transform.MergeIdempotent | postgres_to_es/etl_components/transform.py:54-102 | Parsing the same row twice gives the same document as parsing it once. |
| Transform.MergeAllExtends | postgres_to_es/etl_components/transform.py:84-86 | `parser` only appends: a list field after fewer rows is a prefix of the same field after more. |
| Transform.MergeAllCollects | postgres_to_es/etl_components/transform.py:66-67 | Every participant with a truthy id is in its role's list, and every truthy genre name is in "genre". |
| Transform.MergeOrigin | postgres_to_es/etl_components/transform.py:66-67 | A value that one `parser` call adds to a list field is one the row writes there: its participant, its participant's name, or its genre name. |
| Transform.MergeAllOrigin | postgres_to_es/etl_components/transform.py:66-67 | Each value that a run of `parser` calls adds to a list field was written there by one of the rows. The document lists nothing that no row carries. |
| Transform.BlankPage | postgres_to_es/etl_components/transform.py:49-51 | A page maps each scanned id, and nothing else, to a fresh blank document of its own. |
| Transform.PageGenerator.constructor | postgres_to_es/etl_components/transform.py:33-46 | Creating the generator scans nothing. The cursor is the string '0', and all pages are pending. |
| Transform.PageGenerator.Next | postgres_to_es/etl_components/transform.py:46-52 | While pages are pending, the next chunk's page is yielded and the set is untouched. Once none are pending, the set is deleted and iteration ends (repeatably). Progress strictly decreases. |
| Transform.PageGenerator.Finish | postgres_to_es/etl_components/transform.py:52 | DEL of the set happens once, after the final page. |
| Transform.PageGenerator.Scan | postgres_to_es/etl_components/transform.py:47-51 | One iteration yields the first pending chunk as a page of fresh blank documents, and the rest stays pending. |
| Transform.PageGenerator.Advance | postgres_to_es/etl_components/transform.py:48 | One SSCAN moves the first pending chunk to the yielded ones. |
| Transform.DataTransform.Collector | postgres_to_es/etl_components/transform.py:20-30 | SADD of the id to the set under the key. Other keys and the strings are unchanged. |
| Transform.DataTransform.Batcher | postgres_to_es/etl_components/transform.py:33-52 | Returns a fresh generator over the set's current members, with nothing yielded yet. |
| Transform.DataTransform.Parser | postgres_to_es/etl_components/transform.py:54-67 | The document's new fields are `Merge` of its old fields with the row. |
| Transform.PagesCoverSet | postgres_to_es/etl_components/transform.py:46-51 | With the positional scan, the generator always scans at least once. It yields one empty page for an empty set and no empty page for a non-empty one. A duplicate-free set's ids each land in exactly one page. |
| Transform.EmptyPageOnlyWhenEmpty | postgres_to_es/etl_components/transform.py:46-51 | A yielded page is empty only when the set was empty. Then it is the first and only page. |
| Etl.AddAll | postgres_to_es/main.py:36-37 | After SADD of each id in turn, the set holds the old members and the ids, grows only, and stays duplicate-free. |
| Etl.FetchPage | postgres_to_es/main.py:39 | The corrected fetch for a page, which skips the query of an empty page: the rows fetched belong to films of that page. |
| Etl.PageDocs | postgres_to_es/main.py:38-41 | A page's loaded documents are keyed by exactly the page's ids. |
| Etl.CollectAll | postgres_to_es/main.py:36-37 | The collector loop adds every id yielded for a batch to "movie_ids" and changes no other key. |
| Etl.ParseRows | postgres_to_es/main.py:39-40 | After the loop, each film's document is its blank document merged with exactly that film's rows, in fetch order. |
| Etl.LoadPage | postgres_to_es/main.py:39-41 | The query is rejected exactly when the page is empty, and then nothing is loaded. Otherwise there is one bulk call carrying each film's document built from the page's rows. |
| Etl.LoadYielded | postgres_to_es/main.py:39-41 | Loading a yielded page appends its load to those of the earlier pages, unless the page is empty and its query is rejected. |
| Etl.LoadBatch | postgres_to_es/main.py:32-37 | Person and genre batches are bulk-loaded as such, film_work batches are not. Then the batch's film ids are collected. |
| Etl.LoadBatches | postgres_to_es/main.py:31-37 | The batch loop makes the entity bulk calls of all batches and leaves "movie_ids" as `CollectIds` of what it held. |
| Etl.NextPage | postgres_to_es/main.py:38-41 | One resumption of the batcher does one of three things. It loads the yielded page. Or it ends the iteration and deletes the set. Or the page's query is rejected, which happens only on the first page of an empty set; the loop then stops without deleting the set. |
| Etl.LoadPages | postgres_to_es/main.py:38-41 | The page loop ends with a rejected query exactly when "movie_ids" is empty. Then nothing is loaded and nothing deleted. Otherwise it makes one bulk call per scanned page of the collected set, in scan order, then deletes "movie_ids". |
| Etl.EtlProcess | postgres_to_es/main.py:16-41 | The watermark is read under 'last_updated' (default datetime.min). The cycle ends with `UpdatesNotFoundError` exactly when nothing changed, having done nothing. It ends with the rejected `IN ()` query exactly when there were updates but no film was collected; then only the entity loads were made. Otherwise all entity loads come before all page loads of the collected set, and "movie_ids" is deleted. |
| Etl.SyncOnce | postgres_to_es/main.py:52-68 | The watermark is written (to the state and to Redis under "data") only when the cycle loaded. It is not written after `UpdatesNotFoundError` or after a rejected query. The 60-second sleep follows every cycle. A rejected query ends the loop. |
| Etl.NoneSelected | postgres_to_es/etl_components/extract.py:38-44 | A table's query returns nothing exactly when no row of that table is newer than the watermark. |
| Etl.NoChangesExactly | postgres_to_es/etl_components/extract.py:60-62 | `get_updates` raises exactly when no row of any monitored table is newer than the watermark. |
| Etl.EntitiesLoaded | postgres_to_es/main.py:31-35 | The person bulk calls carry, in order, exactly the person rows changed since the watermark, and likewise for genres. No film_work rows are bulk-loaded as entities. |
| Etl.CollectIdsMembers | postgres_to_es/main.py:31-37 | After the batch loop the set holds what it held before plus every id yielded for any batch, and stays duplicate-free. |
| Etl.ChangedCollected | postgres_to_es/main.py:36-37 | A film changed since the watermark is queued for re-indexing. |
| Etl.LinkedCollected | postgres_to_es/main.py:36-37 | A film linked to a person or genre changed since the watermark is queued for re-indexing. |
| Etl.CollectedAffected | postgres_to_es/main.py:36-37 | Every newly queued film was changed itself or is linked to a changed person or genre. |
| Etl.CollectedExactly | postgres_to_es/main.py:31-37 | The films queued by a cycle are exactly those left from before and those affected by a change since the watermark. |
| Etl.PageDocsFor | postgres_to_es/main.py:38-41 | The document loaded for a film depends on that film's join rows alone. |
| Etl.CycleDocuments | postgres_to_es/main.py:38-41 | Over any pages that together hold exactly the queued films, as SSCAN promises, a film's document is loaded exactly when the film is queued, and each load is that film's own document. |
| Etl.CycleDocumentsOnce | postgres_to_es/main.py:38-41 | When the pages cut a duplicate-free set without repeats, no film's document is loaded twice. |
| Etl.ScanCoversCollected | postgres_to_es/etl_components/transform.py:46-51 | The positional scan of a duplicate-free set meets both hypotheses: its pages concatenate to the set, and an id is in some page exactly when it is a member. |
| Etl.DocumentScalars | postgres_to_es/etl_components/transform.py:61-65 | A film's document built from a blank one carries the film's id, title, description and rating. |
| Etl.DocumentListsPerson | postgres_to_es/etl_components/transform.py:79-86 | Every person linked to a film is listed, under the link's role, in the film's document. |
| Etl.DocumentListsGenre | postgres_to_es/etl_components/transform.py:99-101 | Every genre with a non-empty name linked to a film is listed in the film's document. |
| Etl.BlankListEmpty | postgres_to_es/etl_components/transform.py:81-82 | A list field of a blank document reads as the empty list. |
| Etl.DocumentPersonLinked | postgres_to_es/etl_components/transform.py:79-86 | Converse of `DocumentListsPerson`: every participant listed under a role in a film's document is a person row linked to the film with that role. This needs that no link's role makes a names field collide with that participants field. |
| Etl.DocumentNameLinked | postgres_to_es/etl_components/transform.py:79-86 | Every name listed under a role is the full name of a person row linked to the film with that role, under the same no-collision condition. |
| Etl.DocumentGenreLinked | postgres_to_es/etl_components/transform.py:89-101 | Converse of `DocumentListsGenre`: every genre listed in a film's document is the name of a genre row linked to the film. |
| Etl.LonePersonIsUpdate | postgres_to_es/etl_components/extract.py:60-62 | A person row newer than the watermark counts as an update even when it is linked to nothing. |
| Etl.NoFilmsNothingCollected | postgres_to_es/main.py:36-37 | Without films, a cycle starting from an empty set collects nothing. |
| Etl.EmptyPageQueryRejected | postgres_to_es/etl_components/transform.py:46-51 | As written, a changed person linked to no film leads the batcher to yield an empty page, whose `get_movie_data` query is `IN ()`. By `Etl.EtlProcess`, that cycle ends with `QueryRejected`. |
| Etl.EmptyPageGuarded | postgres_to_es/main.py:38-41 | With the guard, an empty page is not queried and loads an empty batch of documents. |

## Left out

- SQL text, string formatting of queries, quoting, and psycopg2 cursors are not modelled. Tables are in-memory row sequences, and `fetchmany` is a chunking of the query result. Timestamps are natural numbers counted from `datetime.min` (0), so no row is modified before the initial watermark.
- Row order for equal `modified` values (`ORDER BY` ties) is not modelled. `select_table` and `get_film_work_ids` use one admissible order, a stable insertion sort. The row order of the LEFT JOIN without `ORDER BY` is fixed to film, then person link, then genre link.
- `rowcount` is taken as the number of rows the query returns.
- The Redis client and JSON are not modelled. The snapshot under "data" is kept decoded, so the datetime that `json.dumps(default=str)` turns into a string after a restart is not modelled.
- SSCAN returns a set's members in insertion order through a positional cursor, in chunks of exactly COUNT ids. Real Redis treats COUNT as a hint: a reply may hold more ids, or none before the cursor returns to 0, and members may come back more than once. An empty reply for a non-empty set would also reach `IN ()`; the model does not capture that case. `RedisStore.ScanPagesSizes`, `RedisStore.ScanPagesNonEmpty`, `Transform.PagesCoverSet` and `Etl.CycleDocumentsOnce` hold for the stand-in only. `Etl.CycleDocuments` assumes only that every member is returned.
- Redis strings are ids, and byte decoding (`movie_id.decode()`) is not modelled.
- The Elasticsearch loader (`load.ElasticsearchLoader`) is not part of this model. It is a log of bulk calls: an entity batch tagged with its table, or a page of documents by film id. Document order within a page is not kept.
- Pydantic models and `Movie.properties()` (core/validations.py) are not part of this model. The blank skeleton is an input satisfying `Blank`, and `Person(...)` is the record of its id and full name.
- `BaseStorage` is not modelled as a type, because the model has no abstract base class. `RedisStorage` is the only storage.
- Decorators.Backoff: the infinite retry is modelled over a finite, supplied sequence of outcomes (`StillRetrying` when they run out). Logging and the actual sleeping are not modelled. The `factor` parameter is accepted and unused, as in the source. Delays are integer tenths of a second, not floats.
- `backoff` on the generator methods of the extractor wraps only the creation of the generator, so no retry is modelled around querying. The `backoff` on `collector` and `batcher` is commented out in the source.
- `load_from_postgres` loops forever. One iteration is modelled (`Etl.SyncOnce`). The clock reading that becomes the new watermark is a parameter, and the sleep is returned as its length. Connection setup and settings are not modelled.
- Database and network errors during a cycle are not modelled. The one error modelled besides `UpdatesNotFoundError` is the rejected `IN ()` query (`Etl.CycleResult.QueryRejected`, see Findings). The generator is then left suspended and never deletes the set.
- The database does not change during a cycle. Concurrent writers are not modelled, and neither are rows committed between the three queries.
- Transform.AddPerson: the lists `add_person` and `add_genre` obtain from the movie are appended to in place, which aliases them with the movie's fields. The model builds new lists and writes them back with the update. This gives the same resulting document, but the aliasing itself is not modelled.
- Transform.MergeAllInvariants: the parallel-lists invariant needs that no row's role clashes with the role considered, for example a role text ending so that `'{a}s'` equals `'{b}s_names'`. `Transform.KnownRolesInvariants` discharges this for the actor, director and writer roles. Other role texts are not covered.

## Findings

| source | as written | input that shows it | evidently intended | confidence | as-written member | corrected member |
|---|---|---|---|---|---|---|
| postgres_to_es/etl_components/transform.py:46-51 | `batcher` always scans at least once and yields a page even when "movie_ids" is empty. `etl_process` (main.py:39) then calls `get_movie_data` with no ids, which renders `WHERE fw.id IN ()` (extract.py:121). PostgreSQL rejects that, and the error is neither retried nor caught. `load_from_postgres` sleeps (its `finally`) and then ends with the error, without writing the watermark. On every restart the same updates are found again. This repeats until a later change queues a film, so "movie_ids" is not empty. | A person row modified after the watermark, linked to no film, with an empty "movie_ids" set: there are updates, nothing is collected, and the single empty page is queried. | An empty page is skipped: no query is made, and an empty batch of documents is loaded. | not executed | Etl.EmptyPageQueryRejected | Etl.EmptyPageGuarded |
