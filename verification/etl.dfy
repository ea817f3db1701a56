/**
 * One synchronisation cycle (main.py): `etl_process` reads the watermark,
 * bulk-loads the changed persons and genres, collects the ids of the films
 * to re-index in the Redis set "movie_ids", then re-builds and bulk-loads the
 * documents of those films page by page; `load_from_postgres` runs it, moves
 * the watermark on when updates were found, and sleeps for a minute.
 *
 * The database is a value that does not change during a cycle, the
 * Elasticsearch loader is a log of bulk calls, and the clock reading that
 * becomes the new watermark is a parameter.
 */
module Etl {
  import opened Values
  import opened RedisStore
  import opened StateStore
  import opened Extract
  import opened Transform

  /** The Redis set of the films to re-index. */
  const MovieIdsKey: string := "movie_ids"
  /** The watermark's key in the state. */
  const LastUpdatedKey: string := "last_updated"
  /** `datetime.min`, the watermark before the first successful cycle. */
  const DatetimeMin: int := 0
  /** The pause between two cycles, in seconds. */
  const SleepSeconds: int := 60

  // ---------------------------------------------------------------------------
  // The Elasticsearch side

  /** One `bulk_insert` call: a person or genre batch, or a page of movie documents by film id. */
  datatype LoadCall = EntityLoad(batch: Batch) | MoviesLoad(docs: map<FilmId, Fields>)

  /** The loader, seen through the bulk calls it has received. */
  class ElasticLoader {
    var calls: seq<LoadCall>

    constructor ()
      ensures calls == []
    {
      calls := [];
    }

    method BulkInsert(call: LoadCall)
      modifies this
      ensures calls == old(calls) + [call]
    {
      calls := calls + [call];
    }
  }

  /**
   * The outcome of `etl_process`: `UpdatesNotFoundError`, a completed load,
   * or the error PostgreSQL raises for a page queried with `IN ()`.
   */
  datatype CycleResult = NoUpdates | Loaded | QueryRejected

  // ---------------------------------------------------------------------------
  // What a cycle does, as functions of the database and the stores

  /** The bulk calls of the batch loop: person and genre batches are loaded, film_work batches are not. */
  function EntityLoads(bs: seq<Batch>): seq<LoadCall>
  {
    if bs == [] then []
    else
      var last := bs[|bs| - 1];
      EntityLoads(bs[..|bs| - 1]) + if last.table != FilmWorkTable then [EntityLoad(last)] else []
  }

  /** The members of the set after SADD of each of `ids` in turn. */
  function AddAll(members: seq<FilmId>, ids: seq<FilmId>): (r: seq<FilmId>)
    ensures members <= r
    ensures forall x :: x in r <==> x in members || x in ids
    ensures NoDup(members) ==> NoDup(r)
  {
    if ids == [] then members else AddMember(AddAll(members, ids[..|ids| - 1]), ids[|ids| - 1])
  }

  /** The "movie_ids" set after the batch loop, from the members it held before. */
  function CollectIds(db: Database, members: seq<FilmId>, bs: seq<Batch>): seq<FilmId>
  {
    if bs == [] then members
    else
      var last := bs[|bs| - 1];
      AddAll(CollectIds(db, members, bs[..|bs| - 1]), GetFilmWorkIds(db, last.table, last.rows))
  }

  /**
   * The join rows for one page.  An empty page is not queried: `IN ()` is
   * not valid SQL (see `EmptyPageQueryRejected`).
   */
  function FetchPage(db: Database, ids: set<FilmId>): (rows: seq<MovieRow>)
    ensures forall m :: m in rows ==> m.id in ids
  {
    if ids == {} then [] else MovieData(db, db.filmWork, ids)
  }

  /** The documents of one page after every join row has been parsed into its film's document. */
  function PageDocs(db: Database, skeleton: Fields, chunk: seq<FilmId>): (docs: map<FilmId, Fields>)
    requires IdKey in skeleton && Shaped(skeleton)
    ensures docs.Keys == set x | x in chunk
  {
    var rows := FetchPage(db, set x | x in chunk);
    map x | x in chunk :: MergeAll(skeleton, RowsFor(rows, x))
  }

  /** The bulk calls of the page loop, one per page. */
  function MovieLoads(db: Database, skeleton: Fields, pages: seq<seq<FilmId>>): (r: seq<LoadCall>)
    requires IdKey in skeleton && Shaped(skeleton)
  {
    seq(|pages|, i requires 0 <= i < |pages| => MoviesLoad(PageDocs(db, skeleton, pages[i])))
  }

  /** A film touched since `t`: changed itself, or linked to a changed person or genre. */
  predicate Affected(db: Database, t: int, x: FilmId)
  {
    || (exists r :: r in SelectTable(db, FilmWorkTable, t) && r.Id() == x)
    || LinkedToChange(db, t, PersonTable, x)
    || LinkedToChange(db, t, GenreTable, x)
  }

  /** A film of film_work with a `{table}_film_work` row to a row of `table` changed since `t`. */
  predicate LinkedToChange(db: Database, t: int, table: Table, x: FilmId)
  {
    && (exists f :: f in db.filmWork && f.id == x)
    && exists r, k :: r in SelectTable(db, table, t) && 0 <= k < |Links(db, table)| && Links(db, table)[k] == (x, r.Id())
  }

  // ---------------------------------------------------------------------------
  // etl_process

  /** `for row in get_film_work_ids(...): data.collector('movie_ids', row['id'])`. */
  method CollectAll(data: DataTransform, ids: seq<FilmId>)
    requires data.redis.Valid()
    modifies data.redis
    ensures data.redis.Valid()
    ensures data.redis.Members(MovieIdsKey) == AddAll(old(data.redis.Members(MovieIdsKey)), ids)
    ensures data.redis.sets - {MovieIdsKey} == old(data.redis.sets) - {MovieIdsKey}
    ensures data.redis.strings == old(data.redis.strings)
  {
    for j := 0 to |ids|
      invariant data.redis.Valid()
      invariant data.redis.Members(MovieIdsKey) == AddAll(old(data.redis.Members(MovieIdsKey)), ids[..j])
      invariant data.redis.sets - {MovieIdsKey} == old(data.redis.sets) - {MovieIdsKey}
      invariant data.redis.strings == old(data.redis.strings)
    {
      data.Collector(MovieIdsKey, ids[j]);
      assert ids[..j + 1][..j] == ids[..j];
    }
    assert ids[..|ids|] == ids;
  }

  /** `for row in rows: data.parser(row, movies.get(row['id']))`. */
  method ParseRows(data: DataTransform, skeleton: Fields, movies: Page, rows: seq<MovieRow>)
    requires IdKey in skeleton && Shaped(skeleton)
    requires forall x, y :: x in movies && y in movies && x != y ==> movies[x] != movies[y]
    requires forall x :: x in movies ==> movies[x].fields == skeleton
    requires forall m :: m in rows ==> m.id in movies
    modifies movies.Values
    ensures forall x :: x in movies ==> movies[x].fields == MergeAll(skeleton, RowsFor(rows, x))
  {
    for i := 0 to |rows|
      invariant forall x :: x in movies ==> movies[x].fields == MergeAll(skeleton, RowsFor(rows[..i], x))
    {
      var row := rows[i];
      assert row in rows;
      ParseStep(skeleton, rows, i);
      data.Parser(row, movies[row.id]);
    }
    assert rows[..|rows|] == rows;
  }

  /** Parsing one more row changes its own film's document only, by one `Merge`. */
  lemma ParseStep(skeleton: Fields, rows: seq<MovieRow>, i: nat)
    requires IdKey in skeleton && Shaped(skeleton) && i < |rows|
    ensures forall x :: x != rows[i].id ==> RowsFor(rows[..i + 1], x) == RowsFor(rows[..i], x)
    ensures MergeAll(skeleton, RowsFor(rows[..i + 1], rows[i].id)) ==
      Merge(MergeAll(skeleton, RowsFor(rows[..i], rows[i].id)), rows[i])
  {
    assert rows[..i + 1][..i] == rows[..i];
    var seen := RowsFor(rows[..i], rows[i].id);
    assert RowsFor(rows[..i + 1], rows[i].id) == seen + [rows[i]];
    assert (seen + [rows[i]])[..|seen|] == seen;
  }

  /**
   * One page of the page loop: query the page's films, parse each join row
   * into its film's document, then bulk-load the page's documents.  The query
   * of an empty page is `IN ()`, which fails: nothing is parsed or loaded.
   */
  method LoadPage(db: Database, data: DataTransform, elastic: ElasticLoader, skeleton: Fields,
                  movies: Page, ghost chunk: seq<FilmId>)
    returns (rejected: bool)
    requires IdKey in skeleton && Shaped(skeleton)
    requires PageOf(movies, chunk)
    requires forall x :: x in movies ==> movies[x].fields == skeleton
    modifies elastic, movies.Values
    ensures rejected <==> chunk == []
    ensures rejected ==> elastic.calls == old(elastic.calls)
    ensures !rejected ==> elastic.calls == old(elastic.calls) + [MoviesLoad(PageDocs(db, skeleton, chunk))]
  {
    ghost var ids := set x | x in chunk;
    assert movies.Keys == ids;
    assert chunk != [] ==> chunk[0] in ids;
    var q := GetMovieData(db, movies.Keys);
    if q == EmptyInList {
      return true;
    }
    rejected := false;
    var rows := q.rows;
    assert rows == FetchPage(db, ids);
    ParseRows(data, skeleton, movies, rows);
    var docs := map x | x in movies :: movies[x].fields;
    assert docs == PageDocs(db, skeleton, chunk);
    elastic.BulkInsert(MoviesLoad(docs));
  }

  /** Appending a page appends its load. */
  lemma MovieLoadsSnoc(db: Database, skeleton: Fields, pages: seq<seq<FilmId>>, chunk: seq<FilmId>)
    requires IdKey in skeleton && Shaped(skeleton)
    ensures MovieLoads(db, skeleton, pages + [chunk]) ==
      MovieLoads(db, skeleton, pages) + [MoviesLoad(PageDocs(db, skeleton, chunk))]
  {
  }

  /** One batch of the batch loop: load it if it is a person or genre batch, then collect its film ids. */
  method LoadBatch(db: Database, data: DataTransform, elastic: ElasticLoader, b: Batch)
    requires data.redis.Valid()
    modifies data.redis, elastic
    ensures data.redis.Valid()
    ensures data.redis.Members(MovieIdsKey) == AddAll(old(data.redis.Members(MovieIdsKey)), GetFilmWorkIds(db, b.table, b.rows))
    ensures data.redis.sets - {MovieIdsKey} == old(data.redis.sets) - {MovieIdsKey}
    ensures data.redis.strings == old(data.redis.strings)
    ensures elastic.calls == old(elastic.calls) + if b.table != FilmWorkTable then [EntityLoad(b)] else []
  {
    if b.table == PersonTable {
      elastic.BulkInsert(EntityLoad(b));
    }
    if b.table == GenreTable {
      elastic.BulkInsert(EntityLoad(b));
    }
    var ids := GetFilmWorkIds(db, b.table, b.rows);
    CollectAll(data, ids);
  }

  /** The batch loop of `etl_process`: load persons and genres, collect the film ids. */
  method LoadBatches(db: Database, data: DataTransform, elastic: ElasticLoader, bs: seq<Batch>)
    requires data.redis.Valid()
    modifies data.redis, elastic
    ensures data.redis.Valid()
    ensures data.redis.Members(MovieIdsKey) == CollectIds(db, old(data.redis.Members(MovieIdsKey)), bs)
    ensures data.redis.sets - {MovieIdsKey} == old(data.redis.sets) - {MovieIdsKey}
    ensures data.redis.strings == old(data.redis.strings)
    ensures elastic.calls == old(elastic.calls) + EntityLoads(bs)
  {
    ghost var m0 := data.redis.Members(MovieIdsKey);
    ghost var calls0 := elastic.calls;
    for i := 0 to |bs|
      invariant data.redis.Valid()
      invariant data.redis.Members(MovieIdsKey) == CollectIds(db, m0, bs[..i])
      invariant data.redis.sets - {MovieIdsKey} == old(data.redis.sets) - {MovieIdsKey}
      invariant data.redis.strings == old(data.redis.strings)
      invariant elastic.calls == calls0 + EntityLoads(bs[..i])
    {
      BatchStep(db, m0, bs, i);
      LoadBatch(db, data, elastic, bs[i]);
    }
    assert bs[..|bs|] == bs;
  }

  /** One more batch extends the collected ids and the entity loads by that batch's own. */
  lemma BatchStep(db: Database, members: seq<FilmId>, bs: seq<Batch>, i: nat)
    requires i < |bs|
    ensures CollectIds(db, members, bs[..i + 1]) ==
      AddAll(CollectIds(db, members, bs[..i]), GetFilmWorkIds(db, bs[i].table, bs[i].rows))
    ensures EntityLoads(bs[..i + 1]) ==
      EntityLoads(bs[..i]) + if bs[i].table != FilmWorkTable then [EntityLoad(bs[i])] else []
  {
    assert bs[..i + 1][..i] == bs[..i];
  }

  /**
   * One resumption of the batcher, and the load of the page it yields, if
   * any.  A rejected query ends the page loop with the generator left
   * suspended: the set is not deleted.  That happens only on the first page
   * of an empty set.
   */
  method NextPage(db: Database, data: DataTransform, elastic: ElasticLoader, skeleton: Fields, gen: PageGenerator,
                  ghost calls0: seq<LoadCall>)
    returns (more: bool, rejected: bool)
    requires IdKey in skeleton && Shaped(skeleton)
    requires gen.Valid() && gen.redis == data.redis && gen.skeleton == skeleton && !gen.finished
    requires [] !in gen.yielded
    requires elastic.calls == calls0 + MovieLoads(db, skeleton, gen.yielded)
    modifies gen, data.redis, elastic
    ensures gen.Valid() && gen.Remaining() < old(gen.Remaining())
    ensures data.redis.strings == old(data.redis.strings)
    ensures rejected ==>
      && !more && !gen.finished && gen.members == [] && old(gen.yielded) == []
      && data.redis.sets == old(data.redis.sets) && elastic.calls == calls0
    ensures !rejected ==> [] !in gen.yielded && elastic.calls == calls0 + MovieLoads(db, skeleton, gen.yielded)
    ensures more ==> !gen.finished && data.redis.sets == old(data.redis.sets)
    ensures !more && !rejected ==> gen.finished && data.redis.sets == old(data.redis.sets) - {gen.key}
  {
    ghost var before := gen.yielded;
    var page := gen.Next();
    if page.None? {
      return false, false;
    }
    ghost var chunk := gen.yielded[|gen.yielded| - 1];
    assert gen.yielded == before + [chunk];
    rejected := LoadYielded(db, data, elastic, skeleton, page.value, before, chunk, calls0);
    if rejected {
      EmptyPageOnlyWhenEmpty(gen.members, before, gen.Pending());
      assert MovieLoads(db, skeleton, before) == [];
      return false, true;
    }
    more := true;
  }

  /** Loading a freshly yielded page extends the loads by that page's load, unless its query is rejected. */
  method LoadYielded(db: Database, data: DataTransform, elastic: ElasticLoader, skeleton: Fields,
                     movies: Page, ghost before: seq<seq<FilmId>>, ghost chunk: seq<FilmId>, ghost calls0: seq<LoadCall>)
    returns (rejected: bool)
    requires IdKey in skeleton && Shaped(skeleton)
    requires PageOf(movies, chunk)
    requires forall x :: x in movies ==> movies[x].fields == skeleton
    requires elastic.calls == calls0 + MovieLoads(db, skeleton, before)
    modifies elastic, movies.Values
    ensures rejected <==> chunk == []
    ensures rejected ==> elastic.calls == old(elastic.calls)
    ensures !rejected ==> elastic.calls == calls0 + MovieLoads(db, skeleton, before + [chunk])
  {
    rejected := LoadPage(db, data, elastic, skeleton, movies, chunk);
    if !rejected {
      MovieLoadsSnoc(db, skeleton, before, chunk);
      assert elastic.calls == calls0 + (MovieLoads(db, skeleton, before) + [MoviesLoad(PageDocs(db, skeleton, chunk))]);
    }
  }

  /** Once the generator has finished, it has yielded every page of the scan. */
  lemma FinishedYieldedAll(gen: PageGenerator)
    requires gen.Valid() && gen.finished
    ensures gen.yielded == ScanPages(gen.members, 0, BATCH_SIZE)
  {
    assert gen.Pending() == [];
  }

  /**
   * The page loop of `etl_process`: drain the batcher, loading each page; the
   * set is deleted at the end.  Over an empty set the one empty page is
   * queried with `IN ()`, and the loop ends there, with nothing loaded and
   * nothing deleted.
   */
  method LoadPages(db: Database, data: DataTransform, elastic: ElasticLoader, skeleton: Fields)
    returns (rejected: bool)
    requires IdKey in skeleton && Shaped(skeleton)
    requires data.redis.Valid()
    modifies data.redis, elastic
    ensures data.redis.Valid()
    ensures data.redis.strings == old(data.redis.strings)
    ensures rejected <==> old(data.redis.Members(MovieIdsKey)) == []
    ensures rejected ==> data.redis.sets == old(data.redis.sets) && elastic.calls == old(elastic.calls)
    ensures !rejected ==>
      && data.redis.sets == old(data.redis.sets) - {MovieIdsKey}
      && elastic.calls == old(elastic.calls) +
           MovieLoads(db, skeleton, ScanPages(old(data.redis.Members(MovieIdsKey)), 0, BATCH_SIZE))
  {
    ghost var members := data.redis.Members(MovieIdsKey);
    ghost var sets0 := data.redis.sets;
    ghost var strings0 := data.redis.strings;
    ghost var calls0 := elastic.calls;
    var gen := data.Batcher(MovieIdsKey, skeleton);
    assert MovieLoads(db, skeleton, gen.yielded) == [];
    var more := true;
    rejected := false;
    while more
      invariant gen.Valid() && gen.redis == data.redis && gen.key == MovieIdsKey && gen.skeleton == skeleton
      invariant gen.members == members
      invariant data.redis.strings == strings0
      invariant rejected ==> !more && members == [] && data.redis.sets == sets0 && elastic.calls == calls0
      invariant !rejected ==> more == !gen.finished
      invariant !rejected && more ==> data.redis.sets == sets0
      invariant !rejected && !more ==> data.redis.sets == sets0 - {MovieIdsKey}
      invariant !rejected ==> [] !in gen.yielded && elastic.calls == calls0 + MovieLoads(db, skeleton, gen.yielded)
      decreases if more then gen.Remaining() + 1 else 0
    {
      more, rejected := NextPage(db, data, elastic, skeleton, gen, calls0);
    }
    if !rejected {
      FinishedYieldedAll(gen);
      if members == [] {
        EmptySetOnePage();
        assert false;
      }
    }
  }

  /** The scan of an empty set is one empty page. */
  lemma EmptySetOnePage()
    ensures ScanPages([], 0, BATCH_SIZE) == [[]]
    ensures [] in ScanPages([], 0, BATCH_SIZE)
  {
  }

  /**
   * `etl_process`: with the watermark read from the state, either no table
   * has a row modified after it (`UpdatesNotFoundError`, nothing done), or
   * the persons and genres are loaded batch by batch, then the documents of
   * every collected film page by page, and the set of collected ids is
   * deleted.  When updates were found but no film was collected, the one
   * empty page's query is rejected after the persons and genres are loaded.
   */
  method EtlProcess(db: Database, data: DataTransform, elastic: ElasticLoader, state: State, skeleton: Fields)
    returns (result: CycleResult)
    requires IdKey in skeleton && Shaped(skeleton)
    requires data.redis.Valid()
    modifies data.redis, elastic
    ensures data.redis.Valid()
    ensures data.redis.strings == old(data.redis.strings)
    ensures var t := Lookup(state.data, LastUpdatedKey, DatetimeMin);
      result == NoUpdates <==> NoChanges(db, t)
    ensures var t := Lookup(state.data, LastUpdatedKey, DatetimeMin);
      result == QueryRejected <==>
        !NoChanges(db, t) && CollectIds(db, old(data.redis.Members(MovieIdsKey)), Batches(db, t)) == []
    ensures result == NoUpdates ==> elastic.calls == old(elastic.calls) && data.redis.sets == old(data.redis.sets)
    ensures result == QueryRejected ==>
      var t := Lookup(state.data, LastUpdatedKey, DatetimeMin);
      && data.redis.sets - {MovieIdsKey} == old(data.redis.sets) - {MovieIdsKey}
      && data.redis.Members(MovieIdsKey) == []
      && elastic.calls == old(elastic.calls) + EntityLoads(Batches(db, t))
    ensures result == Loaded ==>
      var t := Lookup(state.data, LastUpdatedKey, DatetimeMin);
      var collected := CollectIds(db, old(data.redis.Members(MovieIdsKey)), Batches(db, t));
      && data.redis.sets == old(data.redis.sets) - {MovieIdsKey}
      && elastic.calls == old(elastic.calls) + EntityLoads(Batches(db, t)) +
           MovieLoads(db, skeleton, ScanPages(collected, 0, BATCH_SIZE))
  {
    var t := state.ReadState(LastUpdatedKey, DatetimeMin);
    var updates := GetUpdates(db, t);
    if updates == UpdatesNotFound {
      return NoUpdates;
    }
    ghost var collected := CollectIds(db, data.redis.Members(MovieIdsKey), updates.batches);
    ghost var sets0, calls0 := data.redis.sets, elastic.calls;
    LoadBatches(db, data, elastic, updates.batches);
    ghost var calls1 := elastic.calls;
    assert data.redis.Members(MovieIdsKey) == collected;
    var rejected := LoadPages(db, data, elastic, skeleton);
    if rejected {
      return QueryRejected;
    }
    assert elastic.calls == calls1 + MovieLoads(db, skeleton, ScanPages(collected, 0, BATCH_SIZE));
    assert data.redis.sets == sets0 - {MovieIdsKey};
    result := Loaded;
  }

  /**
   * One iteration of `load_from_postgres`: the cycle, then, only when it
   * loaded, the new watermark `now` written to the state (and so to Redis),
   * then the one-minute sleep.  A rejected query is neither the caught
   * `UpdatesNotFoundError` nor a success: the watermark stays, the sleep
   * still happens, and the error then ends the loop (`stops`).  The state
   * shares the Redis connection with the transformer.
   */
  method SyncOnce(db: Database, data: DataTransform, elastic: ElasticLoader, state: State,
                  skeleton: Fields, now: int)
    returns (result: CycleResult, slept: int, stops: bool)
    requires IdKey in skeleton && Shaped(skeleton)
    requires data.redis == state.storage.redisAdapter && data.redis.Valid()
    modifies data.redis, elastic, state
    ensures data.redis.Valid() && slept == SleepSeconds
    ensures stops <==> result == QueryRejected
    ensures result == QueryRejected ==>
      && state.data == old(state.data)
      && data.redis.strings == old(data.redis.strings)
      && data.redis.sets - {MovieIdsKey} == old(data.redis.sets) - {MovieIdsKey}
    ensures result == NoUpdates ==>
      && state.data == old(state.data)
      && data.redis.strings == old(data.redis.strings) && data.redis.sets == old(data.redis.sets)
    ensures result == Loaded ==>
      && state.data == old(state.data)[LastUpdatedKey := now]
      && data.redis.strings == old(data.redis.strings)[DataKey := state.data]
      && data.redis.sets == old(data.redis.sets) - {MovieIdsKey}
  {
    result := EtlProcess(db, data, elastic, state, skeleton);
    if result == Loaded {
      state.WriteState(LastUpdatedKey, now);
    }
    slept := SleepSeconds;
    stops := result == QueryRejected;
  }

  // ---------------------------------------------------------------------------
  // What a cycle achieves

  /** A table's query returns nothing exactly when none of its rows is newer than the watermark. */
  lemma NoneSelected(db: Database, table: Table, t: int)
    ensures SelectTable(db, table, t) == [] <==> forall r :: r in TableRows(db, table) ==> r.Modified() <= t
  {
    SelectTableExact(db, table, t);
    if SelectTable(db, table, t) != [] {
      assert SelectTable(db, table, t)[0] in SelectTable(db, table, t);
    }
  }

  /** `get_updates` raises exactly when no row of any monitored table is newer than the watermark. */
  lemma NoChangesExactly(db: Database, t: int)
    ensures NoChanges(db, t) <==> forall table, r :: r in TableRows(db, table) ==> r.Modified() <= t
  {
    var qs := Queries(db, t);
    assert NoChanges(db, t) <==> qs[0].1 == [] && qs[1].1 == [] && qs[2].1 == [];
    NoneSelected(db, FilmWorkTable, t);
    NoneSelected(db, PersonTable, t);
    NoneSelected(db, GenreTable, t);
  }

  /** The rows of the `table` batches among the bulk calls, concatenated in call order. */
  function LoadedRows(calls: seq<LoadCall>, table: Table): seq<ChangeRow>
  {
    if calls == [] then []
    else
      var last := calls[|calls| - 1];
      LoadedRows(calls[..|calls| - 1], table) + if last.EntityLoad? && last.batch.table == table then last.batch.rows else []
  }

  lemma LoadedRowsSnoc(calls: seq<LoadCall>, c: LoadCall, table: Table)
    ensures LoadedRows(calls + [c], table) ==
      LoadedRows(calls, table) + if c.EntityLoad? && c.batch.table == table then c.batch.rows else []
  {
    assert (calls + [c])[..|calls|] == calls;
  }

  lemma {:induction false} EntityLoadsRows(bs: seq<Batch>, table: Table)
    ensures LoadedRows(EntityLoads(bs), table) == if table == FilmWorkTable then [] else RowsOf(bs, table)
  {
    if bs != [] {
      var init, last := bs[..|bs| - 1], bs[|bs| - 1];
      EntityLoadsRows(init, table);
      assert bs == init + [last];
      RowsOfAppend(init, [last], table);
      assert RowsOf([last], table) == if last.table == table then last.rows else [] by {
        assert [last][1..] == [];
      }
      if last.table != FilmWorkTable {
        assert EntityLoads(bs) == EntityLoads(init) + [EntityLoad(last)];
        LoadedRowsSnoc(EntityLoads(init), EntityLoad(last), table);
      } else {
        assert EntityLoads(bs) == EntityLoads(init) + [];
        assert EntityLoads(init) + [] == EntityLoads(init);
      }
    }
  }

  /**
   * The person and genre bulk calls of a cycle carry, in order, exactly the
   * person and genre rows modified after the watermark; film_work rows are
   * never bulk-loaded as such.
   */
  lemma EntitiesLoaded(db: Database, t: int)
    ensures LoadedRows(EntityLoads(Batches(db, t)), PersonTable) == SelectTable(db, PersonTable, t)
    ensures LoadedRows(EntityLoads(Batches(db, t)), GenreTable) == SelectTable(db, GenreTable, t)
    ensures LoadedRows(EntityLoads(Batches(db, t)), FilmWorkTable) == []
  {
    EntityLoadsRows(Batches(db, t), PersonTable);
    EntityLoadsRows(Batches(db, t), GenreTable);
    EntityLoadsRows(Batches(db, t), FilmWorkTable);
    BatchesPerTable(db, t, PersonTable);
    BatchesPerTable(db, t, GenreTable);
  }

  lemma {:induction false} RowsOfMember(bs: seq<Batch>, table: Table, r: ChangeRow)
    ensures r in RowsOf(bs, table) <==> exists i :: 0 <= i < |bs| && bs[i].table == table && r in bs[i].rows
  {
    if bs != [] {
      RowsOfMember(bs[1..], table, r);
      if r in RowsOf(bs[1..], table) {
        var i :| 0 <= i < |bs[1..]| && bs[1..][i].table == table && r in bs[1..][i].rows;
        assert bs[i + 1] == bs[1..][i];
      }
      if exists i :: 0 <= i < |bs| && bs[i].table == table && r in bs[i].rows {
        var i :| 0 <= i < |bs| && bs[i].table == table && r in bs[i].rows;
        if i > 0 {
          assert bs[1..][i - 1] == bs[i];
        }
      }
    }
  }

  /** The set after the batch loop: what it held, plus every id `get_film_work_ids` yielded. */
  lemma CollectIdsMembers(db: Database, members: seq<FilmId>, bs: seq<Batch>, x: FilmId)
    ensures members <= CollectIds(db, members, bs)
    ensures NoDup(members) ==> NoDup(CollectIds(db, members, bs))
    ensures x in CollectIds(db, members, bs) <==>
      x in members || exists i :: 0 <= i < |bs| && x in GetFilmWorkIds(db, bs[i].table, bs[i].rows)
  {
    CollectIdsGrows(db, members, bs);
    CollectIdsGather(db, members, bs);
    var yss := BatchFilmIds(db, bs);
    if x in CollectIds(db, members, bs) && x !in members {
      var i := GatherFrom(members, yss, x);
      assert yss[i] == GetFilmWorkIds(db, bs[i].table, bs[i].rows);
    }
    if exists i :: 0 <= i < |bs| && x in GetFilmWorkIds(db, bs[i].table, bs[i].rows) {
      var i :| 0 <= i < |bs| && x in GetFilmWorkIds(db, bs[i].table, bs[i].rows);
      GatherHas(members, yss, i, x);
    }
  }

  /** The ids `get_film_work_ids` yields for each batch, in batch order. */
  function BatchFilmIds(db: Database, bs: seq<Batch>): seq<seq<FilmId>>
  {
    seq(|bs|, i requires 0 <= i < |bs| => GetFilmWorkIds(db, bs[i].table, bs[i].rows))
  }

  /** The set after SADD of every id of every list, list by list. */
  function Gather(members: seq<FilmId>, yss: seq<seq<FilmId>>): seq<FilmId>
  {
    if yss == [] then members else AddAll(Gather(members, yss[..|yss| - 1]), yss[|yss| - 1])
  }

  lemma {:induction false} CollectIdsGather(db: Database, members: seq<FilmId>, bs: seq<Batch>)
    ensures CollectIds(db, members, bs) == Gather(members, BatchFilmIds(db, bs))
  {
    if bs != [] {
      var init := bs[..|bs| - 1];
      CollectIdsGather(db, members, init);
      assert BatchFilmIds(db, bs)[..|bs| - 1] == BatchFilmIds(db, init);
    }
  }

  /** An id gathered that was not in the set before comes from one of the lists. */
  lemma {:induction false} GatherFrom(members: seq<FilmId>, yss: seq<seq<FilmId>>, x: FilmId) returns (i: nat)
    requires x in Gather(members, yss) && x !in members
    ensures i < |yss| && x in yss[i]
  {
    var init := yss[..|yss| - 1];
    if x in Gather(members, init) {
      i := GatherFrom(members, init, x);
      assert init[i] == yss[i];
    } else {
      i := |yss| - 1;
    }
  }

  /** Every id of every list is gathered. */
  lemma {:induction false} GatherHas(members: seq<FilmId>, yss: seq<seq<FilmId>>, i: nat, x: FilmId)
    requires i < |yss| && x in yss[i]
    ensures x in Gather(members, yss)
  {
    var init := yss[..|yss| - 1];
    if i < |init| {
      assert init[i] == yss[i];
      GatherHas(members, init, i, x);
    }
  }

  /** The batch loop only adds to the set, and never a repeat. */
  lemma {:induction false} CollectIdsGrows(db: Database, members: seq<FilmId>, bs: seq<Batch>)
    ensures members <= CollectIds(db, members, bs)
    ensures NoDup(members) ==> NoDup(CollectIds(db, members, bs))
  {
    if bs != [] {
      CollectIdsGrows(db, members, bs[..|bs| - 1]);
    }
  }

  /** A film changed since the watermark is collected. */
  lemma ChangedCollected(db: Database, t: int, members: seq<FilmId>, r: ChangeRow)
    requires r in SelectTable(db, FilmWorkTable, t)
    ensures r.Id() in CollectIds(db, members, Batches(db, t))
  {
    var bs := Batches(db, t);
    BatchesPerTable(db, t, FilmWorkTable);
    RowsOfMember(bs, FilmWorkTable, r);
    var i :| 0 <= i < |bs| && bs[i].table == FilmWorkTable && r in bs[i].rows;
    var j :| 0 <= j < |bs[i].rows| && bs[i].rows[j] == r;
    assert GetFilmWorkIds(db, bs[i].table, bs[i].rows)[j] == r.Id();
    CollectIdsMembers(db, members, bs, r.Id());
  }

  /** A film linked to a person or genre changed since the watermark is collected. */
  lemma LinkedCollected(db: Database, t: int, members: seq<FilmId>, table: Table, x: FilmId)
    requires table != FilmWorkTable && LinkedToChange(db, t, table, x)
    ensures x in CollectIds(db, members, Batches(db, t))
  {
    var bs := Batches(db, t);
    var r, k :| r in SelectTable(db, table, t) && 0 <= k < |Links(db, table)| && Links(db, table)[k] == (x, r.Id());
    BatchesPerTable(db, t, table);
    RowsOfMember(bs, table, r);
    var i :| 0 <= i < |bs| && bs[i].table == table && r in bs[i].rows;
    assert r.Id() in BatchIds(bs[i].rows);
    assert LinkCount(Links(db, table), x, BatchIds(bs[i].rows)) > 0;
    FilmWorkIdsLinked(db, table, bs[i].rows, x);
    CollectIdsMembers(db, members, bs, x);
  }

  /** Every collected film was in the set already or is affected by a change. */
  lemma CollectedAffected(db: Database, t: int, members: seq<FilmId>, x: FilmId)
    requires x in CollectIds(db, members, Batches(db, t)) && x !in members
    ensures Affected(db, t, x)
  {
    var bs := Batches(db, t);
    CollectIdsGather(db, members, bs);
    var i := GatherFrom(members, BatchFilmIds(db, bs), x);
    var table := bs[i].table;
    assert x in GetFilmWorkIds(db, table, bs[i].rows);
    match table
    case FilmWorkTable =>
      var r := FilmBatchAffected(db, t, i, x);
      assert exists r :: r in SelectTable(db, FilmWorkTable, t) && r.Id() == x;
    case PersonTable =>
      LinkBatchAffected(db, t, i, x);
      assert LinkedToChange(db, t, PersonTable, x);
    case GenreTable =>
      LinkBatchAffected(db, t, i, x);
      assert LinkedToChange(db, t, GenreTable, x);
  }

  /** An id yielded for a film_work batch is the id of a film changed since `t`. */
  lemma FilmBatchAffected(db: Database, t: int, i: nat, x: FilmId) returns (r: ChangeRow)
    requires i < |Batches(db, t)| && Batches(db, t)[i].table == FilmWorkTable
    requires x in GetFilmWorkIds(db, FilmWorkTable, Batches(db, t)[i].rows)
    ensures r in SelectTable(db, FilmWorkTable, t) && r.Id() == x
  {
    var bs := Batches(db, t);
    var ids := GetFilmWorkIds(db, FilmWorkTable, bs[i].rows);
    var j :| 0 <= j < |ids| && ids[j] == x;
    r := bs[i].rows[j];
    BatchesPerTable(db, t, FilmWorkTable);
    RowsOfMember(bs, FilmWorkTable, r);
  }

  /** An id yielded for a person or genre batch is that of a film linked to a row changed since `t`. */
  lemma LinkBatchAffected(db: Database, t: int, i: nat, x: FilmId)
    requires i < |Batches(db, t)| && Batches(db, t)[i].table != FilmWorkTable
    requires x in GetFilmWorkIds(db, Batches(db, t)[i].table, Batches(db, t)[i].rows)
    ensures LinkedToChange(db, t, Batches(db, t)[i].table, x)
  {
    var bs := Batches(db, t);
    var b := bs[i];
    FilmWorkIdsLinked(db, b.table, b.rows, x);
    var links := Links(db, b.table);
    var k :| 0 <= k < |links| && links[k].0 == x && links[k].1 in BatchIds(b.rows);
    var r :| r in b.rows && r.Id() == links[k].1;
    BatchesPerTable(db, t, b.table);
    RowsOfMember(bs, b.table, r);
    assert links[k] == (x, r.Id());
  }

  /**
   * The films queued for re-indexing by a cycle are exactly those left in
   * the set by an earlier cycle and those affected by a change since the
   * watermark; the set stays free of repeats.
   */
  lemma CollectedExactly(db: Database, t: int, members: seq<FilmId>, x: FilmId)
    ensures x in CollectIds(db, members, Batches(db, t)) <==> x in members || Affected(db, t, x)
    ensures NoDup(members) ==> NoDup(CollectIds(db, members, Batches(db, t)))
  {
    CollectIdsMembers(db, members, Batches(db, t), x);
    if x in CollectIds(db, members, Batches(db, t)) && x !in members {
      CollectedAffected(db, t, members, x);
    }
    if Affected(db, t, x) {
      if exists r :: r in SelectTable(db, FilmWorkTable, t) && r.Id() == x {
        var r :| r in SelectTable(db, FilmWorkTable, t) && r.Id() == x;
        ChangedCollected(db, t, members, r);
      } else if LinkedToChange(db, t, PersonTable, x) {
        LinkedCollected(db, t, members, PersonTable, x);
      } else {
        LinkedCollected(db, t, members, GenreTable, x);
      }
    }
  }

  /**
   * The document loaded for a film of a page is built from that film's join
   * rows alone, whatever else is on the page.
   */
  lemma PageDocsFor(db: Database, skeleton: Fields, chunk: seq<FilmId>, x: FilmId)
    requires IdKey in skeleton && Shaped(skeleton) && x in chunk
    ensures x in PageDocs(db, skeleton, chunk)
    ensures PageDocs(db, skeleton, chunk)[x] == MergeAll(skeleton, MovieData(db, db.filmWork, {x}))
  {
    var ids := set y | y in chunk;
    assert x in ids;
    var rows := MovieData(db, db.filmWork, ids);
    assert FetchPage(db, ids) == rows;
    MovieDataFor(db, db.filmWork, ids, x);
    assert RowsFor(rows, x) == MovieData(db, db.filmWork, {x});
  }

  /**
   * Over pages that together hold exactly the collected films, a film's
   * document is loaded exactly when the film was collected, and every load of
   * it is the film's own document.  Only this covering is assumed of the
   * pages: SSCAN promises no more than that every member is returned.
   */
  lemma CycleDocuments(db: Database, skeleton: Fields, members: seq<FilmId>, pages: seq<seq<FilmId>>, x: FilmId)
    requires IdKey in skeleton && Shaped(skeleton)
    requires forall y :: y in members <==> exists i :: 0 <= i < |pages| && y in pages[i]
    ensures var loads := MovieLoads(db, skeleton, pages);
      && (x in members <==> exists i :: 0 <= i < |loads| && x in loads[i].docs)
      && (forall i :: 0 <= i < |loads| && x in loads[i].docs ==>
            loads[i].docs[x] == MergeAll(skeleton, MovieData(db, db.filmWork, {x})))
  {
    var loads := MovieLoads(db, skeleton, pages);
    forall i | 0 <= i < |loads| ensures x in loads[i].docs <==> x in pages[i] {
    }
    forall i | 0 <= i < |loads| && x in loads[i].docs
      ensures loads[i].docs[x] == MergeAll(skeleton, MovieData(db, db.filmWork, {x}))
    {
      PageDocsFor(db, skeleton, pages[i], x);
    }
  }

  /**
   * When the pages are the set cut into pieces, with no member repeated, no
   * film's document is loaded twice.
   */
  lemma CycleDocumentsOnce(db: Database, skeleton: Fields, members: seq<FilmId>, pages: seq<seq<FilmId>>, x: FilmId)
    requires IdKey in skeleton && Shaped(skeleton)
    requires Flatten(pages) == members && NoDup(members)
    ensures var loads := MovieLoads(db, skeleton, pages);
      forall i, j :: 0 <= i < j < |loads| ==> !(x in loads[i].docs && x in loads[j].docs)
  {
    var loads := MovieLoads(db, skeleton, pages);
    forall i, j | 0 <= i < j < |loads| ensures !(x in loads[i].docs && x in loads[j].docs) {
      FlattenDisjoint(pages, i, j, x);
      assert x in loads[i].docs <==> x in pages[i];
      assert x in loads[j].docs <==> x in pages[j];
    }
  }

  /** The scan of the collected set meets both hypotheses, so a cycle loads each collected film exactly once. */
  lemma ScanCoversCollected(members: seq<FilmId>, y: FilmId)
    requires NoDup(members)
    ensures Flatten(ScanPages(members, 0, BATCH_SIZE)) == members
    ensures y in members <==>
      exists i :: 0 <= i < |ScanPages(members, 0, BATCH_SIZE)| && y in ScanPages(members, 0, BATCH_SIZE)[i]
  {
    PagesCoverSet(members, y);
    assert members[0..] == members;
  }

  /** With unique film ids, the join rows of film `f` alone start with a row carrying `f`'s columns. */
  lemma {:induction false} FirstRowOfFilm(db: Database, films: seq<FilmWorkRow>, f: FilmWorkRow)
    requires f in films && forall g :: g in films && g.id == f.id ==> g == f
    ensures var rows := MovieData(db, films, {f.id});
      && rows != [] && rows[0].id == f.id && rows[0].title == f.title
      && rows[0].description == f.description && rows[0].rating == f.rating
  {
    if films[0] == f {
      var fr := FilmRows(db, f);
      assert fr[0] in fr;
    } else {
      assert films[0].id != f.id;
      FirstRowOfFilm(db, films[1..], f);
    }
  }

  /**
   * The document of a film, built from a blank one: its id, title,
   * description and rating are the film's own.
   */
  lemma DocumentScalars(db: Database, skeleton: Fields, f: FilmWorkRow)
    requires Blank(skeleton) && f.id != ""
    requires f in db.filmWork && forall g :: g in db.filmWork && g.id == f.id ==> g == f
    ensures var doc := MergeAll(skeleton, MovieData(db, db.filmWork, {f.id}));
      && TitleKey in doc && DescriptionKey in doc && RatingKey in doc
      && doc[IdKey] == Text(f.id) && doc[TitleKey] == f.title
      && doc[DescriptionKey] == f.description && doc[RatingKey] == f.rating
  {
    FirstRowOfFilm(db, db.filmWork, f);
    ScalarsFromFirstRow(skeleton, MovieData(db, db.filmWork, {f.id}));
  }

  /** Every person linked to a film is listed, under the link's role, in the film's document. */
  lemma DocumentListsPerson(db: Database, skeleton: Fields, f: FilmWorkRow, l: PersonFilmWork, p: PersonRow)
    requires IdKey in skeleton && Shaped(skeleton)
    requires f in db.filmWork && l in db.personFilmWork && l.filmWorkId == f.id
    requires p in db.person && p.id == l.personId && p.id != ""
    ensures PersonRecord(Text(p.id), p.fullName) in
      GetList(MergeAll(skeleton, MovieData(db, db.filmWork, {f.id})), PersonsKey(l.role))
  {
    var rows := MovieData(db, db.filmWork, {f.id});
    LinkedPersonAppears(db, {f.id}, f, l, p);
    var m :| m in rows && m.id == f.id && m.role == l.role && m.personId == Text(p.id) && m.fullName == p.fullName;
    var i :| 0 <= i < |rows| && rows[i] == m;
    MergeAllCollects(skeleton, rows, i);
  }

  /** Every genre linked to a film is listed in the film's document, when its name is non-empty. */
  lemma DocumentListsGenre(db: Database, skeleton: Fields, f: FilmWorkRow, l: GenreFilmWork, g: GenreRow)
    requires IdKey in skeleton && Shaped(skeleton)
    requires f in db.filmWork && l in db.genreFilmWork && l.filmWorkId == f.id
    requires g in db.genre && g.id == l.genreId && Truthy(g.name)
    ensures g.name in GetList(MergeAll(skeleton, MovieData(db, db.filmWork, {f.id})), GenreKey)
  {
    var rows := MovieData(db, db.filmWork, {f.id});
    LinkedGenreAppears(db, {f.id}, f, l, g);
    var m :| m in rows && m.id == f.id && m.genreName == g.name;
    var i :| 0 <= i < |rows| && rows[i] == m;
    MergeAllCollects(skeleton, rows, i);
  }

  /** A list field of a blank document is empty. */
  lemma BlankListEmpty(f: Fields, k: string)
    requires Blank(f) && ListKey(k)
    ensures GetList(f, k) == []
  {
    if k in f {
      assert f[k].List?;
      assert f[k] == List([]);
    }
  }

  /**
   * Converse of `DocumentListsPerson`: every participant listed under role
   * `q` in a film's document, built from a blank one, is a person row linked
   * to the film by a person_film_work row of that role.  It needs that no
   * role's names field is `q`'s participants field.
   */
  lemma DocumentPersonLinked(db: Database, skeleton: Fields, x: FilmId, q: Option<string>, v: Value)
    returns (f: FilmWorkRow, l: PersonFilmWork, p: PersonRow)
    requires Blank(skeleton)
    requires forall l' :: l' in db.personFilmWork ==> NoClash(q, l'.role)
    requires v in GetList(MergeAll(skeleton, MovieData(db, db.filmWork, {x})), PersonsKey(q))
    ensures f in db.filmWork && f.id == x
    ensures l in db.personFilmWork && l.filmWorkId == x && RoleText(l.role) == RoleText(q)
    ensures p in db.person && p.id == l.personId && v == PersonRecord(Text(p.id), p.fullName)
  {
    var rows := MovieData(db, db.filmWork, {x});
    var k := PersonsKey(q);
    BlankListEmpty(skeleton, k);
    var i := MergeAllOrigin(skeleton, rows, k, v);
    var m := rows[i];
    f := MovieDataOrigin(db, db.filmWork, {x}, m);
    var part, g := CrossOnly(f, PersonParts(db, f.id), GenreNames(db, f.id), m);
    RowKeysDistinct(q);
    assert Truthy(m.personId);
    l, p := PersonPartsOrigin(db, f.id, part);
    SameRoleKeys(q, m.role);
  }

  /**
   * Converse for the names: every name listed under role `q` is the full
   * name of a person row linked to the film with that role.  It needs that
   * no role's participants field is `q`'s names field.
   */
  lemma DocumentNameLinked(db: Database, skeleton: Fields, x: FilmId, q: Option<string>, v: Value)
    returns (f: FilmWorkRow, l: PersonFilmWork, p: PersonRow)
    requires Blank(skeleton)
    requires forall l' :: l' in db.personFilmWork ==> NoClash(l'.role, q)
    requires v in GetList(MergeAll(skeleton, MovieData(db, db.filmWork, {x})), NamesKey(q))
    ensures f in db.filmWork && f.id == x
    ensures l in db.personFilmWork && l.filmWorkId == x && RoleText(l.role) == RoleText(q)
    ensures p in db.person && p.id == l.personId && v == p.fullName
  {
    var rows := MovieData(db, db.filmWork, {x});
    var k := NamesKey(q);
    BlankListEmpty(skeleton, k);
    var i := MergeAllOrigin(skeleton, rows, k, v);
    var m := rows[i];
    f := MovieDataOrigin(db, db.filmWork, {x}, m);
    var part, g := CrossOnly(f, PersonParts(db, f.id), GenreNames(db, f.id), m);
    RowKeysDistinct(q);
    assert Truthy(m.personId);
    l, p := PersonPartsOrigin(db, f.id, part);
    SameRoleKeys(q, m.role);
  }

  /**
   * Converse of `DocumentListsGenre`: every genre listed in a film's
   * document, built from a blank one, is the name of a genre row linked to
   * the film by a genre_film_work row.
   */
  lemma DocumentGenreLinked(db: Database, skeleton: Fields, x: FilmId, v: Value)
    returns (f: FilmWorkRow, l: GenreFilmWork, g: GenreRow)
    requires Blank(skeleton)
    requires v in GetList(MergeAll(skeleton, MovieData(db, db.filmWork, {x})), GenreKey)
    ensures f in db.filmWork && f.id == x
    ensures l in db.genreFilmWork && l.filmWorkId == x && g in db.genre && g.id == l.genreId && v == g.name
  {
    var rows := MovieData(db, db.filmWork, {x});
    BlankListEmpty(skeleton, GenreKey);
    var i := MergeAllOrigin(skeleton, rows, GenreKey, v);
    var m := rows[i];
    f := MovieDataOrigin(db, db.filmWork, {x}, m);
    var part, name := CrossOnly(f, PersonParts(db, f.id), GenreNames(db, f.id), m);
    RowKeysDistinct(m.role);
    assert Truthy(m.genreName);
    l, g := GenreNamesOrigin(db, f.id, name);
  }

  // ---------------------------------------------------------------------------
  // The empty page

  /** A person row newer than the watermark is an update, even when it is linked to nothing. */
  lemma LonePersonIsUpdate(p: PersonRow, t: int)
    requires p.modified > t
    ensures !NoChanges(Database([], [p], [], [], []), t)
  {
    var db := Database([], [p], [], [], []);
    NoChangesExactly(db, t);
    assert TableRows(db, PersonTable)[0] == PersonChange(p);
    assert PersonChange(p) in TableRows(db, PersonTable) && PersonChange(p).Modified() > t;
  }

  /** Without films, a cycle that starts from an empty set collects nothing. */
  lemma NoFilmsNothingCollected(db: Database, t: int)
    requires db.filmWork == []
    ensures CollectIds(db, [], Batches(db, t)) == []
  {
    var collected := CollectIds(db, [], Batches(db, t));
    if collected != [] {
      NothingAffected(db, t, collected[0]);
      CollectedExactly(db, t, [], collected[0]);
      assert false;
    }
  }

  /**
   * As written, a cycle can reach `get_movie_data` with no ids: a person
   * changed after the watermark but linked to no film, with no films and an
   * empty set, gives updates, collects nothing, and the batcher still yields
   * one empty page, whose query is `WHERE fw.id IN ()`.
   */
  lemma EmptyPageQueryRejected(p: PersonRow, t: int)
    requires p.modified > t
    ensures var db := Database([], [p], [], [], []);
      var collected := CollectIds(db, [], Batches(db, t));
      && !NoChanges(db, t)
      && collected == []
      && ScanPages(collected, 0, BATCH_SIZE) == [[]]
      && GetMovieData(db, set x | x in ScanPages(collected, 0, BATCH_SIZE)[0]) == EmptyInList
  {
    LonePersonIsUpdate(p, t);
    NoFilmsNothingCollected(Database([], [p], [], [], []), t);
    assert ScanPages([], 0, BATCH_SIZE) == [[]];
  }

  /** With no films at all, no film is affected by any change. */
  lemma NothingAffected(db: Database, t: int, x: FilmId)
    requires db.filmWork == []
    ensures !Affected(db, t, x)
  {
    NoneSelected(db, FilmWorkTable, t);
  }

  /** With the guard, an empty page loads an empty batch of documents and no query is made. */
  lemma EmptyPageGuarded(db: Database, skeleton: Fields)
    requires IdKey in skeleton && Shaped(skeleton)
    ensures FetchPage(db, {}) == []
    ensures MovieLoads(db, skeleton, [[]]) == [MoviesLoad(map[])]
  {
    assert PageDocs(db, skeleton, []).Keys == {};
  }
}
