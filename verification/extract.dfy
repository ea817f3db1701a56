/**
 * Change extraction (etl_components/extract.py) over in-memory tables.  The
 * five PostgreSQL tables are sequences of rows; `select_table` is a filter on
 * `modified` followed by a sort, `get_updates` drains the three query results
 * in chunks of `BATCH_SIZE` (after raising `UpdatesNotFoundError` when all
 * three are empty), `get_film_work_ids` resolves the films a batch touches and
 * `get_movie_data` is the LEFT JOIN that flattens films with their persons
 * and genres.
 */
module Extract {
  import opened Values

  /** core/settings.py: rows fetched per `fetchmany` and per SSCAN. */
  const BATCH_SIZE: nat := 100

  datatype Table = FilmWorkTable | PersonTable | GenreTable

  /** `PostgresExtractor.TABLES`, in the order they are drained. */
  const TABLES: seq<Table> := [FilmWorkTable, PersonTable, GenreTable]

  /**
   * A `modified` timestamp is a count of ticks since `datetime.min`, so 0 is
   * `datetime.min` itself and no row is modified before it.
   */
  type Timestamp = nat

  datatype FilmWorkRow = FilmWorkRow(id: FilmId, title: Value, description: Value, rating: Value, modified: Timestamp)
  datatype PersonRow = PersonRow(id: string, fullName: Value, modified: Timestamp)
  datatype GenreRow = GenreRow(id: string, name: Value, description: Value, modified: Timestamp)
  datatype PersonFilmWork = PersonFilmWork(filmWorkId: FilmId, personId: string, role: Option<string>)
  datatype GenreFilmWork = GenreFilmWork(filmWorkId: FilmId, genreId: string)

  datatype Database = Database(
    filmWork: seq<FilmWorkRow>,
    person: seq<PersonRow>,
    genre: seq<GenreRow>,
    personFilmWork: seq<PersonFilmWork>,
    genreFilmWork: seq<GenreFilmWork>)

  /** A row of one of the three monitored tables, as `SELECT *` returns it. */
  datatype ChangeRow =
    | FilmWorkChange(filmWork: FilmWorkRow)
    | PersonChange(person: PersonRow)
    | GenreChange(genre: GenreRow)
  {
    function Id(): string
    {
      match this
      case FilmWorkChange(r) => r.id
      case PersonChange(r) => r.id
      case GenreChange(r) => r.id
    }

    function Modified(): int
    {
      match this
      case FilmWorkChange(r) => r.modified
      case PersonChange(r) => r.modified
      case GenreChange(r) => r.modified
    }
  }

  /** One chunk yielded by `get_updates`: the table name and at most `BATCH_SIZE` rows. */
  datatype Batch = Batch(table: Table, rows: seq<ChangeRow>)

  /** The result of `get_updates`: `UpdatesNotFoundError`, or the batches it yields. */
  datatype Updates = UpdatesNotFound | Found(batches: seq<Batch>)

  /** A flattened row of the `get_movie_data` join. */
  datatype MovieRow = MovieRow(
    id: FilmId, title: Value, description: Value, rating: Value,
    role: Option<string>, personId: Value, fullName: Value, genreName: Value)

  // ---------------------------------------------------------------------------
  // Sorting (ORDER BY modified)

  function ChangeModified(r: ChangeRow): int { r.Modified() }
  function FilmModified(r: FilmWorkRow): int { r.modified }

  ghost predicate SortedBy<R>(s: seq<R>, key: R -> int)
  {
    forall i, j :: 0 <= i < j < |s| ==> key(s[i]) <= key(s[j])
  }

  /** Inserts `x` before the first element with a larger key: equal keys keep their order. */
  function Insert<R(==)>(x: R, s: seq<R>, key: R -> int): (r: seq<R>)
    requires SortedBy(s, key)
    ensures |r| == |s| + 1
    ensures SortedBy(r, key)
    ensures multiset(r) == multiset(s) + multiset{x}
  {
    if s == [] || key(x) <= key(s[0]) then
      SortedCons(x, s, key);
      [x] + s
    else
      SortedTail(s, key);
      var rest := Insert(x, s[1..], key);
      assert s == [s[0]] + s[1..];
      assert multiset([s[0]] + rest) == multiset{s[0]} + multiset(rest);
      SortedCons(s[0], rest, key);
      [s[0]] + rest
  }

  lemma SortedTail<R>(s: seq<R>, key: R -> int)
    requires s != [] && SortedBy(s, key)
    ensures SortedBy(s[1..], key)
    ensures |s| > 1 ==> key(s[0]) <= key(s[1])
  {
    forall i, j | 0 <= i < j < |s[1..]| ensures key(s[1..][i]) <= key(s[1..][j]) {
      assert s[1..][i] == s[i + 1] && s[1..][j] == s[j + 1];
    }
  }

  lemma SortedCons<R>(h: R, t: seq<R>, key: R -> int)
    requires SortedBy(t, key) && (t != [] ==> key(h) <= key(t[0]))
    ensures SortedBy([h] + t, key)
  {
    forall i, j | 0 <= i < j < |[h] + t| ensures key(([h] + t)[i]) <= key(([h] + t)[j]) {
      if i == 0 {
        assert ([h] + t)[j] == t[j - 1];
        assert key(t[0]) <= key(t[j - 1]);
      } else {
        assert ([h] + t)[i] == t[i - 1] && ([h] + t)[j] == t[j - 1];
      }
    }
  }

  /** A stable insertion sort: one of the orders `ORDER BY` may return. */
  function SortBy<R(==)>(s: seq<R>, key: R -> int): (r: seq<R>)
    ensures SortedBy(r, key)
    ensures multiset(r) == multiset(s)
  {
    if s == [] then []
    else
      assert s == [s[0]] + s[1..];
      Insert(s[0], SortBy(s[1..], key), key)
  }

  // ---------------------------------------------------------------------------
  // select_table

  /** Every row of a monitored table, as `SELECT * FROM table` sees it. */
  function TableRows(db: Database, table: Table): seq<ChangeRow>
  {
    match table
    case FilmWorkTable => seq(|db.filmWork|, i requires 0 <= i < |db.filmWork| => FilmWorkChange(db.filmWork[i]))
    case PersonTable => seq(|db.person|, i requires 0 <= i < |db.person| => PersonChange(db.person[i]))
    case GenreTable => seq(|db.genre|, i requires 0 <= i < |db.genre| => GenreChange(db.genre[i]))
  }

  /** `WHERE modified > timestamp`, keeping the table's order. */
  function ModifiedAfter(rows: seq<ChangeRow>, timestamp: int): (r: seq<ChangeRow>)
    ensures forall x :: x in r <==> x in rows && x.Modified() > timestamp
    ensures forall x :: multiset(r)[x] == if x.Modified() > timestamp then multiset(rows)[x] else 0
  {
    if rows == [] then []
    else
      assert rows == [rows[0]] + rows[1..];
      (if rows[0].Modified() > timestamp then [rows[0]] else []) + ModifiedAfter(rows[1..], timestamp)
  }

  /** `SELECT * FROM table WHERE modified > timestamp ORDER BY modified`. */
  function SelectTable(db: Database, table: Table, timestamp: int): seq<ChangeRow>
  {
    SortBy(ModifiedAfter(TableRows(db, table), timestamp), ChangeModified)
  }

  /**
   * `select_table` returns exactly the table's rows modified after the
   * timestamp, each as often as it occurs in the table, in ascending
   * `modified` order.
   */
  lemma SelectTableExact(db: Database, table: Table, timestamp: int)
    ensures forall x :: x in SelectTable(db, table, timestamp) <==> x in TableRows(db, table) && x.Modified() > timestamp
    ensures forall x :: (multiset(SelectTable(db, table, timestamp))[x] ==
                         if x.Modified() > timestamp then multiset(TableRows(db, table))[x] else 0)
    ensures SortedBy(SelectTable(db, table, timestamp), ChangeModified)
  {
    var r := SelectTable(db, table, timestamp);
    forall x ensures x in r <==> x in TableRows(db, table) && x.Modified() > timestamp {
      assert x in r <==> x in multiset(r);
    }
  }

  // ---------------------------------------------------------------------------
  // get_updates

  /** `fetchmany(size)` repeated until it returns nothing: the non-empty chunks, in order. */
  function Chunks<R>(rows: seq<R>, size: nat): (cs: seq<seq<R>>)
    requires size > 0
    ensures Flatten(cs) == rows
    ensures rows == [] <==> cs == []
    decreases |rows|
  {
    if rows == [] then []
    else if |rows| <= size then [rows]
    else
      assert rows == rows[..size] + rows[size..];
      [rows[..size]] + Chunks(rows[size..], size)
  }

  /** Every chunk holds between 1 and `size` rows. */
  lemma {:induction false} ChunksSizes<R>(rows: seq<R>, size: nat)
    requires size > 0
    ensures forall i :: 0 <= i < |Chunks(rows, size)| ==> 0 < |Chunks(rows, size)[i]| <= size
    decreases |rows|
  {
    if |rows| > size {
      ChunksSizes(rows[size..], size);
    }
  }

  /** Each chunk labelled with its table. */
  function Tag(table: Table, chunks: seq<seq<ChangeRow>>): seq<Batch>
  {
    seq(|chunks|, i requires 0 <= i < |chunks| => Batch(table, chunks[i]))
  }

  lemma TagCons(table: Table, chunk: seq<ChangeRow>, chunks: seq<seq<ChangeRow>>)
    ensures Tag(table, [chunk] + chunks) == [Batch(table, chunk)] + Tag(table, chunks)
  {
    assert ([chunk] + chunks)[1..] == chunks;
  }

  /** The three query results of `get_updates`, one per table of `TABLES`, in that order. */
  function Queries(db: Database, timestamp: int): (qs: seq<(Table, seq<ChangeRow>)>)
    ensures |qs| == |TABLES|
    ensures forall k :: 0 <= k < |qs| ==> qs[k].0 == TABLES[k]
  {
    [(FilmWorkTable, SelectTable(db, FilmWorkTable, timestamp)),
     (PersonTable, SelectTable(db, PersonTable, timestamp)),
     (GenreTable, SelectTable(db, GenreTable, timestamp))]
  }

  /** The batches yielded by draining the given query results, in order. */
  function Drain(qs: seq<(Table, seq<ChangeRow>)>): seq<Batch>
  {
    if qs == [] then []
    else
      var last := qs[|qs| - 1];
      Drain(qs[..|qs| - 1]) + Tag(last.0, Chunks(last.1, BATCH_SIZE))
  }

  /** Everything `get_updates` yields when it does not raise. */
  function Batches(db: Database, timestamp: int): seq<Batch>
  {
    Drain(Queries(db, timestamp))
  }

  /** The condition under which `get_updates` raises `UpdatesNotFoundError`: no query returned a row. */
  predicate NoChanges(db: Database, timestamp: int)
  {
    forall k :: 0 <= k < |Queries(db, timestamp)| ==> Queries(db, timestamp)[k].1 == []
  }

  /** `while data := curs.fetchmany(BATCH_SIZE): yield (table, data)` over one query result. */
  method DrainCursor(table: Table, rows: seq<ChangeRow>) returns (out: seq<Batch>)
    ensures out == Tag(table, Chunks(rows, BATCH_SIZE))
  {
    ghost var whole := Tag(table, Chunks(rows, BATCH_SIZE));
    out := [];
    var pos := 0;
    assert rows[pos..] == rows;
    while pos < |rows|
      invariant 0 <= pos <= |rows|
      invariant out + Tag(table, Chunks(rows[pos..], BATCH_SIZE)) == whole
    {
      var n := if |rows| - pos < BATCH_SIZE then |rows| - pos else BATCH_SIZE;
      DrainStep(table, rows, pos, n, out);
      out := out + [Batch(table, rows[pos..pos + n])];
      pos := pos + n;
    }
    DrainDone(table, rows, pos, out, whole);
  }

  lemma DrainDone(table: Table, rows: seq<ChangeRow>, pos: nat, out: seq<Batch>, whole: seq<Batch>)
    requires pos == |rows| && out + Tag(table, Chunks(rows[pos..], BATCH_SIZE)) == whole
    ensures out == whole
  {
    assert Chunks(rows[pos..], BATCH_SIZE) == [];
  }

  /** The `for table, curs in updates.items()` loop of `get_updates`. */
  method DrainAll(qs: seq<(Table, seq<ChangeRow>)>) returns (out: seq<Batch>)
    ensures out == Drain(qs)
  {
    out := [];
    for k := 0 to |qs|
      invariant out == Drain(qs[..k])
    {
      var chunks := DrainCursor(qs[k].0, qs[k].1);
      out := out + chunks;
      assert qs[..k + 1][..k] == qs[..k];
    }
    assert qs[..|qs|] == qs;
  }

  /**
   * `get_updates`: run the three queries, raise when none returns a row, then
   * drain the results table by table.
   */
  method GetUpdates(db: Database, timestamp: int) returns (r: Updates)
    ensures r == UpdatesNotFound <==> NoChanges(db, timestamp)
    ensures r != UpdatesNotFound ==> r.batches == Batches(db, timestamp)
  {
    var updates := Queries(db, timestamp);
    if updates[0].1 == [] && updates[1].1 == [] && updates[2].1 == [] {
      return UpdatesNotFound;
    }
    var batches := DrainAll(updates);
    r := Found(batches);
  }

  /** One `fetchmany` of `DrainCursor`: the fetched chunk moves from what remains to what is yielded. */
  lemma DrainStep(table: Table, rows: seq<ChangeRow>, pos: nat, n: nat, out: seq<Batch>)
    requires pos < |rows| && n == (if |rows| - pos < BATCH_SIZE then |rows| - pos else BATCH_SIZE)
    ensures out + Tag(table, Chunks(rows[pos..], BATCH_SIZE)) ==
      (out + [Batch(table, rows[pos..pos + n])]) + Tag(table, Chunks(rows[pos + n..], BATCH_SIZE))
  {
    var rest := Tag(table, Chunks(rows[pos + n..], BATCH_SIZE));
    ChunksStep(rows, pos, n);
    TagCons(table, rows[pos..pos + n], Chunks(rows[pos + n..], BATCH_SIZE));
    assert (out + [Batch(table, rows[pos..pos + n])]) + rest == out + ([Batch(table, rows[pos..pos + n])] + rest);
  }

  /** One `fetchmany` takes the first chunk off what remains of the result. */
  lemma ChunksStep(rows: seq<ChangeRow>, pos: nat, n: nat)
    requires pos < |rows| && n == (if |rows| - pos < BATCH_SIZE then |rows| - pos else BATCH_SIZE)
    ensures Chunks(rows[pos..], BATCH_SIZE) == [rows[pos..pos + n]] + Chunks(rows[pos + n..], BATCH_SIZE)
  {
    if |rows| - pos > BATCH_SIZE {
      assert rows[pos..][..BATCH_SIZE] == rows[pos..pos + n];
      assert rows[pos..][BATCH_SIZE..] == rows[pos + n..];
    } else {
      assert rows[pos + n..] == [];
      assert rows[pos..] == rows[pos..pos + n];
    }
  }

  /** The batches, table by table: film_work first, then person, then genre. */
  lemma BatchesByTable(db: Database, timestamp: int)
    ensures Batches(db, timestamp) ==
      Tag(FilmWorkTable, Chunks(SelectTable(db, FilmWorkTable, timestamp), BATCH_SIZE)) +
      Tag(PersonTable, Chunks(SelectTable(db, PersonTable, timestamp), BATCH_SIZE)) +
      Tag(GenreTable, Chunks(SelectTable(db, GenreTable, timestamp), BATCH_SIZE))
  {
    DrainThree(Queries(db, timestamp));
  }

  /** Draining three query results drains each in turn. */
  lemma DrainThree(qs: seq<(Table, seq<ChangeRow>)>)
    requires |qs| == 3
    ensures Drain(qs) ==
      Tag(qs[0].0, Chunks(qs[0].1, BATCH_SIZE)) + Tag(qs[1].0, Chunks(qs[1].1, BATCH_SIZE)) +
      Tag(qs[2].0, Chunks(qs[2].1, BATCH_SIZE))
  {
    assert qs[..1][..0] == [];
    assert Drain(qs[..1]) == Tag(qs[0].0, Chunks(qs[0].1, BATCH_SIZE));
    assert qs[..2][..1] == qs[..1];
    assert Drain(qs[..2]) == Drain(qs[..1]) + Tag(qs[1].0, Chunks(qs[1].1, BATCH_SIZE));
    assert qs[..|qs| - 1] == qs[..2];
  }

  /** The rows of the batches of one table, concatenated in order. */
  function RowsOf(bs: seq<Batch>, table: Table): seq<ChangeRow>
  {
    if bs == [] then [] else (if bs[0].table == table then bs[0].rows else []) + RowsOf(bs[1..], table)
  }

  lemma {:induction false} RowsOfAppend(a: seq<Batch>, b: seq<Batch>, table: Table)
    ensures RowsOf(a + b, table) == RowsOf(a, table) + RowsOf(b, table)
  {
    if a == [] {
      assert a + b == b;
    } else {
      assert (a + b)[1..] == a[1..] + b;
      RowsOfAppend(a[1..], b, table);
    }
  }

  lemma {:induction false} RowsOfTag(tagged: Table, chunks: seq<seq<ChangeRow>>, table: Table)
    ensures RowsOf(Tag(tagged, chunks), table) == if tagged == table then Flatten(chunks) else []
  {
    if chunks != [] {
      RowsOfTag(tagged, chunks[1..], table);
      assert Tag(tagged, chunks)[1..] == Tag(tagged, chunks[1..]);
    }
  }

  /**
   * Per table, the yielded batches concatenated in order are exactly that
   * table's query result.
   */
  lemma BatchesPerTable(db: Database, timestamp: int, table: Table)
    ensures RowsOf(Batches(db, timestamp), table) == SelectTable(db, table, timestamp)
  {
    BatchesByTable(db, timestamp);
    RowsOfTables(SelectTable(db, FilmWorkTable, timestamp), SelectTable(db, PersonTable, timestamp),
                 SelectTable(db, GenreTable, timestamp), table);
  }

  /** The rows of one table among three runs of tagged chunks, one run per table in `TABLES` order. */
  lemma RowsOfTables(fa: seq<ChangeRow>, fb: seq<ChangeRow>, fc: seq<ChangeRow>, table: Table)
    ensures RowsOf(Tag(FilmWorkTable, Chunks(fa, BATCH_SIZE)) + Tag(PersonTable, Chunks(fb, BATCH_SIZE)) +
                   Tag(GenreTable, Chunks(fc, BATCH_SIZE)), table)
         == match table case FilmWorkTable => fa case PersonTable => fb case GenreTable => fc
  {
    var a := Tag(FilmWorkTable, Chunks(fa, BATCH_SIZE));
    var b := Tag(PersonTable, Chunks(fb, BATCH_SIZE));
    var c := Tag(GenreTable, Chunks(fc, BATCH_SIZE));
    RowsOfAppend(a + b, c, table);
    RowsOfAppend(a, b, table);
    RowsOfTag(FilmWorkTable, Chunks(fa, BATCH_SIZE), table);
    RowsOfTag(PersonTable, Chunks(fb, BATCH_SIZE), table);
    RowsOfTag(GenreTable, Chunks(fc, BATCH_SIZE), table);
    match table
    case FilmWorkTable => assert fa + [] + [] == fa;
    case PersonTable => assert [] + fb + [] == fb;
    case GenreTable => assert [] + [] + fc == fc;
  }

  /** The position of a table in `TABLES`. */
  function TableIndex(table: Table): (i: nat)
    ensures i < |TABLES| && TABLES[i] == table
  {
    match table
    case FilmWorkTable => 0
    case PersonTable => 1
    case GenreTable => 2
  }

  /** Three runs of tagged chunks, sized as `Chunks` sizes them, in `TABLES` order. */
  lemma {:induction false} TaggedShape(fa: seq<seq<ChangeRow>>, fb: seq<seq<ChangeRow>>, fc: seq<seq<ChangeRow>>)
    requires forall i :: 0 <= i < |fa| ==> 0 < |fa[i]| <= BATCH_SIZE
    requires forall i :: 0 <= i < |fb| ==> 0 < |fb[i]| <= BATCH_SIZE
    requires forall i :: 0 <= i < |fc| ==> 0 < |fc[i]| <= BATCH_SIZE
    ensures var bs := Tag(FilmWorkTable, fa) + Tag(PersonTable, fb) + Tag(GenreTable, fc);
      && (forall i :: 0 <= i < |bs| ==> 0 < |bs[i].rows| <= BATCH_SIZE)
      && (forall i, j :: 0 <= i < j < |bs| ==> TableIndex(bs[i].table) <= TableIndex(bs[j].table))
  {
    var a, b, c := Tag(FilmWorkTable, fa), Tag(PersonTable, fb), Tag(GenreTable, fc);
    var bs := a + b + c;
    forall i | 0 <= i < |bs|
      ensures 0 < |bs[i].rows| <= BATCH_SIZE
      ensures TableIndex(bs[i].table) == if i < |a| then 0 else if i < |a| + |b| then 1 else 2
    {
      if i < |a| {
        assert bs[i] == a[i];
      } else if i < |a| + |b| {
        assert bs[i] == b[i - |a|];
      } else {
        assert bs[i] == c[i - |a| - |b|];
      }
    }
  }

  /**
   * Every yielded batch holds between 1 and `BATCH_SIZE` rows, and the
   * batches come table by table in the order of `TABLES`.
   */
  lemma BatchShape(db: Database, timestamp: int)
    ensures forall i :: 0 <= i < |Batches(db, timestamp)| ==> 0 < |Batches(db, timestamp)[i].rows| <= BATCH_SIZE
    ensures forall i, j :: 0 <= i < j < |Batches(db, timestamp)| ==>
      TableIndex(Batches(db, timestamp)[i].table) <= TableIndex(Batches(db, timestamp)[j].table)
  {
    BatchesByTable(db, timestamp);
    ChunksSizes(SelectTable(db, FilmWorkTable, timestamp), BATCH_SIZE);
    ChunksSizes(SelectTable(db, PersonTable, timestamp), BATCH_SIZE);
    ChunksSizes(SelectTable(db, GenreTable, timestamp), BATCH_SIZE);
    TaggedShape(Chunks(SelectTable(db, FilmWorkTable, timestamp), BATCH_SIZE),
                Chunks(SelectTable(db, PersonTable, timestamp), BATCH_SIZE),
                Chunks(SelectTable(db, GenreTable, timestamp), BATCH_SIZE));
  }

  // ---------------------------------------------------------------------------
  // get_film_work_ids

  /** `x`, `n` times. */
  function Repeat<T>(x: T, n: nat): (r: seq<T>)
    ensures |r| == n
    ensures forall i :: 0 <= i < n ==> r[i] == x
  {
    if n == 0 then [] else [x] + Repeat(x, n - 1)
  }

  /** The `{table}_film_work` rows as (film id, entity id) pairs; film_work has no link table. */
  function Links(db: Database, table: Table): seq<(FilmId, string)>
  {
    match table
    case FilmWorkTable => []
    case PersonTable =>
      seq(|db.personFilmWork|, i requires 0 <= i < |db.personFilmWork| =>
        (db.personFilmWork[i].filmWorkId, db.personFilmWork[i].personId))
    case GenreTable =>
      seq(|db.genreFilmWork|, i requires 0 <= i < |db.genreFilmWork| =>
        (db.genreFilmWork[i].filmWorkId, db.genreFilmWork[i].genreId))
  }

  /** How many link rows tie `film` to one of `ids`: the rows the join produces for that film. */
  function LinkCount(links: seq<(FilmId, string)>, film: FilmId, ids: set<string>): (n: nat)
    ensures n > 0 <==> exists i :: 0 <= i < |links| && links[i].0 == film && links[i].1 in ids
    ensures n <= |links|
  {
    if links == [] then 0
    else
      var rest := LinkCount(links[1..], film, ids);
      assert forall i :: 1 <= i < |links| ==> links[i] == links[1..][i - 1];
      (if links[0].0 == film && links[0].1 in ids then 1 else 0) + rest
  }

  /** `SortedBy` over a concatenation: both parts sorted and every key of the first at most every key of the second. */
  lemma SortedConcat<R>(a: seq<R>, b: seq<R>, key: R -> int)
    requires SortedBy(a, key) && SortedBy(b, key)
    requires forall i, j :: 0 <= i < |a| && 0 <= j < |b| ==> key(a[i]) <= key(b[j])
    ensures SortedBy(a + b, key)
  {
    forall i, j | 0 <= i < j < |a + b| ensures key((a + b)[i]) <= key((a + b)[j]) {
      if j < |a| {
        assert (a + b)[i] == a[i] && (a + b)[j] == a[j];
      } else if i < |a| {
        assert (a + b)[i] == a[i] && (a + b)[j] == b[j - |a|];
      } else {
        assert (a + b)[i] == b[i - |a|] && (a + b)[j] == b[j - |a|];
      }
    }
  }

  /**
   * `film_work fw JOIN link ON link.film_work_id = fw.id WHERE link.entity_id
   * IN ids`, one output row per matching link, in the order of `films`.
   */
  function JoinFilms(films: seq<FilmWorkRow>, links: seq<(FilmId, string)>, ids: set<string>): (r: seq<FilmWorkRow>)
    ensures forall f :: f in r <==> f in films && LinkCount(links, f.id, ids) > 0
  {
    if films == [] then []
    else
      var block := Repeat(films[0], LinkCount(links, films[0].id, ids));
      assert forall f :: f in block <==> f == films[0] && LinkCount(links, films[0].id, ids) > 0 by {
        if |block| > 0 {
          assert block[0] == films[0];
        }
      }
      assert films == [films[0]] + films[1..];
      block + JoinFilms(films[1..], links, ids)
  }

  lemma {:induction false} MultisetRepeat<T>(x: T, n: nat)
    ensures forall g :: multiset(Repeat(x, n))[g] == if g == x then n else 0
  {
    if n > 0 {
      MultisetRepeat(x, n - 1);
      assert Repeat(x, n) == [x] + Repeat(x, n - 1);
    }
  }

  /** No deduplication: each film occurs once per link row that ties it to the batch. */
  lemma {:induction false} JoinFilmsCount(films: seq<FilmWorkRow>, links: seq<(FilmId, string)>, ids: set<string>, f: FilmWorkRow)
    ensures multiset(JoinFilms(films, links, ids))[f] == multiset(films)[f] * LinkCount(links, f.id, ids)
  {
    if films != [] {
      var k := LinkCount(links, f.id, ids);
      JoinFilmsCount(films[1..], links, ids, f);
      var d := JoinFilmsHead(films, links, ids, f);
      CountStep(multiset(JoinFilms(films, links, ids))[f], multiset(JoinFilms(films[1..], links, ids))[f],
                multiset(films)[f], multiset(films[1..])[f], d, k);
    }
  }

  /** The first film's block adds its link count to the count of `f` when it is `f`. */
  lemma JoinFilmsHead(films: seq<FilmWorkRow>, links: seq<(FilmId, string)>, ids: set<string>, f: FilmWorkRow)
    returns (d: nat)
    requires films != []
    ensures d <= 1
    ensures multiset(films)[f] == multiset(films[1..])[f] + d
    ensures multiset(JoinFilms(films, links, ids))[f]
         == d * LinkCount(links, f.id, ids) + multiset(JoinFilms(films[1..], links, ids))[f]
  {
    var g := films[0];
    var n := LinkCount(links, g.id, ids);
    MultisetRepeat(g, n);
    assert JoinFilms(films, links, ids) == Repeat(g, n) + JoinFilms(films[1..], links, ids);
    assert films == [g] + films[1..];
    d := if f == g then 1 else 0;
  }

  /** The arithmetic of one step of `JoinFilmsCount`. */
  lemma CountStep(a: nat, a1: nat, c: nat, c1: nat, d: nat, k: nat)
    requires c == c1 + d && a == d * k + a1 && a1 == c1 * k
    ensures a == c * k
  {
    assert (c1 + d) * k == d * k + c1 * k;
  }

  /** The join keeps the order of `films`: sorted by `modified` in, sorted out. */
  lemma {:induction false} JoinFilmsSorted(films: seq<FilmWorkRow>, links: seq<(FilmId, string)>, ids: set<string>)
    requires SortedBy(films, FilmModified)
    ensures SortedBy(JoinFilms(films, links, ids), FilmModified)
  {
    if films != [] {
      var block := Repeat(films[0], LinkCount(links, films[0].id, ids));
      var rest := JoinFilms(films[1..], links, ids);
      assert SortedBy(films[1..], FilmModified) by {
        forall i, j | 0 <= i < j < |films[1..]| ensures FilmModified(films[1..][i]) <= FilmModified(films[1..][j]) {
          assert films[1..][i] == films[i + 1] && films[1..][j] == films[j + 1];
        }
      }
      JoinFilmsSorted(films[1..], links, ids);
      forall i, j | 0 <= i < |block| && 0 <= j < |rest| ensures FilmModified(block[i]) <= FilmModified(rest[j]) {
        assert rest[j] in rest;
        var k :| 0 <= k < |films[1..]| && films[1..][k] == rest[j];
        assert films[k + 1] == rest[j];
      }
      SortedConcat(block, rest, FilmModified);
    }
  }

  /** The ids of a sequence of film rows, in order. */
  function FilmIds(films: seq<FilmWorkRow>): (r: seq<FilmId>)
    ensures |r| == |films|
    ensures forall i :: 0 <= i < |films| ==> r[i] == films[i].id
  {
    seq(|films|, i requires 0 <= i < |films| => films[i].id)
  }

  /** The ids of a batch's rows: the `IN (...)` list of `get_film_work_ids`. */
  function BatchIds(rows: seq<ChangeRow>): set<string>
  {
    set r | r in rows :: r.Id()
  }

  /**
   * `get_film_work_ids`: the batch's own ids for film_work; for person and
   * genre, the ids of the films linked to a row of the batch, ordered by the
   * films' `modified`, once per link.
   */
  function GetFilmWorkIds(db: Database, table: Table, rows: seq<ChangeRow>): (r: seq<FilmId>)
    ensures table == FilmWorkTable ==> |r| == |rows| && forall i :: 0 <= i < |rows| ==> r[i] == rows[i].Id()
  {
    if table == FilmWorkTable then seq(|rows|, i requires 0 <= i < |rows| => rows[i].Id())
    else FilmIds(JoinFilms(SortBy(db.filmWork, FilmModified), Links(db, table), BatchIds(rows)))
  }

  /**
   * For person and genre, a film id is yielded exactly when a film with that
   * id has a link row to an entity of the batch, and the yielded films come
   * in ascending `modified` order.
   */
  lemma FilmWorkIdsLinked(db: Database, table: Table, rows: seq<ChangeRow>, x: FilmId)
    requires table != FilmWorkTable
    ensures x in GetFilmWorkIds(db, table, rows) <==>
      exists f :: f in db.filmWork && f.id == x && LinkCount(Links(db, table), x, BatchIds(rows)) > 0
  {
    var links, ids := Links(db, table), BatchIds(rows);
    var sorted := SortBy(db.filmWork, FilmModified);
    var joined := JoinFilms(sorted, links, ids);
    assert GetFilmWorkIds(db, table, rows) == FilmIds(joined);
    FilmIdsMembers(joined, x);
    if exists f :: f in joined && f.id == x {
      var f :| f in joined && f.id == x;
      assert f in multiset(sorted);
    }
    if exists f :: f in db.filmWork && f.id == x && LinkCount(links, x, ids) > 0 {
      var f :| f in db.filmWork && f.id == x && LinkCount(links, x, ids) > 0;
      assert f in multiset(db.filmWork);
      assert f in joined;
    }
  }

  /** An id occurs in `FilmIds(films)` exactly when a film of `films` has it. */
  lemma FilmIdsMembers(films: seq<FilmWorkRow>, x: FilmId)
    ensures x in FilmIds(films) <==> exists f :: f in films && f.id == x
  {
    var r := FilmIds(films);
    if x in r {
      var i :| 0 <= i < |r| && r[i] == x;
      assert films[i] in films;
    }
    if exists f :: f in films && f.id == x {
      var f :| f in films && f.id == x;
      var i :| 0 <= i < |films| && films[i] == f;
      assert r[i] == x;
    }
  }

  /**
   * For person and genre, the yielded ids are those of the joined films, in
   * ascending `modified` order, each film as often as it has links to the batch.
   */
  lemma FilmWorkIdsOrdered(db: Database, table: Table, rows: seq<ChangeRow>, f: FilmWorkRow)
    requires table != FilmWorkTable
    ensures var joined := JoinFilms(SortBy(db.filmWork, FilmModified), Links(db, table), BatchIds(rows));
      && GetFilmWorkIds(db, table, rows) == FilmIds(joined)
      && SortedBy(joined, FilmModified)
      && multiset(joined)[f] == multiset(db.filmWork)[f] * LinkCount(Links(db, table), f.id, BatchIds(rows))
  {
    JoinFilmsSorted(SortBy(db.filmWork, FilmModified), Links(db, table), BatchIds(rows));
    JoinFilmsCount(SortBy(db.filmWork, FilmModified), Links(db, table), BatchIds(rows), f);
  }

  // ---------------------------------------------------------------------------
  // get_movie_data

  /** The person columns of one joined row: `pfw.role`, `p.id AS person_id`, `p.full_name`. */
  datatype PersonPart = PersonPart(role: Option<string>, personId: Value, fullName: Value)

  /** The result of `get_movie_data`: its rows, or the error PostgreSQL raises for `IN ()`. */
  datatype MovieQuery = MovieRows(rows: seq<MovieRow>) | EmptyInList

  /** The film a person_film_work row points to. */
  function PersonLinkFilm(l: PersonFilmWork): FilmId { l.filmWorkId }

  /** The film a genre_film_work row points to. */
  function GenreLinkFilm(l: GenreFilmWork): FilmId { l.filmWorkId }

  /** The rows of a `{table}_film_work` table that point to one film, in table order. */
  function LinksOf<L(!new)>(links: seq<L>, filmOf: L -> FilmId, film: FilmId): (r: seq<L>)
    ensures forall l :: l in r <==> l in links && filmOf(l) == film
  {
    if links == [] then []
    else
      assert links == [links[0]] + links[1..];
      (if filmOf(links[0]) == film then [links[0]] else []) + LinksOf(links[1..], filmOf, film)
  }

  /** The person rows with the given id, in table order. */
  function PersonsWithId(persons: seq<PersonRow>, id: string): (r: seq<PersonRow>)
    ensures forall p :: p in r <==> p in persons && p.id == id
  {
    if persons == [] then []
    else
      assert persons == [persons[0]] + persons[1..];
      (if persons[0].id == id then [persons[0]] else []) + PersonsWithId(persons[1..], id)
  }

  /** `LEFT JOIN person p ON p.id = pfw.person_id` for one link: the matching persons, or NULLs. */
  function LinkPersonParts(persons: seq<PersonRow>, l: PersonFilmWork): (ps: seq<PersonPart>)
    ensures |ps| >= 1
    ensures forall q :: q in ps ==> q.role == l.role
    ensures forall p :: p in persons && p.id == l.personId ==> PersonPart(l.role, Text(p.id), p.fullName) in ps
  {
    var matched := PersonsWithId(persons, l.personId);
    if matched == [] then [PersonPart(l.role, Null, Null)]
    else
      var ps := seq(|matched|, i requires 0 <= i < |matched| => PersonPart(l.role, Text(matched[i].id), matched[i].fullName));
      assert forall p :: p in matched ==> PersonPart(l.role, Text(p.id), p.fullName) in ps by {
        forall p | p in matched ensures PersonPart(l.role, Text(p.id), p.fullName) in ps {
          var i :| 0 <= i < |matched| && matched[i] == p;
          assert ps[i] == PersonPart(l.role, Text(p.id), p.fullName);
        }
      }
      ps
  }

  /** The person parts of all the given links, in order. */
  function LinksPersonParts(persons: seq<PersonRow>, links: seq<PersonFilmWork>): (ps: seq<PersonPart>)
    ensures |ps| >= |links|
    ensures forall l, p :: l in links && p in persons && p.id == l.personId ==> PersonPart(l.role, Text(p.id), p.fullName) in ps
  {
    if links == [] then []
    else
      assert links == [links[0]] + links[1..];
      LinkPersonParts(persons, links[0]) + LinksPersonParts(persons, links[1..])
  }

  /** The person columns of a film's joined rows: one NULL part when the film has no person links. */
  function PersonParts(db: Database, film: FilmId): (ps: seq<PersonPart>)
    ensures |ps| >= 1
  {
    var links := LinksOf(db.personFilmWork, PersonLinkFilm, film);
    if links == [] then [PersonPart(None, Null, Null)] else LinksPersonParts(db.person, links)
  }

  /** The genre rows with the given id, in table order. */
  function GenresWithId(genres: seq<GenreRow>, id: string): (r: seq<GenreRow>)
    ensures forall g :: g in r <==> g in genres && g.id == id
  {
    if genres == [] then []
    else
      assert genres == [genres[0]] + genres[1..];
      (if genres[0].id == id then [genres[0]] else []) + GenresWithId(genres[1..], id)
  }

  /** `LEFT JOIN genre g ON g.id = gfw.genre_id` for one link: the matching genres' names, or NULL. */
  function LinkGenreNames(genres: seq<GenreRow>, l: GenreFilmWork): (gs: seq<Value>)
    ensures |gs| >= 1
    ensures forall g :: g in genres && g.id == l.genreId ==> g.name in gs
  {
    var matched := GenresWithId(genres, l.genreId);
    if matched == [] then [Null]
    else
      var gs := seq(|matched|, i requires 0 <= i < |matched| => matched[i].name);
      assert forall g :: g in matched ==> g.name in gs by {
        forall g | g in matched ensures g.name in gs {
          var i :| 0 <= i < |matched| && matched[i] == g;
          assert gs[i] == g.name;
        }
      }
      gs
  }

  /** The genre names of all the given links, in order. */
  function LinksGenreNames(genres: seq<GenreRow>, links: seq<GenreFilmWork>): (gs: seq<Value>)
    ensures |gs| >= |links|
    ensures forall l, g :: l in links && g in genres && g.id == l.genreId ==> g.name in gs
  {
    if links == [] then []
    else
      assert links == [links[0]] + links[1..];
      LinkGenreNames(genres, links[0]) + LinksGenreNames(genres, links[1..])
  }

  /** The `genre_name` column of a film's joined rows: one NULL when the film has no genre links. */
  function GenreNames(db: Database, film: FilmId): (gs: seq<Value>)
    ensures |gs| >= 1
  {
    var links := LinksOf(db.genreFilmWork, GenreLinkFilm, film);
    if links == [] then [Null] else LinksGenreNames(db.genre, links)
  }

  function JoinedRow(f: FilmWorkRow, p: PersonPart, genreName: Value): MovieRow
  {
    MovieRow(f.id, f.title, f.description, f.rating, p.role, p.personId, p.fullName, genreName)
  }

  /** Every combination of a person part and a genre name, person-major. */
  function Cross(f: FilmWorkRow, ps: seq<PersonPart>, gs: seq<Value>): (r: seq<MovieRow>)
    ensures |r| == |ps| * |gs|
    ensures ps != [] ==> |r| >= |gs|
    ensures forall m :: m in r ==> m.id == f.id
  {
    if ps == [] then []
    else
      var head := seq(|gs|, j requires 0 <= j < |gs| => JoinedRow(f, ps[0], gs[j]));
      var rest := Cross(f, ps[1..], gs);
      assert |head + rest| == |ps| * |gs| by {
        assert |ps| * |gs| == |gs| + |ps[1..]| * |gs|;
      }
      head + rest
  }

  /** Every combination of a person part and a genre name is a row of the cross product. */
  lemma {:induction false} CrossHas(f: FilmWorkRow, ps: seq<PersonPart>, gs: seq<Value>, p: PersonPart, g: Value)
    requires p in ps && g in gs
    ensures JoinedRow(f, p, g) in Cross(f, ps, gs)
  {
    var head := seq(|gs|, j requires 0 <= j < |gs| => JoinedRow(f, ps[0], gs[j]));
    assert Cross(f, ps, gs) == head + Cross(f, ps[1..], gs);
    if p == ps[0] {
      var j :| 0 <= j < |gs| && gs[j] == g;
      assert head[j] == JoinedRow(f, p, g);
    } else {
      assert ps == [ps[0]] + ps[1..];
      CrossHas(f, ps[1..], gs, p, g);
    }
  }

  /** Every row of the cross product combines a person part and a genre name of its inputs. */
  lemma {:induction false} CrossOnly(f: FilmWorkRow, ps: seq<PersonPart>, gs: seq<Value>, m: MovieRow)
    returns (p: PersonPart, g: Value)
    requires m in Cross(f, ps, gs)
    ensures p in ps && g in gs && m == JoinedRow(f, p, g)
  {
    var head := seq(|gs|, j requires 0 <= j < |gs| => JoinedRow(f, ps[0], gs[j]));
    assert Cross(f, ps, gs) == head + Cross(f, ps[1..], gs);
    if m in head {
      var j :| 0 <= j < |gs| && head[j] == m;
      p, g := ps[0], gs[j];
    } else {
      p, g := CrossOnly(f, ps[1..], gs, m);
      assert ps == [ps[0]] + ps[1..];
    }
  }

  /** The joined rows of one film. */
  function FilmRows(db: Database, f: FilmWorkRow): (r: seq<MovieRow>)
    ensures |r| >= 1
    ensures forall m :: m in r ==> m.id == f.id
  {
    var ps := PersonParts(db, f.id);
    var gs := GenreNames(db, f.id);
    Cross(f, ps, gs)
  }

  /** The rows of the LEFT JOIN for the films among `films` whose id is in `ids`, film by film. */
  function MovieData(db: Database, films: seq<FilmWorkRow>, ids: set<FilmId>): (r: seq<MovieRow>)
    ensures forall m :: m in r ==> m.id in ids
  {
    if films == [] then []
    else
      assert films == [films[0]] + films[1..];
      (if films[0].id in ids then FilmRows(db, films[0]) else []) + MovieData(db, films[1..], ids)
  }

  /**
   * `get_movie_data`: the LEFT JOIN of film_work with its persons and genres,
   * restricted to the requested ids; an empty id collection renders `IN ()`,
   * which PostgreSQL rejects.
   */
  function GetMovieData(db: Database, ids: set<FilmId>): (q: MovieQuery)
    ensures q == EmptyInList <==> ids == {}
    ensures q.MovieRows? ==> forall m :: m in q.rows ==> m.id in ids
  {
    if ids == {} then EmptyInList else MovieRows(MovieData(db, db.filmWork, ids))
  }

  /** A film's rows of the join, wherever they occur among the films. */
  lemma {:induction false} FilmRowsInData(db: Database, films: seq<FilmWorkRow>, ids: set<FilmId>, f: FilmWorkRow)
    requires f in films && f.id in ids
    ensures forall m :: m in FilmRows(db, f) ==> m in MovieData(db, films, ids)
  {
    if films[0] != f {
      FilmRowsInData(db, films[1..], ids, f);
    }
  }

  /** LEFT JOIN: every requested film of the table yields at least one row. */
  lemma EveryFilmHasRows(db: Database, ids: set<FilmId>, f: FilmWorkRow)
    requires f in db.filmWork && f.id in ids
    ensures GetMovieData(db, ids).MovieRows?
    ensures exists m :: m in GetMovieData(db, ids).rows && m.id == f.id
  {
    FilmRowsInData(db, db.filmWork, ids, f);
    assert FilmRows(db, f)[0] in FilmRows(db, f);
  }

  /**
   * A person tied to a requested film by a person_film_work row appears in a
   * row of that film, with the link's role.
   */
  lemma LinkedPersonAppears(db: Database, ids: set<FilmId>, f: FilmWorkRow, l: PersonFilmWork, p: PersonRow)
    requires f in db.filmWork && f.id in ids
    requires l in db.personFilmWork && l.filmWorkId == f.id && p in db.person && p.id == l.personId
    ensures GetMovieData(db, ids).MovieRows?
    ensures exists m :: (m in GetMovieData(db, ids).rows && m.id == f.id && m.role == l.role &&
                         m.personId == Text(p.id) && m.fullName == p.fullName)
  {
    var gs := GenreNames(db, f.id);
    var part := PersonPart(l.role, Text(p.id), p.fullName);
    assert l in LinksOf(db.personFilmWork, PersonLinkFilm, f.id);
    assert part in PersonParts(db, f.id);
    assert gs[0] in gs;
    CrossHas(f, PersonParts(db, f.id), gs, part, gs[0]);
    FilmRowsInData(db, db.filmWork, ids, f);
  }

  /** A genre tied to a requested film by a genre_film_work row appears in a row of that film. */
  lemma LinkedGenreAppears(db: Database, ids: set<FilmId>, f: FilmWorkRow, l: GenreFilmWork, g: GenreRow)
    requires f in db.filmWork && f.id in ids
    requires l in db.genreFilmWork && l.filmWorkId == f.id && g in db.genre && g.id == l.genreId
    ensures GetMovieData(db, ids).MovieRows?
    ensures exists m :: m in GetMovieData(db, ids).rows && m.id == f.id && m.genreName == g.name
  {
    var ps := PersonParts(db, f.id);
    assert l in LinksOf(db.genreFilmWork, GenreLinkFilm, f.id);
    assert g.name in GenreNames(db, f.id);
    assert ps[0] in ps;
    CrossHas(f, ps, GenreNames(db, f.id), ps[0], g.name);
    FilmRowsInData(db, db.filmWork, ids, f);
  }

  /** A film without person links has NULL person columns; one without genre links, a NULL genre. */
  lemma UnlinkedFilmNulls(db: Database, f: FilmWorkRow)
    ensures LinksOf(db.personFilmWork, PersonLinkFilm, f.id) == [] ==>
      forall m :: m in FilmRows(db, f) ==> m.role == None && m.personId == Null && m.fullName == Null
    ensures LinksOf(db.genreFilmWork, GenreLinkFilm, f.id) == [] ==>
      forall m :: m in FilmRows(db, f) ==> m.genreName == Null
  {
    forall m | m in FilmRows(db, f)
      ensures LinksOf(db.personFilmWork, PersonLinkFilm, f.id) == [] ==> m.role == None && m.personId == Null && m.fullName == Null
      ensures LinksOf(db.genreFilmWork, GenreLinkFilm, f.id) == [] ==> m.genreName == Null
    {
      var p, g := CrossOnly(f, PersonParts(db, f.id), GenreNames(db, f.id), m);
    }
  }

  /**
   * Converse of `LinkPersonParts`: a part of one link is the link's NULL part
   * when no person row matches it, and otherwise a matching person's columns.
   */
  lemma LinkPersonPartsOrigin(persons: seq<PersonRow>, l: PersonFilmWork, q: PersonPart) returns (p: PersonRow)
    requires q in LinkPersonParts(persons, l)
    ensures q.personId == Null ==> q == PersonPart(l.role, Null, Null) && forall p' :: p' in persons ==> p'.id != l.personId
    ensures q.personId != Null ==> p in persons && p.id == l.personId && q == PersonPart(l.role, Text(p.id), p.fullName)
  {
    var matched := PersonsWithId(persons, l.personId);
    p := PersonRow("", Null, 0);
    if matched != [] {
      var ps := seq(|matched|, i requires 0 <= i < |matched| => PersonPart(l.role, Text(matched[i].id), matched[i].fullName));
      assert q in ps;
      var i :| 0 <= i < |ps| && ps[i] == q;
      p := matched[i];
      assert p in matched;
    }
  }

  /** Every part of several links is a part of one of them. */
  lemma {:induction false} LinksPersonPartsOrigin(persons: seq<PersonRow>, links: seq<PersonFilmWork>, q: PersonPart)
    returns (l: PersonFilmWork)
    requires q in LinksPersonParts(persons, links)
    ensures l in links && q in LinkPersonParts(persons, l)
  {
    assert links == [links[0]] + links[1..];
    if q in LinkPersonParts(persons, links[0]) {
      l := links[0];
    } else {
      l := LinksPersonPartsOrigin(persons, links[1..], q);
    }
  }

  /**
   * Converse of the person half of the join: a person part of a film's rows is
   * either NULL (no link at all, or a link whose person row is missing) or the
   * columns of a person row that a link of this film points to, with its role.
   */
  lemma PersonPartsOrigin(db: Database, film: FilmId, q: PersonPart) returns (l: PersonFilmWork, p: PersonRow)
    requires q in PersonParts(db, film)
    ensures q.personId == Null ==>
      q.fullName == Null &&
      ((LinksOf(db.personFilmWork, PersonLinkFilm, film) == [] && q.role == None) ||
       (l in db.personFilmWork && l.filmWorkId == film && q.role == l.role &&
        forall p' :: p' in db.person ==> p'.id != l.personId))
    ensures q.personId != Null ==>
      l in db.personFilmWork && l.filmWorkId == film && p in db.person && p.id == l.personId &&
      q == PersonPart(l.role, Text(p.id), p.fullName)
  {
    var links := LinksOf(db.personFilmWork, PersonLinkFilm, film);
    l, p := PersonFilmWork(film, "", None), PersonRow("", Null, 0);
    if links != [] {
      l := LinksPersonPartsOrigin(db.person, links, q);
      p := LinkPersonPartsOrigin(db.person, l, q);
    }
  }

  /**
   * Converse of `LinkGenreNames`: a genre name of one link is NULL when no genre
   * row matches it, and otherwise the name of a matching genre row.
   */
  lemma LinkGenreNamesOrigin(genres: seq<GenreRow>, l: GenreFilmWork, v: Value) returns (g: GenreRow)
    requires v in LinkGenreNames(genres, l)
    ensures (g in genres && g.id == l.genreId && v == g.name) ||
            (v == Null && forall g' :: g' in genres ==> g'.id != l.genreId)
  {
    var matched := GenresWithId(genres, l.genreId);
    g := GenreRow("", Null, Null, 0);
    if matched != [] {
      var gs := seq(|matched|, i requires 0 <= i < |matched| => matched[i].name);
      assert v in gs;
      var i :| 0 <= i < |gs| && gs[i] == v;
      g := matched[i];
      assert g in matched;
    }
  }

  /** Every genre name of several links is a name of one of them. */
  lemma {:induction false} LinksGenreNamesOrigin(genres: seq<GenreRow>, links: seq<GenreFilmWork>, v: Value)
    returns (l: GenreFilmWork)
    requires v in LinksGenreNames(genres, links)
    ensures l in links && v in LinkGenreNames(genres, l)
  {
    assert links == [links[0]] + links[1..];
    if v in LinkGenreNames(genres, links[0]) {
      l := links[0];
    } else {
      l := LinksGenreNamesOrigin(genres, links[1..], v);
    }
  }

  /**
   * Converse of the genre half of the join: a genre name of a film's rows is
   * the name of a genre row that a link of this film points to, or NULL for a
   * film without genre links or a link whose genre row is missing.
   */
  lemma GenreNamesOrigin(db: Database, film: FilmId, v: Value) returns (l: GenreFilmWork, g: GenreRow)
    requires v in GenreNames(db, film)
    ensures (l in db.genreFilmWork && l.filmWorkId == film && g in db.genre && g.id == l.genreId && v == g.name) ||
            (v == Null && LinksOf(db.genreFilmWork, GenreLinkFilm, film) == []) ||
            (v == Null && l in db.genreFilmWork && l.filmWorkId == film && forall g' :: g' in db.genre ==> g'.id != l.genreId)
  {
    var links := LinksOf(db.genreFilmWork, GenreLinkFilm, film);
    l, g := GenreFilmWork(film, ""), GenreRow("", Null, Null, 0);
    if links != [] {
      l := LinksGenreNamesOrigin(db.genre, links, v);
      g := LinkGenreNamesOrigin(db.genre, l, v);
    }
  }

  /** Every row of the join for `ids` is a row of one requested film of `films`. */
  lemma {:induction false} MovieDataOrigin(db: Database, films: seq<FilmWorkRow>, ids: set<FilmId>, m: MovieRow)
    returns (f: FilmWorkRow)
    requires m in MovieData(db, films, ids)
    ensures f in films && f.id in ids && m in FilmRows(db, f)
  {
    assert films == [films[0]] + films[1..];
    if films[0].id in ids && m in FilmRows(db, films[0]) {
      f := films[0];
    } else {
      f := MovieDataOrigin(db, films[1..], ids, m);
    }
  }

  /**
   * Every row `get_movie_data` returns is a requested film_work row joined with
   * one of its person parts and one of its genre names: the join invents no
   * film, person or genre.
   */
  lemma MovieRowOrigin(db: Database, ids: set<FilmId>, m: MovieRow) returns (f: FilmWorkRow, p: PersonPart, g: Value)
    requires GetMovieData(db, ids).MovieRows? && m in GetMovieData(db, ids).rows
    ensures f in db.filmWork && f.id in ids
    ensures p in PersonParts(db, f.id) && g in GenreNames(db, f.id) && m == JoinedRow(f, p, g)
  {
    f := MovieDataOrigin(db, db.filmWork, ids, m);
    p, g := CrossOnly(f, PersonParts(db, f.id), GenreNames(db, f.id), m);
  }

  /** The rows of `rows` that belong to film `id`, in order: what `parser` sees for that film. */
  function RowsFor(rows: seq<MovieRow>, id: FilmId): seq<MovieRow>
  {
    if rows == [] then []
    else
      var last := rows[|rows| - 1];
      RowsFor(rows[..|rows| - 1], id) + (if last.id == id then [last] else [])
  }

  /** A row is among the rows of film `id` exactly when it is a row of `rows` with that id. */
  lemma {:induction false} RowsForMembers(rows: seq<MovieRow>, id: FilmId, m: MovieRow)
    ensures m in RowsFor(rows, id) <==> m in rows && m.id == id
  {
    if rows != [] {
      var last := rows[|rows| - 1];
      assert rows == rows[..|rows| - 1] + [last];
      RowsForMembers(rows[..|rows| - 1], id, m);
    }
  }

  lemma {:induction false} RowsForAppend(a: seq<MovieRow>, b: seq<MovieRow>, id: FilmId)
    ensures RowsFor(a + b, id) == RowsFor(a, id) + RowsFor(b, id)
    decreases |b|
  {
    if b == [] {
      assert a + b == a;
    } else {
      var c := b[..|b| - 1];
      assert (a + b)[..|a + b| - 1] == a + c;
      RowsForAppend(a, c, id);
    }
  }

  lemma {:induction false} RowsForUniform(rows: seq<MovieRow>, film: FilmId, id: FilmId)
    requires forall m :: m in rows ==> m.id == film
    ensures film == id ==> RowsFor(rows, id) == rows
    ensures film != id ==> RowsFor(rows, id) == []
    decreases |rows|
  {
    if rows != [] {
      var c := rows[..|rows| - 1];
      var last := rows[|rows| - 1];
      assert rows == c + [last];
      forall m | m in c ensures m.id == film {
        assert m in rows;
      }
      RowsForUniform(c, film, id);
      assert last in rows;
    }
  }

  /**
   * The rows of film `x` in the join for several ids are the rows of the join
   * for `x` alone: what one film's document receives does not depend on the
   * other films of its page.
   */
  lemma {:induction false} MovieDataFor(db: Database, films: seq<FilmWorkRow>, ids: set<FilmId>, x: FilmId)
    ensures RowsFor(MovieData(db, films, ids), x) == if x in ids then MovieData(db, films, {x}) else []
  {
    if films != [] {
      var f := films[0];
      MovieDataFor(db, films[1..], ids, x);
      var head := if f.id in ids then FilmRows(db, f) else [];
      RowsForAppend(head, MovieData(db, films[1..], ids), x);
      RowsForUniform(FilmRows(db, f), f.id, x);
      if x !in ids && f.id in ids {
        assert f.id != x;
      }
    }
  }
}
