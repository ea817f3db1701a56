/**
 * The transformation stage (etl_components/transform.py).  `collector` adds a
 * film id to a Redis set; `batcher` is a generator that drains that set with
 * SSCAN, one page of at most `BATCH_SIZE` ids at a time, each page mapping
 * every id to a blank movie document, and deletes the set once the scan is
 * complete; `parser` folds one flattened join row into a movie document in
 * place, through `add_person` and `add_genre`.
 *
 * A movie document (a Python dict) is a `MovieDoc` object whose `fields` map
 * `parser` reassigns; the pure function `Merge` says what one `parser` call
 * does to it, and the lemmas below say what a run of calls guarantees.
 */
module Transform {
  import opened Values
  import opened RedisStore
  import opened Extract

  /** The contents of a movie document: field name to value. */
  type Fields = map<string, Value>

  const IdKey: string := "id"
  const TitleKey: string := "title"
  const DescriptionKey: string := "description"
  const RatingKey: string := "imdb_rating"
  const GenreKey: string := "genre"

  /** `'{role}'.format(role=row['role'])`: a NULL role is formatted as "None". */
  function RoleText(role: Option<string>): string
  {
    match role
    case None => "None"
    case Some(r) => r
  }

  predicate EndsWithS(k: string)
  {
    |k| > 0 && k[|k| - 1] == 's'
  }

  /** The field holding the participants of a role: `'{role}s'`. */
  function PersonsKey(role: Option<string>): (k: string)
    ensures EndsWithS(k)
  {
    RoleText(role) + "s"
  }

  /** The field holding the participants' names of a role: `'{role}s_names'`. */
  function NamesKey(role: Option<string>): (k: string)
    ensures EndsWithS(k)
  {
    RoleText(role) + "s_names"
  }

  /** The fields that `add_person` and `add_genre` treat as lists. */
  predicate ListKey(k: string)
  {
    k == GenreKey || EndsWithS(k)
  }

  /** Every list field that is present holds a list, so `movie.get(key, [])` is a list. */
  predicate Shaped(f: Fields)
  {
    forall k :: k in f && ListKey(k) ==> f[k].List?
  }

  /**
   * A blank document as `Movie.properties()` builds it: an "id" field, and
   * every field the empty string, 0 or the empty list according to its type.
   */
  predicate Blank(f: Fields)
  {
    && IdKey in f
    && Shaped(f)
    && forall k :: k in f ==> f[k] == Text("") || f[k] == Number(0) || f[k] == List([])
  }

  /** `movie.get(key, [])`. */
  function GetList(f: Fields, k: string): (items: seq<Value>)
    requires k in f ==> f[k].List?
    ensures k !in f ==> items == []
  {
    if k in f then f[k].items else []
  }

  /** `if x not in s: s.append(x)`. */
  function AppendAbsent(s: seq<Value>, x: Value): (r: seq<Value>)
    ensures x in r && s <= r
    ensures NoDup(s) ==> NoDup(r)
  {
    if x in s then s else s + [x]
  }

  /** The participant record `Person(id=row['person_id'], full_name=row['full_name'])`. */
  function PersonOf(row: MovieRow): Value
  {
    PersonRecord(row.personId, row.fullName)
  }

  /**
   * `add_person`: the update for the role's two lists, the participant and
   * its name appended together unless an equal participant is listed already.
   */
  function AddPerson(row: MovieRow, f: Fields): (u: Fields)
    requires Shaped(f)
    ensures u.Keys == {PersonsKey(row.role), NamesKey(row.role)}
    ensures Shaped(u)
  {
    var persons := GetList(f, PersonsKey(row.role));
    var names := GetList(f, NamesKey(row.role));
    map[PersonsKey(row.role) := List(AppendAbsent(persons, PersonOf(row))),
        NamesKey(row.role) := List(if PersonOf(row) in persons then names else names + [row.fullName])]
  }

  /** `add_genre`: the update for the genre list, the name appended unless present. */
  function AddGenre(row: MovieRow, f: Fields): (u: Fields)
    requires Shaped(f)
    ensures u.Keys == {GenreKey}
    ensures Shaped(u)
  {
    var names := GetList(f, GenreKey);
    map[GenreKey := List(AppendAbsent(names, row.genreName))]
  }

  /** The scalar fields, copied from `row` when the document's id is still falsy. */
  function MergeScalars(f: Fields, row: MovieRow): Fields
    requires IdKey in f
  {
    if Truthy(f[IdKey]) then f
    else f[IdKey := Text(row.id)][TitleKey := row.title][DescriptionKey := row.description][RatingKey := row.rating]
  }

  /** What one `parser(row, movie)` call makes of the document's fields. */
  function Merge(f: Fields, row: MovieRow): (r: Fields)
    requires IdKey in f && Shaped(f)
    ensures IdKey in r && Shaped(r) && f.Keys <= r.Keys
  {
    var f1 := MergeScalars(f, row);
    ScalarsKeepLists(f, row, GenreKey);
    AddPersonLists(f1, row, GenreKey);
    var f2 := f1 + if Truthy(row.personId) then AddPerson(row, f1) else map[];
    AddGenreLists(f2, row, GenreKey);
    f2 + if Truthy(row.genreName) then AddGenre(row, f2) else map[]
  }

  /** The fields after `parser` has been applied to each of `rows` in turn. */
  function MergeAll(f: Fields, rows: seq<MovieRow>): (r: Fields)
    requires IdKey in f && Shaped(f)
    ensures IdKey in r && Shaped(r) && f.Keys <= r.Keys
  {
    if rows == [] then f else Merge(MergeAll(f, rows[..|rows| - 1]), rows[|rows| - 1])
  }

  // ---------------------------------------------------------------------------
  // What parser guarantees

  /**
   * First row wins: once the id is truthy, the scalar fields never change;
   * while it is falsy, they are all taken from the row.
   */
  lemma MergeScalarFields(f: Fields, row: MovieRow)
    requires IdKey in f && Shaped(f)
    ensures var r := Merge(f, row);
      && (Truthy(f[IdKey]) ==> forall k :: k in f && !ListKey(k) ==> r[k] == f[k])
      && (!Truthy(f[IdKey]) ==>
            TitleKey in r && DescriptionKey in r && RatingKey in r &&
            r[IdKey] == Text(row.id) && r[TitleKey] == row.title &&
            r[DescriptionKey] == row.description && r[RatingKey] == row.rating)
  {
    var r := Merge(f, row);
    if Truthy(f[IdKey]) {
      forall k | k in f && !ListKey(k) ensures r[k] == f[k] {
        MergeNonList(f, row, k);
      }
    } else {
      assert !ListKey(IdKey) && !ListKey(TitleKey) && !ListKey(DescriptionKey) && !ListKey(RatingKey);
      MergeNonList(f, row, IdKey);
      MergeNonList(f, row, TitleKey);
      MergeNonList(f, row, DescriptionKey);
      MergeNonList(f, row, RatingKey);
    }
  }

  /** The participant and genre updates touch list fields only: every other field is as the scalar step left it. */
  lemma MergeNonList(f: Fields, row: MovieRow, k: string)
    requires IdKey in f && Shaped(f) && !ListKey(k)
    ensures k in Merge(f, row) <==> k in MergeScalars(f, row)
    ensures k in Merge(f, row) ==> Merge(f, row)[k] == MergeScalars(f, row)[k]
  {
    var f1 := MergeScalars(f, row);
    ScalarsKeepLists(f, row, GenreKey);
    var u1 := if Truthy(row.personId) then AddPerson(row, f1) else map[];
    assert k !in u1;
    var f2 := f1 + u1;
    AddPersonLists(f1, row, GenreKey);
    var u2 := if Truthy(row.genreName) then AddGenre(row, f2) else map[];
    assert k !in u2;
  }

  /** After the rows of one film, the scalar fields are those of the first row whose id is non-empty. */
  lemma {:induction false} ScalarsFromFirstRow(f: Fields, rows: seq<MovieRow>)
    requires IdKey in f && Shaped(f) && !Truthy(f[IdKey])
    requires rows != [] && rows[0].id != ""
    ensures var r := MergeAll(f, rows);
      && TitleKey in r && DescriptionKey in r && RatingKey in r
      && r[IdKey] == Text(rows[0].id) && r[TitleKey] == rows[0].title
      && r[DescriptionKey] == rows[0].description && r[RatingKey] == rows[0].rating
  {
    if |rows| > 1 {
      var init := rows[..|rows| - 1];
      assert init[0] == rows[0];
      ScalarsFromFirstRow(f, init);
      MergeScalarFields(MergeAll(f, init), rows[|rows| - 1]);
    } else {
      assert rows[..0] == [];
      MergeScalarFields(f, rows[0]);
    }
  }

  /**
   * A row without a person leaves every participant list alone, and a row
   * without a genre leaves the genre list alone.
   */
  lemma MergeSkips(f: Fields, row: MovieRow)
    requires IdKey in f && Shaped(f)
    ensures !Truthy(row.personId) ==> forall k :: k in f && EndsWithS(k) ==> Merge(f, row)[k] == f[k]
    ensures !Truthy(row.genreName) ==> forall k :: k in f && k == GenreKey ==> Merge(f, row)[k] == f[k]
    ensures !Truthy(row.personId) && !Truthy(row.genreName) && Truthy(f[IdKey]) ==> Merge(f, row) == f
  {
    if !Truthy(row.personId) {
      forall k | k in f && EndsWithS(k) ensures Merge(f, row)[k] == f[k] {
        MergeLists(f, row, k);
      }
    }
    if !Truthy(row.genreName) {
      MergeLists(f, row, GenreKey);
    }
    if !Truthy(row.personId) && !Truthy(row.genreName) && Truthy(f[IdKey]) {
      assert MergeScalars(f, row) == f;
      assert Merge(f, row) == f + map[] + map[];
    }
  }

  /** Two roles whose keys do not collide: no participant list of one is the name list of the other. */
  predicate NoClash(a: Option<string>, b: Option<string>)
  {
    PersonsKey(a) != NamesKey(b)
  }

  /** The roles the person_film_work table uses. */
  const KnownRoles: set<Option<string>> := {Some("actor"), Some("director"), Some("writer")}

  lemma KnownRolesNoClash(a: Option<string>, b: Option<string>)
    requires a in KnownRoles && b in KnownRoles
    ensures NoClash(a, b)
  {
    assert |PersonsKey(a)| < |NamesKey(b)|;
  }

  /** Equal participant keys come from the same role text, so their name keys are equal too. */
  lemma SameRoleKeys(a: Option<string>, b: Option<string>)
    ensures PersonsKey(a) == PersonsKey(b) <==> RoleText(a) == RoleText(b)
    ensures NamesKey(a) == NamesKey(b) <==> RoleText(a) == RoleText(b)
  {
    if PersonsKey(a) == PersonsKey(b) {
      assert RoleText(a) == PersonsKey(a)[..|PersonsKey(a)| - 1];
      assert RoleText(b) == PersonsKey(b)[..|PersonsKey(b)| - 1];
    }
    if NamesKey(a) == NamesKey(b) {
      assert RoleText(a) == NamesKey(a)[..|NamesKey(a)| - 7];
      assert RoleText(b) == NamesKey(b)[..|NamesKey(b)| - 7];
    }
  }

  /**
   * The lists of role `q`: participants without repeats, and names parallel
   * to them (same length, the i-th name that of the i-th participant).
   */
  ghost predicate RoleListsOk(f: Fields, q: Option<string>)
  {
    && Shaped(f)
    && var ps := GetList(f, PersonsKey(q));
       var ns := GetList(f, NamesKey(q));
       && NoDup(ps)
       && |ps| == |ns|
       && forall i :: 0 <= i < |ps| ==> ps[i].PersonRecord? && ns[i] == ps[i].name
  }

  /** The genre list holds no name twice. */
  ghost predicate GenresOk(f: Fields)
  {
    Shaped(f) && NoDup(GetList(f, GenreKey))
  }

  /** The participant, name and genre keys of one row are three different fields. */
  lemma RowKeysDistinct(role: Option<string>)
    ensures PersonsKey(role) != NamesKey(role)
    ensures PersonsKey(role) != GenreKey && NamesKey(role) != GenreKey
  {
    assert |PersonsKey(role)| != |NamesKey(role)|;
    assert !EndsWithS(GenreKey);
  }

  /** Copying the scalar fields touches no list field. */
  lemma ScalarsKeepLists(f: Fields, row: MovieRow, k: string)
    requires IdKey in f && Shaped(f) && ListKey(k)
    ensures Shaped(MergeScalars(f, row))
    ensures k in MergeScalars(f, row) <==> k in f
    ensures GetList(MergeScalars(f, row), k) == GetList(f, k)
  {
    assert !ListKey(IdKey) && !ListKey(TitleKey) && !ListKey(DescriptionKey) && !ListKey(RatingKey);
  }

  /** The update of `add_person`, applied with `movie.update`, on one list field. */
  lemma AddPersonLists(f: Fields, row: MovieRow, k: string)
    requires Shaped(f) && ListKey(k)
    ensures Shaped(f + AddPerson(row, f))
    ensures var before := GetList(f, k);
      var after := GetList(f + AddPerson(row, f), k);
      && (k == PersonsKey(row.role) ==> after == AppendAbsent(before, PersonOf(row)))
      && (k == NamesKey(row.role) ==>
            after == if PersonOf(row) in GetList(f, PersonsKey(row.role)) then before else before + [row.fullName])
      && (k != PersonsKey(row.role) && k != NamesKey(row.role) ==> after == before)
  {
    RowKeysDistinct(row.role);
  }

  /** The update of `add_genre`, applied with `movie.update`, on one list field. */
  lemma AddGenreLists(f: Fields, row: MovieRow, k: string)
    requires Shaped(f) && ListKey(k)
    ensures Shaped(f + AddGenre(row, f))
    ensures k == GenreKey ==> GetList(f + AddGenre(row, f), k) == AppendAbsent(GetList(f, k), row.genreName)
    ensures k != GenreKey ==> GetList(f + AddGenre(row, f), k) == GetList(f, k)
  {
  }

  /** What one `parser` call does to a list field. */
  lemma MergeLists(f: Fields, row: MovieRow, k: string)
    requires IdKey in f && Shaped(f) && ListKey(k)
    ensures var before := GetList(f, k);
      var after := GetList(Merge(f, row), k);
      && (Truthy(row.personId) && k == PersonsKey(row.role) ==> after == AppendAbsent(before, PersonOf(row)))
      && (Truthy(row.personId) && k == NamesKey(row.role) ==>
            after == if PersonOf(row) in GetList(f, PersonsKey(row.role)) then before else before + [row.fullName])
      && (Truthy(row.genreName) && k == GenreKey ==> after == AppendAbsent(before, row.genreName))
      && (((!Truthy(row.personId) || (k != PersonsKey(row.role) && k != NamesKey(row.role))) &&
           (!Truthy(row.genreName) || k != GenreKey)) ==> after == before)
  {
    RowKeysDistinct(row.role);
    var f1 := MergeScalars(f, row);
    ScalarsKeepLists(f, row, k);
    ScalarsKeepLists(f, row, PersonsKey(row.role));
    var f2 := if Truthy(row.personId) then f1 + AddPerson(row, f1) else f1;
    if Truthy(row.personId) {
      AddPersonLists(f1, row, k);
      AddPersonLists(f1, row, GenreKey);
    }
    if Truthy(row.genreName) {
      AddGenreLists(f2, row, k);
    }
  }

  /** One `parser` call keeps each role's lists duplicate-free and parallel, when the row's role does not clash with it. */
  lemma MergeKeepsRoleLists(f: Fields, row: MovieRow, q: Option<string>)
    requires IdKey in f && RoleListsOk(f, q)
    requires NoClash(row.role, q) && NoClash(q, row.role)
    ensures RoleListsOk(Merge(f, row), q)
  {
    SameRoleKeys(row.role, q);
    RowKeysDistinct(q);
    MergeLists(f, row, PersonsKey(q));
    MergeLists(f, row, NamesKey(q));
  }

  /** One `parser` call keeps the genre list duplicate-free. */
  lemma MergeKeepsGenres(f: Fields, row: MovieRow)
    requires IdKey in f && GenresOk(f)
    ensures GenresOk(Merge(f, row))
  {
    MergeLists(f, row, GenreKey);
  }

  /** A blank document satisfies the list invariants for every role. */
  lemma BlankListsOk(f: Fields, q: Option<string>)
    requires Blank(f)
    ensures RoleListsOk(f, q) && GenresOk(f)
  {
    assert PersonsKey(q) in f ==> f[PersonsKey(q)] == List([]);
    assert NamesKey(q) in f ==> f[NamesKey(q)] == List([]);
    assert GenreKey in f ==> f[GenreKey] == List([]);
  }

  /**
   * From a blank document, the participants of every role stay
   * duplicate-free and parallel to their names, and the genres
   * duplicate-free, whatever rows are merged, as long as no row's role
   * clashes with the role considered.
   */
  lemma {:induction false} MergeAllInvariants(f: Fields, rows: seq<MovieRow>, q: Option<string>)
    requires Blank(f)
    requires forall i :: 0 <= i < |rows| ==> NoClash(rows[i].role, q) && NoClash(q, rows[i].role)
    ensures RoleListsOk(MergeAll(f, rows), q) && GenresOk(MergeAll(f, rows))
  {
    if rows == [] {
      BlankListsOk(f, q);
    } else {
      var init := rows[..|rows| - 1];
      MergeAllInvariants(f, init, q);
      MergeKeepsRoleLists(MergeAll(f, init), rows[|rows| - 1], q);
      MergeKeepsGenres(MergeAll(f, init), rows[|rows| - 1]);
    }
  }

  /** With the actor, director and writer roles only, the invariants hold for each of them. */
  lemma KnownRolesInvariants(f: Fields, rows: seq<MovieRow>, q: Option<string>)
    requires Blank(f) && q in KnownRoles
    requires forall i :: 0 <= i < |rows| ==> rows[i].role in KnownRoles
    ensures RoleListsOk(MergeAll(f, rows), q) && GenresOk(MergeAll(f, rows))
  {
    forall i | 0 <= i < |rows| ensures NoClash(rows[i].role, q) && NoClash(q, rows[i].role) {
      KnownRolesNoClash(rows[i].role, q);
      KnownRolesNoClash(q, rows[i].role);
    }
    MergeAllInvariants(f, rows, q);
  }

  /** A dict update that writes every key with the value it already has changes nothing. */
  lemma UpdateSame(f: Fields, u: Fields)
    requires forall k :: k in u ==> k in f && f[k] == u[k]
    ensures f + u == f
  {
  }

  /** Parsing the same row twice gives the same document as parsing it once. */
  lemma MergeIdempotent(f: Fields, row: MovieRow)
    requires IdKey in f && Shaped(f)
    ensures Merge(Merge(f, row), row) == Merge(f, row)
  {
    var r := Merge(f, row);
    ScalarsIdempotent(f, row);
    MergeKeys(f, row);
    var f2 := r + if Truthy(row.personId) then AddPerson(row, r) else map[];
    if Truthy(row.personId) {
      MergeLists(f, row, PersonsKey(row.role));
      PersonIdempotent(r, row);
    }
    assert f2 == r;
    if Truthy(row.genreName) {
      MergeLists(f, row, GenreKey);
      GenreIdempotent(r, row);
    }
  }

  /** The scalar step finds the scalars of a parsed row already in place. */
  lemma ScalarsIdempotent(f: Fields, row: MovieRow)
    requires IdKey in f && Shaped(f)
    ensures MergeScalars(Merge(f, row), row) == Merge(f, row)
  {
    var r := Merge(f, row);
    MergeScalarFields(f, row);
    if !Truthy(r[IdKey]) {
      assert r[IdKey := Text(row.id)][TitleKey := row.title][DescriptionKey := row.description][RatingKey := row.rating] == r;
    }
  }

  /** The list fields a parsed row writes are present afterwards. */
  lemma MergeKeys(f: Fields, row: MovieRow)
    requires IdKey in f && Shaped(f)
    ensures Truthy(row.personId) ==> PersonsKey(row.role) in Merge(f, row) && NamesKey(row.role) in Merge(f, row)
    ensures Truthy(row.genreName) ==> GenreKey in Merge(f, row)
  {
  }

  /** `add_person` for a participant already listed rewrites both lists as they are. */
  lemma PersonIdempotent(r: Fields, row: MovieRow)
    requires Shaped(r) && PersonsKey(row.role) in r && NamesKey(row.role) in r
    requires PersonOf(row) in GetList(r, PersonsKey(row.role))
    ensures r + AddPerson(row, r) == r
  {
    UpdateSame(r, AddPerson(row, r));
  }

  /** `add_genre` for a genre already listed rewrites the list as it is. */
  lemma GenreIdempotent(r: Fields, row: MovieRow)
    requires Shaped(r) && GenreKey in r
    requires row.genreName in GetList(r, GenreKey)
    ensures r + AddGenre(row, r) == r
  {
    UpdateSame(r, AddGenre(row, r));
  }

  lemma MergeExtends(f: Fields, row: MovieRow, k: string)
    requires IdKey in f && Shaped(f) && ListKey(k)
    ensures GetList(f, k) <= GetList(Merge(f, row), k)
  {
    MergeLists(f, row, k);
  }

  /** `parser` only ever appends to a list field: an earlier list is a prefix of every later one. */
  lemma {:induction false} MergeAllExtends(f: Fields, rows: seq<MovieRow>, n: nat, k: string)
    requires IdKey in f && Shaped(f) && ListKey(k) && n <= |rows|
    ensures GetList(MergeAll(f, rows[..n]), k) <= GetList(MergeAll(f, rows), k)
    decreases |rows|
  {
    if n < |rows| {
      var init := rows[..|rows| - 1];
      assert init[..n] == rows[..n];
      MergeAllExtends(f, init, n, k);
      MergeExtends(MergeAll(f, init), rows[|rows| - 1], k);
    } else {
      assert rows[..n] == rows;
    }
  }

  /**
   * Every participant and every genre of the merged rows ends up in the
   * document: the participant in its role's list, the genre name in "genre".
   */
  lemma MergeAllCollects(f: Fields, rows: seq<MovieRow>, i: nat)
    requires IdKey in f && Shaped(f) && i < |rows|
    ensures Truthy(rows[i].personId) ==> PersonOf(rows[i]) in GetList(MergeAll(f, rows), PersonsKey(rows[i].role))
    ensures Truthy(rows[i].genreName) ==> rows[i].genreName in GetList(MergeAll(f, rows), GenreKey)
  {
    var before := MergeAll(f, rows[..i]);
    assert rows[..i + 1][..i] == rows[..i];
    assert MergeAll(f, rows[..i + 1]) == Merge(before, rows[i]);
    MergeLists(before, rows[i], PersonsKey(rows[i].role));
    MergeLists(before, rows[i], GenreKey);
    MergeAllExtends(f, rows, i + 1, PersonsKey(rows[i].role));
    MergeAllExtends(f, rows, i + 1, GenreKey);
  }

  /**
   * The value `x` that a `parser` call on `row` may add to list field `k`:
   * the row's participant to its role's list, the participant's name to the
   * role's names, or the row's genre name to "genre".
   */
  predicate RowWrites(row: MovieRow, k: string, x: Value)
  {
    || (Truthy(row.personId) && k == PersonsKey(row.role) && x == PersonOf(row))
    || (Truthy(row.personId) && k == NamesKey(row.role) && x == row.fullName)
    || (Truthy(row.genreName) && k == GenreKey && x == row.genreName)
  }

  /** Converse of `MergeLists`: a value new in a list field after one call is one the row writes there. */
  lemma MergeOrigin(f: Fields, row: MovieRow, k: string, x: Value)
    requires IdKey in f && Shaped(f) && ListKey(k)
    requires x in GetList(Merge(f, row), k) && x !in GetList(f, k)
    ensures RowWrites(row, k, x)
  {
    MergeLists(f, row, k);
    RowKeysDistinct(row.role);
  }

  /**
   * Converse of `MergeAllCollects`: every value a run of `parser` calls added
   * to a list field was written there by one of the rows; the document never
   * lists a participant, name or genre that no row carries.
   */
  lemma {:induction false} MergeAllOrigin(f: Fields, rows: seq<MovieRow>, k: string, x: Value) returns (i: nat)
    requires IdKey in f && Shaped(f) && ListKey(k)
    requires x in GetList(MergeAll(f, rows), k) && x !in GetList(f, k)
    ensures i < |rows| && RowWrites(rows[i], k, x)
  {
    var init := rows[..|rows| - 1];
    if x in GetList(MergeAll(f, init), k) {
      i := MergeAllOrigin(f, init, k, x);
      assert init[i] == rows[i];
    } else {
      MergeOrigin(MergeAll(f, init), rows[|rows| - 1], k, x);
      i := |rows| - 1;
    }
  }

  // ---------------------------------------------------------------------------
  // Documents and the DataTransform object

  /** A movie document: a dict that `parser` updates in place. */
  class MovieDoc {
    var fields: Fields

    constructor (fields: Fields)
      ensures this.fields == fields
    {
      this.fields := fields;
    }
  }

  /** A page yielded by `batcher`: film id to its own document. */
  type Page = map<FilmId, MovieDoc>

  /** Each id of the chunk, and nothing else, maps to a document of its own. */
  ghost predicate PageOf(page: Page, chunk: seq<FilmId>)
  {
    && page.Keys == set x | x in chunk
    && (forall x, y :: x in page && y in page && x != y ==> page[x] != page[y])
  }

  /** `{movie_id.decode(): Movie.properties() for movie_id in data}`. */
  method BlankPage(chunk: seq<FilmId>, skeleton: Fields) returns (page: Page)
    ensures PageOf(page, chunk)
    ensures forall x :: x in page ==> fresh(page[x]) && page[x].fields == skeleton
  {
    page := map[];
    for i := 0 to |chunk|
      invariant page.Keys == set x | x in chunk[..i]
      invariant forall x :: x in page ==> fresh(page[x]) && page[x].fields == skeleton
      invariant forall x, y :: x in page && y in page && x != y ==> page[x] != page[y]
    {
      var doc := new MovieDoc(skeleton);
      page := page[chunk[i] := doc];
      assert chunk[..i + 1] == chunk[..i] + [chunk[i]];
    }
    assert chunk[..|chunk|] == chunk;
  }

  /**
   * The SSCAN cursor of `batcher`: it starts as the string '0', which Python
   * compares unequal to the integer 0, and is then the integer the server
   * returned.
   */
  datatype Cursor = StringZero | Returned(pos: nat)

  /** The chunks that the scans still to come from cursor `c` will return. */
  function PendingAt(members: seq<FilmId>, c: Cursor): seq<seq<FilmId>>
    requires c.Returned? ==> c.pos <= |members|
  {
    match c
    case StringZero => ScanPages(members, 0, BATCH_SIZE)
    case Returned(pos) => if pos == 0 then [] else ScanPages(members, pos, BATCH_SIZE)
  }

  /**
   * One SSCAN from a cursor other than the integer 0 returns the first
   * pending chunk, and the cursor it returns has the rest pending.
   */
  lemma PendingStep(members: seq<FilmId>, c: Cursor, chunk: seq<FilmId>, next: nat)
    requires c.Returned? ==> 0 < c.pos <= |members|
    requires var pos := if c.Returned? then c.pos else 0;
      && chunk == ScanPages(members, pos, BATCH_SIZE)[0]
      && next == if pos + BATCH_SIZE >= |members| then 0 else pos + BATCH_SIZE
    ensures next <= |members|
    ensures PendingAt(members, c) == [chunk] + PendingAt(members, Returned(next))
  {
    var pos := if c.Returned? then c.pos else 0;
    ScanPagesStep(members, pos, BATCH_SIZE);
  }

  /** Moving the head of the pending part to the done part keeps their concatenation. */
  lemma ShiftHead<T>(done: seq<T>, x: T, rest: seq<T>, pending: seq<T>, whole: seq<T>)
    requires done + pending == whole && pending == [x] + rest
    ensures (done + [x]) + rest == whole
    ensures pending != [] && pending[0] == x && rest == pending[1..]
  {
    assert (done + [x]) + rest == done + ([x] + rest);
  }

  /**
   * The generator object that `batcher(key)` returns.  Nothing runs when it is
   * created; each `Next` resumes it until the next `yield`, or to the end.
   */
  class PageGenerator {
    const redis: Redis
    const key: string
    const skeleton: Fields
    var cursor: Cursor
    var finished: bool
    /** The set's members, fixed while the generator drains them. */
    ghost const members: seq<FilmId>
    /** The chunks of the pages yielded so far. */
    ghost var yielded: seq<seq<FilmId>>

    /** The chunks still to be yielded. */
    ghost function Pending(): seq<seq<FilmId>>
      reads this
      requires cursor.Returned? ==> cursor.pos <= |members|
    {
      PendingAt(members, cursor)
    }

    ghost predicate Valid()
      reads this, redis
    {
      && redis.Valid()
      && (cursor.Returned? ==> cursor.pos <= |members|)
      && yielded + Pending() == ScanPages(members, 0, BATCH_SIZE)
      && (!finished ==> redis.Members(key) == members)
      && (finished ==> cursor == Returned(0) && key !in redis.sets)
    }

    /** What is left to do: the pending pages and, until it has run, the final DEL. */
    ghost function Remaining(): nat
      reads this
      requires cursor.Returned? ==> cursor.pos <= |members|
    {
      |Pending()| + if finished then 0 else 1
    }

    constructor (redis: Redis, key: string, skeleton: Fields)
      requires redis.Valid()
      ensures this.redis == redis && this.key == key && this.skeleton == skeleton
      ensures members == redis.Members(key) && yielded == [] && !finished && cursor == StringZero
      ensures Valid()
    {
      this.redis := redis;
      this.key := key;
      this.skeleton := skeleton;
      cursor := StringZero;
      finished := false;
      members := redis.Members(key);
      yielded := [];
    }

    /**
     * Resumes the generator: while the cursor is not the integer 0, one SSCAN
     * and the page it yields; once it is, the DEL of the set and the end of
     * the iteration (None), which repeats on any later call.
     */
    method Next() returns (page: Option<Page>)
      requires Valid()
      modifies this, redis
      ensures Valid()
      ensures old(Pending()) != [] ==>
        && page.Some?
        && yielded == old(yielded) + [old(Pending())[0]]
        && PageOf(page.value, old(Pending())[0])
        && (forall x :: x in page.value ==> fresh(page.value[x]) && page.value[x].fields == skeleton)
        && !finished && redis.sets == old(redis.sets)
      ensures old(Pending()) == [] ==>
        && page == None && finished && yielded == old(yielded)
        && redis.sets == old(redis.sets) - {key}
      ensures redis.strings == old(redis.strings)
      ensures Remaining() < old(Remaining()) || (old(finished) && Remaining() == 0)
    {
      if cursor == Returned(0) {
        Finish();
        page := None;
      } else {
        var docs := Scan();
        page := Some(docs);
      }
    }

    /** The loop has ended: DEL of the set, once. */
    method Finish()
      requires Valid() && cursor == Returned(0)
      modifies this, redis
      ensures Valid() && finished && cursor == old(cursor) && yielded == old(yielded)
      ensures redis.sets == old(redis.sets) - {key} && redis.strings == old(redis.strings)
    {
      if !finished {
        redis.Delete(key);
        finished := true;
      }
    }

    /** One loop iteration: SSCAN from the cursor, then the page of blank documents for the chunk. */
    method Scan() returns (docs: Page)
      requires Valid() && cursor != Returned(0)
      modifies this
      ensures Valid() && !finished
      ensures old(Pending()) != [] && yielded == old(yielded) + [old(Pending())[0]]
      ensures Pending() == old(Pending())[1..]
      ensures PageOf(docs, old(Pending())[0])
      ensures forall x :: x in docs ==> fresh(docs[x]) && docs[x].fields == skeleton
    {
      var chunk := Advance();
      docs := BlankPage(chunk, skeleton);
    }

    /** The SSCAN of one loop iteration: the cursor moves on and the chunk is yielded. */
    method Advance() returns (chunk: seq<FilmId>)
      requires Valid() && cursor != Returned(0)
      modifies this
      ensures Valid() && !finished
      ensures old(Pending()) != [] && chunk == old(Pending())[0]
      ensures yielded == old(yielded) + [chunk]
      ensures Pending() == old(Pending())[1..]
    {
      var pos := if cursor.Returned? then cursor.pos else 0;
      var next;
      next, chunk := redis.SScan(key, pos, BATCH_SIZE);
      PendingStep(members, cursor, chunk, next);
      ShiftHead(yielded, chunk, PendingAt(members, Returned(next)), Pending(), ScanPages(members, 0, BATCH_SIZE));
      cursor := Returned(next);
      yielded := yielded + [chunk];
    }
  }

  /** The `DataTransform` object; it shares the Redis connection with the state storage. */
  class DataTransform {
    const redis: Redis

    constructor (redis: Redis)
      ensures this.redis == redis
    {
      this.redis := redis;
    }

    /** `collector`: SADD of the film id to the set under `key`. */
    method Collector(key: string, filmWorkId: FilmId)
      requires redis.Valid()
      modifies redis
      ensures redis.Valid()
      ensures redis.sets == old(redis.sets)[key := AddMember(old(redis.Members(key)), filmWorkId)]
      ensures redis.strings == old(redis.strings)
    {
      redis.SAdd(key, filmWorkId);
    }

    /** `batcher`: the generator over the set under `key`; nothing is scanned yet. */
    method Batcher(key: string, skeleton: Fields) returns (pages: PageGenerator)
      requires redis.Valid()
      ensures fresh(pages) && pages.redis == redis && pages.key == key && pages.skeleton == skeleton
      ensures pages.members == redis.Members(key) && pages.yielded == [] && !pages.finished
      ensures pages.Valid()
    {
      pages := new PageGenerator(redis, key, skeleton);
    }

    /** `parser`: folds one joined row into the document, in place. */
    method Parser(row: MovieRow, movie: MovieDoc)
      requires IdKey in movie.fields && Shaped(movie.fields)
      modifies movie
      ensures movie.fields == Merge(old(movie.fields), row)
    {
      ghost var f0 := movie.fields;
      if !Truthy(movie.fields[IdKey]) {
        movie.fields := movie.fields[IdKey := Text(row.id)];
        movie.fields := movie.fields[TitleKey := row.title];
        movie.fields := movie.fields[DescriptionKey := row.description];
        movie.fields := movie.fields[RatingKey := row.rating];
      }
      ghost var f1 := movie.fields;
      assert f1 == MergeScalars(f0, row);
      ScalarsKeepLists(f0, row, GenreKey);
      AddPersonLists(f1, row, GenreKey);
      movie.fields := movie.fields + if Truthy(row.personId) then AddPerson(row, movie.fields) else map[];
      ghost var f2 := movie.fields;
      movie.fields := movie.fields + if Truthy(row.genreName) then AddGenre(row, movie.fields) else map[];
      assert movie.fields == f2 + if Truthy(row.genreName) then AddGenre(row, f2) else map[];
    }
  }

  /**
   * The generator always scans at least once: over an empty set it yields
   * one empty page, and over a non-empty one no empty page.  With no repeated
   * members every member is in exactly one yielded page.
   */
  lemma PagesCoverSet(members: seq<FilmId>, x: FilmId)
    requires NoDup(members)
    ensures |ScanPages(members, 0, BATCH_SIZE)| >= 1
    ensures members == [] ==> ScanPages(members, 0, BATCH_SIZE) == [[]]
    ensures members != [] ==> [] !in ScanPages(members, 0, BATCH_SIZE)
    ensures x in members <==>
      exists i :: 0 <= i < |ScanPages(members, 0, BATCH_SIZE)| && x in ScanPages(members, 0, BATCH_SIZE)[i]
    ensures forall i, j :: 0 <= i < j < |ScanPages(members, 0, BATCH_SIZE)| ==>
      !(x in ScanPages(members, 0, BATCH_SIZE)[i] && x in ScanPages(members, 0, BATCH_SIZE)[j])
  {
    ScanPagesPartition(members, 0, BATCH_SIZE, x);
    assert members[0..] == members;
    if members != [] {
      ScanPagesNonEmpty(members, 0, BATCH_SIZE);
    }
  }

  /**
   * A yielded page is empty only when the set was: then it is the first and
   * only page, and nothing was yielded before it.
   */
  lemma EmptyPageOnlyWhenEmpty(members: seq<FilmId>, before: seq<seq<FilmId>>, pending: seq<seq<FilmId>>)
    requires (before + [[]]) + pending == ScanPages(members, 0, BATCH_SIZE)
    ensures members == [] && before == [] && pending == []
  {
    assert [] in (before + [[]]) + pending by {
      assert ((before + [[]]) + pending)[|before|] == [];
    }
    if members != [] {
      ScanPagesNonEmpty(members, 0, BATCH_SIZE);
      assert false;
    }
    assert ScanPages(members, 0, BATCH_SIZE) == [[]];
  }
}
