/**
 * Values shared by the whole synchronisation engine: the column values that
 * flow from PostgreSQL rows into Elasticsearch documents, Python's notion of
 * truthiness over them, and the small sequence helpers the other modules use.
 */
module Values {

  datatype Option<+T> = None | Some(value: T)

  /** A film (aggregate) identifier: the text form of a `film_work.id` UUID. */
  type FilmId = string

  /**
   * A column value or a document field value, as Python sees it after the
   * database driver has decoded it: NULL becomes `Null`, text `Text`, numbers
   * `Number` (ratings and delays are kept as integers), Python lists `List`,
   * and a validated participant record `PersonRecord` (id and name).
   */
  datatype Value =
    | Null
    | Text(text: string)
    | Number(number: int)
    | List(items: seq<Value>)
    | PersonRecord(id: Value, name: Value)

  /** Python's truth value of a field: None, '', 0 and [] are false. */
  predicate Truthy(v: Value)
  {
    match v
    case Null => false
    case Text(s) => s != ""
    case Number(n) => n != 0
    case List(items) => items != []
    case PersonRecord(_, _) => true
  }

  /** A sequence without repeated elements. */
  ghost predicate NoDup<T>(s: seq<T>)
  {
    forall i, j :: 0 <= i < j < |s| ==> s[i] != s[j]
  }

  /** Concatenation of a sequence of sequences, in order. */
  function Flatten<T>(ss: seq<seq<T>>): (r: seq<T>)
    ensures |ss| == 1 ==> r == ss[0]
  {
    if ss == [] then [] else ss[0] + Flatten(ss[1..])
  }

  lemma {:induction false} FlattenAppend<T>(a: seq<seq<T>>, b: seq<seq<T>>)
    ensures Flatten(a + b) == Flatten(a) + Flatten(b)
  {
    if a == [] {
      assert a + b == b;
    } else {
      assert (a + b)[1..] == a[1..] + b;
      FlattenAppend(a[1..], b);
    }
  }

  lemma {:induction false} FlattenMembership<T>(ss: seq<seq<T>>, x: T)
    ensures x in Flatten(ss) <==> exists i :: 0 <= i < |ss| && x in ss[i]
  {
    if ss != [] {
      FlattenMembership(ss[1..], x);
      if x in Flatten(ss[1..]) {
        var i :| 0 <= i < |ss[1..]| && x in ss[1..][i];
        assert x in ss[i + 1];
      }
      if exists i :: 0 <= i < |ss| && x in ss[i] {
        var i :| 0 <= i < |ss| && x in ss[i];
        if i > 0 {
          assert x in ss[1..][i - 1];
        }
      }
    }
  }

  lemma NoDupSplit<T>(a: seq<T>, b: seq<T>)
    requires NoDup(a + b)
    ensures NoDup(a) && NoDup(b)
    ensures forall x :: !(x in a && x in b)
  {
    forall i, j | 0 <= i < j < |b| ensures b[i] != b[j] {
      assert (a + b)[|a| + i] == b[i] && (a + b)[|a| + j] == b[j];
    }
    forall i, j | 0 <= i < j < |a| ensures a[i] != a[j] {
      assert (a + b)[i] == a[i] && (a + b)[j] == a[j];
    }
    forall i, j | 0 <= i < |a| && 0 <= j < |b| ensures a[i] != b[j] {
      assert (a + b)[i] == a[i] && (a + b)[|a| + j] == b[j];
    }
  }

  /** Chunks whose concatenation repeats nothing share no element. */
  lemma {:induction false} FlattenDisjoint<T>(ss: seq<seq<T>>, i: nat, j: nat, x: T)
    requires NoDup(Flatten(ss)) && i < j < |ss|
    ensures !(x in ss[i] && x in ss[j])
  {
    NoDupSplit(ss[0], Flatten(ss[1..]));
    if i == 0 {
      FlattenMembership(ss[1..], x);
      assert ss[j] == ss[1..][j - 1];
    } else {
      FlattenDisjoint(ss[1..], i - 1, j - 1, x);
      assert ss[i] == ss[1..][i - 1] && ss[j] == ss[1..][j - 1];
    }
  }
}
