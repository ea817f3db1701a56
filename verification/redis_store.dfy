/**
 * An in-memory stand-in for the Redis server that the engine talks to.  It
 * keeps only what the engine uses: string keys holding a state snapshot
 * (GET/SET, with the JSON text already decoded) and set keys holding pending
 * film ids (SADD, SSCAN, DEL).  A set is kept as the sequence of its members
 * in insertion order, which gives SSCAN a concrete, deterministic cursor: the
 * position reached in that sequence, with 0 meaning "scan complete".
 */
module RedisStore {
  import opened Values

  /** The decoded JSON object kept under one string key: watermark name to timestamp. */
  type Snapshot = map<string, int>

  /** The members of a set after SADD of `id`: re-adding a member is a no-op. */
  function AddMember(members: seq<FilmId>, id: FilmId): (r: seq<FilmId>)
    ensures forall x :: x in r <==> x in members || x == id
    ensures id in members ==> r == members
    ensures members <= r
    ensures NoDup(members) ==> NoDup(r)
    ensures |r| <= |members| + 1
  {
    if id in members then members else members + [id]
  }

  /**
   * The chunks that successive SSCAN calls return when the scan starts at
   * position `pos` and asks for `count` members at a time; the last chunk is
   * the one after which the server answers with cursor 0.  Scanning an empty
   * remainder still produces one (empty) chunk.
   */
  function ScanPages(members: seq<FilmId>, pos: nat, count: nat): (pages: seq<seq<FilmId>>)
    requires pos <= |members| && count > 0
    ensures |pages| >= 1
    ensures Flatten(pages) == members[pos..]
    decreases |members| - pos
  {
    if pos + count >= |members| then [members[pos..]]
    else
      var rest := ScanPages(members, pos + count, count);
      assert members[pos..] == members[pos..pos + count] + members[pos + count..];
      [members[pos..pos + count]] + rest
  }

  /** Every page holds at most `count` members, and every page but the last exactly `count`. */
  lemma {:induction false} ScanPagesSizes(members: seq<FilmId>, pos: nat, count: nat)
    requires pos <= |members| && count > 0
    ensures forall i :: 0 <= i < |ScanPages(members, pos, count)| ==> |ScanPages(members, pos, count)[i]| <= count
    ensures forall i :: 0 <= i < |ScanPages(members, pos, count)| - 1 ==> |ScanPages(members, pos, count)[i]| == count
    decreases |members| - pos
  {
    if pos + count < |members| {
      ScanPagesSizes(members, pos + count, count);
    }
  }

  /** A scan from a position inside the set never returns an empty page. */
  lemma {:induction false} ScanPagesNonEmpty(members: seq<FilmId>, pos: nat, count: nat)
    requires pos < |members| && count > 0
    ensures [] !in ScanPages(members, pos, count)
    decreases |members| - pos
  {
    if pos + count < |members| {
      ScanPagesNonEmpty(members, pos + count, count);
      assert members[pos..pos + count] != [] by {
        assert members[pos..pos + count][0] == members[pos];
      }
    } else {
      assert members[pos..] != [] by {
        assert members[pos..][0] == members[pos];
      }
    }
  }

  /**
   * Every member of a duplicate-free set lands in exactly one page of a full
   * scan, and no member lands in two pages.
   */
  lemma ScanPagesPartition(members: seq<FilmId>, pos: nat, count: nat, x: FilmId)
    requires pos <= |members| && count > 0 && NoDup(members)
    ensures x in members[pos..] <==>
      exists i :: 0 <= i < |ScanPages(members, pos, count)| && x in ScanPages(members, pos, count)[i]
    ensures forall i, j :: 0 <= i < j < |ScanPages(members, pos, count)| ==>
      !(x in ScanPages(members, pos, count)[i] && x in ScanPages(members, pos, count)[j])
  {
    var pages := ScanPages(members, pos, count);
    FlattenMembership(pages, x);
    assert NoDup(members[pos..]);
    forall i, j | 0 <= i < j < |pages| ensures !(x in pages[i] && x in pages[j]) {
      FlattenDisjoint(pages, i, j, x);
    }
    assert x in members[pos..] ==> exists i :: 0 <= i < |ScanPages(members, pos, count)| && x in ScanPages(members, pos, count)[i];
    assert (exists i :: 0 <= i < |ScanPages(members, pos, count)| && x in ScanPages(members, pos, count)[i]) ==> x in members[pos..];
  }

  /** One SSCAN step peels the first chunk off the remaining scan. */
  lemma ScanPagesStep(members: seq<FilmId>, pos: nat, count: nat)
    requires pos <= |members| && count > 0
    ensures pos + count >= |members| ==> ScanPages(members, pos, count) == [members[pos..]]
    ensures pos + count < |members| ==>
      ScanPages(members, pos, count) == [members[pos..pos + count]] + ScanPages(members, pos + count, count)
  {
  }

  class Redis {
    /** String keys: GET/SET of a JSON snapshot, kept decoded. */
    var strings: map<string, Snapshot>
    /** Set keys: members in insertion order. */
    var sets: map<string, seq<FilmId>>

    ghost predicate Valid()
      reads this
    {
      forall k :: k in sets ==> NoDup(sets[k])
    }

    constructor (strings: map<string, Snapshot>, sets: map<string, seq<FilmId>>)
      requires forall k :: k in sets ==> NoDup(sets[k])
      ensures Valid() && this.strings == strings && this.sets == sets
    {
      this.strings := strings;
      this.sets := sets;
    }

    /** The members of the set under `key`; a missing key is an empty set. */
    function Members(key: string): (ms: seq<FilmId>)
      reads this
      ensures key !in sets ==> ms == []
    {
      if key in sets then sets[key] else []
    }

    method Get(key: string) returns (v: Option<Snapshot>)
      ensures key in strings ==> v == Some(strings[key])
      ensures key !in strings ==> v == None
    {
      v := if key in strings then Some(strings[key]) else None;
    }

    method Set(key: string, v: Snapshot)
      requires Valid()
      modifies this
      ensures Valid()
      ensures strings == old(strings)[key := v] && sets == old(sets)
    {
      strings := strings[key := v];
    }

    method SAdd(key: string, member: FilmId)
      requires Valid()
      modifies this
      ensures Valid()
      ensures sets == old(sets)[key := AddMember(old(Members(key)), member)]
      ensures strings == old(strings)
    {
      sets := sets[key := AddMember(Members(key), member)];
    }

    /**
     * One SSCAN step from cursor position `cursor`: the next chunk of at most
     * `count` members, and the next cursor (0 once the scan is complete).
     */
    method SScan(key: string, cursor: nat, count: nat) returns (next: nat, chunk: seq<FilmId>)
      requires cursor <= |Members(key)| && count > 0
      ensures chunk == ScanPages(Members(key), cursor, count)[0]
      ensures cursor + count >= |Members(key)| ==> next == 0
      ensures cursor + count < |Members(key)| ==> next == cursor + count
    {
      var ms := Members(key);
      if cursor + count >= |ms| {
        next, chunk := 0, ms[cursor..];
      } else {
        next, chunk := cursor + count, ms[cursor..cursor + count];
      }
    }

    method Delete(key: string)
      requires Valid()
      modifies this
      ensures Valid()
      ensures sets == old(sets) - {key} && strings == old(strings)
    {
      sets := sets - {key};
    }
  }
}
