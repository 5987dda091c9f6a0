/**
 * The entries table of internal/database/db.go.
 *
 * A table is a map from entry id to its row, plus the ids in rowid (insertion)
 * order and a logical clock standing for SQLite's CURRENT_TIMESTAMP. Every write
 * that stamps a row reads the clock and then advances it, so the clock is
 * strictly increasing and rowid order is also fetched_at order.
 */
module Database {
  import opened Wrappers

  /** A value of CURRENT_TIMESTAMP. */
  type Time = nat

  /** The serialized feed item kept in the entry_data column. */
  type Blob = seq<bv8>

  /** One row of the entries table; its id is the map key. */
  datatype Row = Row(data: Blob, postedAt: Option<Time>, fetchedAt: Time)

  /** An entry as GetUnpostedEntries hands it out. */
  datatype Entry = Entry(id: string, data: Blob, postedAt: Option<Time>, fetchedAt: Time)

  /** The durable state: rows by id, ids in rowid order, and the clock. */
  datatype Table = Table(rows: map<string, Row>, order: seq<string>, clock: Time)

  /** StorageError is an I/O failure of a statement; NotFound is MarkAsPosted's "entry not found". */
  datatype DbError = StorageError | NotFound(id: string)

  /** The three counts GetStats reports. */
  datatype Stats = Stats(total: nat, posted: nat, unposted: nat)

  function EntryOf(id: string, row: Row): Entry {
    Entry(id, row.data, row.postedAt, row.fetchedAt)
  }

  function IdsOf(entries: seq<Entry>): (ids: seq<string>)
    ensures |ids| == |entries|
    ensures forall i :: 0 <= i < |ids| ==> ids[i] == entries[i].id
  {
    seq(|entries|, i requires 0 <= i < |entries| => entries[i].id)
  }

  function Min(a: int, b: int): int {
    if a <= b then a else b
  }

  ghost predicate Distinct(ids: seq<string>) {
    forall i, j :: 0 <= i < j < |ids| ==> ids[i] != ids[j]
  }

  /** Along ids, rows present in the table were fetched strictly later and later. */
  ghost predicate FetchOrdered(rows: map<string, Row>, ids: seq<string>) {
    forall i, j :: 0 <= i < j < |ids| && ids[i] in rows && ids[j] in rows ==>
      rows[ids[i]].fetchedAt < rows[ids[j]].fetchedAt
  }

  /** The invariant every reachable table keeps. */
  ghost predicate WellFormed(t: Table) {
    && (forall i :: 0 <= i < |t.order| ==> t.order[i] in t.rows)
    && (forall id :: id in t.rows ==> id in t.order)
    && FetchOrdered(t.rows, t.order)
    && (forall id :: id in t.rows ==> t.rows[id].fetchedAt < t.clock)
  }

  lemma WellFormedDistinct(t: Table)
    requires WellFormed(t)
    ensures Distinct(t.order)
  {
  }

  /** A table with no rows, as InitSchema leaves a new database. */
  function EmptyTable(now: Time): (t: Table)
    ensures WellFormed(t) && t.rows == map[]
  {
    Table(map[], [], now)
  }

  // ---------------------------------------------------------------------------
  // Writes: INSERT OR IGNORE and UPDATE ... SET posted_at
  // ---------------------------------------------------------------------------

  /** The table after `INSERT OR IGNORE` of (id, data, now, NULL). */
  function Inserted(t: Table, id: string, data: Blob): Table {
    if id in t.rows then t
    else Table(t.rows[id := Row(data, None, t.clock)], t.order + [id], t.clock + 1)
  }

  /** The table after `UPDATE entries SET posted_at = now WHERE id = ?`. */
  function Marked(t: Table, id: string): Table {
    if id !in t.rows then t
    else Table(t.rows[id := t.rows[id].(postedAt := Some(t.clock))], t.order, t.clock + 1)
  }

  /**
   * Saving an unseen id adds exactly one row, unposted and fetched now; saving a
   * known id changes nothing at all. No existing row is ever altered.
   */
  lemma InsertedEffect(t: Table, id: string, data: Blob)
    ensures var r := Inserted(t, id, data);
      && r.rows.Keys == t.rows.Keys + {id}
      && |r.rows| == (if id in t.rows then |t.rows| else |t.rows| + 1)
      && (id in t.rows ==> r == t)
      && (id !in t.rows ==> r.rows[id] == Row(data, None, t.clock))
      && (forall k :: k in t.rows ==> r.rows[k] == t.rows[k])
  {
  }

  /**
   * Marking a known id sets its posted_at to now, whatever it was before, and
   * changes no other row or field; marking an unknown id changes nothing.
   */
  lemma MarkedEffect(t: Table, id: string)
    ensures var r := Marked(t, id);
      && r.rows.Keys == t.rows.Keys && r.order == t.order
      && (id !in t.rows ==> r == t)
      && (id in t.rows ==> r.rows[id] == t.rows[id].(postedAt := Some(t.clock)))
      && (forall k :: k in t.rows && k != id ==> r.rows[k] == t.rows[k])
  {
  }

  /** Inserting keeps the invariant: the new id goes last, stamped later than every row. */
  lemma InsertedWellFormed(t: Table, id: string, data: Blob)
    requires WellFormed(t)
    ensures WellFormed(Inserted(t, id, data))
  {
    if id !in t.rows {
      var r := Inserted(t, id, data);
      forall i | 0 <= i < |r.order|
        ensures r.order[i] in r.rows
      {
        if i < |t.order| {
          assert r.order[i] == t.order[i];
        }
      }
      forall i, j | 0 <= i < j < |r.order| && r.order[i] in r.rows && r.order[j] in r.rows
        ensures r.rows[r.order[i]].fetchedAt < r.rows[r.order[j]].fetchedAt
      {
        assert r.order[i] == t.order[i];
        if j < |t.order| {
          assert r.order[j] == t.order[j];
        }
      }
    }
  }

  /** Marking keeps the invariant: it changes only posted_at. */
  lemma MarkedWellFormed(t: Table, id: string)
    requires WellFormed(t)
    ensures WellFormed(Marked(t, id))
  {
  }

  // ---------------------------------------------------------------------------
  // GetUnpostedEntries
  // ---------------------------------------------------------------------------

  /** The unposted rows among ids, in the order of ids. */
  function UnpostedAmong(rows: map<string, Row>, ids: seq<string>): (r: seq<Entry>)
    ensures |r| <= |ids|
    decreases |ids|
  {
    if ids == [] then []
    else
      var id := ids[|ids| - 1];
      UnpostedAmong(rows, ids[..|ids| - 1]) + Kept(rows, id)
  }

  /** The entry for id when its row exists with posted_at NULL. */
  function Kept(rows: map<string, Row>, id: string): seq<Entry> {
    if id in rows && rows[id].postedAt.None? then [EntryOf(id, rows[id])] else []
  }

  /** `WHERE posted_at IS NULL ORDER BY fetched_at ASC`, without a LIMIT. */
  function Unposted(t: Table): seq<Entry> {
    UnpostedAmong(t.rows, t.order)
  }

  /** SQL's `LIMIT n`, appended only when n > 0. */
  function Take<T>(s: seq<T>, limit: int): (r: seq<T>)
    ensures limit <= 0 ==> r == s
    ensures limit > 0 ==> |r| == Min(limit, |s|) && r == s[..|r|]
  {
    if limit > 0 && limit < |s| then s[..limit] else s
  }

  lemma {:induction false} UnpostedAmongMembers(rows: map<string, Row>, ids: seq<string>)
    ensures forall e :: e in UnpostedAmong(rows, ids) ==>
      e.id in ids && e.id in rows && rows[e.id].postedAt.None? && e == EntryOf(e.id, rows[e.id])
    ensures forall id :: id in ids && id in rows && rows[id].postedAt.None? ==>
      EntryOf(id, rows[id]) in UnpostedAmong(rows, ids)
    decreases |ids|
  {
    if ids != [] {
      var prefix := ids[..|ids| - 1];
      UnpostedAmongMembers(rows, prefix);
      assert ids == prefix + [ids[|ids| - 1]];
    }
  }

  /** Strictly increasing fetched_at. */
  ghost predicate OldestFirst(entries: seq<Entry>) {
    forall i, j :: 0 <= i < j < |entries| ==> entries[i].fetchedAt < entries[j].fetchedAt
  }

  lemma {:induction false} UnpostedAmongSorted(rows: map<string, Row>, ids: seq<string>)
    requires FetchOrdered(rows, ids)
    ensures OldestFirst(UnpostedAmong(rows, ids))
    decreases |ids|
  {
    if ids != [] {
      var n := |ids|;
      var prefix := ids[..n - 1];
      var last := ids[n - 1];
      var p := UnpostedAmong(rows, prefix);
      UnpostedAmongSorted(rows, prefix);
      assert OldestFirst(p);
      UnpostedAmongMembers(rows, prefix);
      if last in rows && rows[last].postedAt.None? {
        var e := EntryOf(last, rows[last]);
        var r := p + [e];
        assert UnpostedAmong(rows, ids) == r;
        forall i | 0 <= i < |p|
          ensures p[i].fetchedAt < e.fetchedAt
        {
          assert p[i] in p;
          var k :| 0 <= k < |prefix| && prefix[k] == p[i].id;
          assert ids[k] == p[i].id;
          assert rows[ids[k]].fetchedAt < rows[ids[n - 1]].fetchedAt;
          assert p[i] == EntryOf(p[i].id, rows[p[i].id]);
        }
        forall i, j | 0 <= i < j < |r|
          ensures r[i].fetchedAt < r[j].fetchedAt
        {
          assert r[i] == p[i];
          if j < |p| {
            assert r[j] == p[j];
          } else {
            assert r[j] == e;
          }
        }
      } else {
        assert UnpostedAmong(rows, ids) == p;
      }
    }
  }

  /** The backlog ids that appear among ids. */
  ghost function BacklogAmong(rows: map<string, Row>, ids: seq<string>): set<string> {
    set id | id in ids && id in rows && rows[id].postedAt.None?
  }

  lemma {:induction false} UnpostedAmongCount(rows: map<string, Row>, ids: seq<string>)
    requires Distinct(ids)
    ensures |UnpostedAmong(rows, ids)| == |BacklogAmong(rows, ids)|
    decreases |ids|
  {
    if ids != [] {
      var n := |ids|;
      var prefix := ids[..n - 1];
      var last := ids[n - 1];
      UnpostedAmongCount(rows, prefix);
      assert ids == prefix + [last];
      forall k | 0 <= k < |prefix|
        ensures prefix[k] != last
      {
        assert prefix[k] == ids[k];
      }
      if last in rows && rows[last].postedAt.None? {
        assert BacklogAmong(rows, ids) == BacklogAmong(rows, prefix) + {last};
      } else {
        assert BacklogAmong(rows, ids) == BacklogAmong(rows, prefix);
      }
    }
  }

  lemma {:induction false} UnpostedAmongPrefix(rows: map<string, Row>, ids: seq<string>, i: nat)
    requires i <= |ids|
    ensures UnpostedAmong(rows, ids[..i]) <= UnpostedAmong(rows, ids)
    decreases |ids| - i
  {
    if i < |ids| {
      var prefix := ids[..|ids| - 1];
      assert prefix[..i] == ids[..i];
      UnpostedAmongPrefix(rows, prefix, i);
    } else {
      assert ids[..i] == ids;
    }
  }

  // ---------------------------------------------------------------------------
  // GetStats, GetLastFetchTime, GetLastPostTime
  // ---------------------------------------------------------------------------

  function PostedIds(t: Table): set<string> {
    set id | id in t.rows && t.rows[id].postedAt.Some?
  }

  function BacklogIds(t: Table): set<string> {
    set id | id in t.rows && t.rows[id].postedAt.None?
  }

  /** The three COUNT(*) queries of GetStats. */
  function GetStats(t: Table): (s: Stats)
    ensures s.total == s.posted + s.unposted
  {
    assert t.rows.Keys == PostedIds(t) + BacklogIds(t);
    assert PostedIds(t) * BacklogIds(t) == {};
    Stats(|t.rows|, |PostedIds(t)|, |BacklogIds(t)|)
  }

  /** SQL MAX over the stamps present along ids; None when every stamp is NULL. */
  function Latest(ids: seq<string>, stamp: string -> Option<Time>): (r: Option<Time>)
    ensures r.None? <==> forall i :: 0 <= i < |ids| ==> stamp(ids[i]).None?
    ensures r.Some? ==> exists i :: 0 <= i < |ids| && stamp(ids[i]) == r
    ensures forall i :: 0 <= i < |ids| && stamp(ids[i]).Some? ==> r.Some? && stamp(ids[i]).value <= r.value
    decreases |ids|
  {
    if ids == [] then None
    else
      var rest := Latest(ids[..|ids| - 1], stamp);
      var last := stamp(ids[|ids| - 1]);
      if last.None? then rest
      else if rest.None? || rest.value < last.value then last
      else rest
  }

  function FetchStamp(rows: map<string, Row>): string -> Option<Time> {
    id => if id in rows then Some(rows[id].fetchedAt) else None
  }

  function PostStamp(rows: map<string, Row>): string -> Option<Time> {
    id => if id in rows then rows[id].postedAt else None
  }

  /** `SELECT MAX(fetched_at) FROM entries`. */
  function LastFetchTime(t: Table): Option<Time> {
    Latest(t.order, FetchStamp(t.rows))
  }

  /** `SELECT MAX(posted_at) FROM entries WHERE posted_at IS NOT NULL`. */
  function LastPostTime(t: Table): Option<Time> {
    Latest(t.order, PostStamp(t.rows))
  }

  lemma LastFetchTimeIsMax(t: Table)
    requires WellFormed(t)
    ensures LastFetchTime(t).None? <==> t.rows == map[]
    ensures LastFetchTime(t).Some? ==>
      exists id :: id in t.rows && t.rows[id].fetchedAt == LastFetchTime(t).value
    ensures forall id :: id in t.rows ==>
      LastFetchTime(t).Some? && t.rows[id].fetchedAt <= LastFetchTime(t).value
  {
    var stamp := FetchStamp(t.rows);
    var r := LastFetchTime(t);
    forall id | id in t.rows
      ensures r.Some? && t.rows[id].fetchedAt <= r.value
    {
      var i :| 0 <= i < |t.order| && t.order[i] == id;
      assert stamp(t.order[i]).Some?;
    }
    if r.Some? {
      var i :| 0 <= i < |t.order| && stamp(t.order[i]) == r;
      assert t.order[i] in t.rows;
    }
    if t.rows != map[] {
      var id :| id in t.rows;
      assert r.Some?;
    }
  }

  lemma LastPostTimeIsMax(t: Table)
    requires WellFormed(t)
    ensures LastPostTime(t).None? <==> PostedIds(t) == {}
    ensures LastPostTime(t).Some? ==>
      exists id :: id in PostedIds(t) && t.rows[id].postedAt == LastPostTime(t)
    ensures forall id :: id in PostedIds(t) ==>
      LastPostTime(t).Some? && t.rows[id].postedAt.value <= LastPostTime(t).value
  {
    var stamp := PostStamp(t.rows);
    var r := LastPostTime(t);
    forall id | id in PostedIds(t)
      ensures r.Some? && t.rows[id].postedAt.value <= r.value
    {
      var i :| 0 <= i < |t.order| && t.order[i] == id;
      assert stamp(t.order[i]).Some?;
    }
    if r.Some? {
      var i :| 0 <= i < |t.order| && stamp(t.order[i]) == r;
      assert t.order[i] in PostedIds(t);
    }
    if PostedIds(t) != {} {
      var id :| id in PostedIds(t);
      assert r.Some?;
    }
  }

  // ---------------------------------------------------------------------------
  // Properties of the backlog query
  // ---------------------------------------------------------------------------

  /**
   * GetUnpostedEntries(0) returns exactly the rows whose posted_at is NULL, each with
   * its stored fields, strictly oldest first, one per unposted row.
   */
  lemma UnpostedIsBacklog(t: Table)
    requires WellFormed(t)
    ensures forall e :: e in Unposted(t) ==> e.id in BacklogIds(t) && e == EntryOf(e.id, t.rows[e.id])
    ensures forall id :: id in BacklogIds(t) ==> EntryOf(id, t.rows[id]) in Unposted(t)
    ensures OldestFirst(Unposted(t))
    ensures |Unposted(t)| == GetStats(t).unposted
  {
    UnpostedAmongMembers(t.rows, t.order);
    UnpostedAmongSorted(t.rows, t.order);
    UnpostedAmongCount(t.rows, t.order);
    assert BacklogAmong(t.rows, t.order) == BacklogIds(t);
  }

  /** With a positive limit the page holds min(limit, #unposted) entries, the oldest ones. */
  lemma BacklogPage(t: Table, limit: int)
    requires WellFormed(t)
    ensures limit <= 0 ==> Take(Unposted(t), limit) == Unposted(t)
    ensures limit > 0 ==> |Take(Unposted(t), limit)| == Min(limit, GetStats(t).unposted)
    ensures Take(Unposted(t), limit) <= Unposted(t)
  {
    UnpostedIsBacklog(t);
  }

  /** Inserting A, B, C into an empty table gives the backlog [A, B, C], oldest first. */
  lemma InsertionOrderScenario(a: string, b: string, c: string, da: Blob, db: Blob, dc: Blob, now: Time)
    requires a != b && b != c && a != c
    ensures Unposted(Inserted(Inserted(Inserted(EmptyTable(now), a, da), b, db), c, dc))
      == [Entry(a, da, None, now), Entry(b, db, None, now + 1), Entry(c, dc, None, now + 2)]
  {
    var t3 := Inserted(Inserted(Inserted(EmptyTable(now), a, da), b, db), c, dc);
    assert t3.order == [a, b, c];
    BacklogOfThree(t3.rows, a, b, c);
  }

  /** Marking B in that table leaves the backlog [A, C]. */
  lemma PostedExclusionScenario(a: string, b: string, c: string, da: Blob, db: Blob, dc: Blob, now: Time, later: Time)
    requires a != b && b != c && a != c
    ensures var rows := map[a := Row(da, None, now), b := Row(db, None, now + 1), c := Row(dc, None, now + 2)];
      Unposted(Marked(Table(rows, [a, b, c], later), b))
        == [Entry(a, da, None, now), Entry(c, dc, None, now + 2)]
  {
    var rows := map[a := Row(da, None, now), b := Row(db, None, now + 1), c := Row(dc, None, now + 2)];
    var m := Marked(Table(rows, [a, b, c], later), b);
    assert m.order == [a, b, c];
    assert m.rows == map[a := Row(da, None, now), b := Row(db, Some(later), now + 1), c := Row(dc, None, now + 2)];
    BacklogOfThree(m.rows, a, b, c);
  }

  lemma BacklogOfThree(rows: map<string, Row>, a: string, b: string, c: string)
    ensures UnpostedAmong(rows, [a, b, c]) == Kept(rows, a) + Kept(rows, b) + Kept(rows, c)
  {
    assert [a][..0] == [];
    assert UnpostedAmong(rows, [a]) == Kept(rows, a);
    assert [a, b][..1] == [a];
    assert UnpostedAmong(rows, [a, b]) == Kept(rows, a) + Kept(rows, b);
    assert [a, b, c][..2] == [a, b];
  }

  // ---------------------------------------------------------------------------
  // A run of MarkAsPosted calls
  // ---------------------------------------------------------------------------

  /** The table after MarkAsPosted(ids[0]), ..., MarkAsPosted(ids[n-1]); call i fails on I/O when fails(i). */
  function MarkEach(t: Table, ids: seq<string>, fails: nat -> bool): Table
    decreases |ids|
  {
    if ids == [] then t
    else
      var prev := MarkEach(t, ids[..|ids| - 1], fails);
      if fails(|ids| - 1) then prev else Marked(prev, ids[|ids| - 1])
  }

  /** How many of those calls report success. */
  function MarkSuccesses(t: Table, ids: seq<string>, fails: nat -> bool): (n: nat)
    ensures n <= |ids|
    decreases |ids|
  {
    if ids == [] then 0
    else
      MarkSuccesses(t, ids[..|ids| - 1], fails)
        + (if !fails(|ids| - 1) && ids[|ids| - 1] in t.rows then 1 else 0)
  }

  /** The ids whose MarkAsPosted call succeeds. */
  ghost function MarkedIds(t: Table, ids: seq<string>, fails: nat -> bool): set<string> {
    set i | 0 <= i < |ids| && !fails(i) && ids[i] in t.rows :: ids[i]
  }

  /** Marking adds the id to the posted rows when it is known. */
  lemma MarkedPostedIds(t: Table, id: string)
    ensures PostedIds(Marked(t, id)) == PostedIds(t) + (if id in t.rows then {id} else {})
  {
  }

  /** A run of MarkAsPosted calls keeps the table well formed. */
  lemma {:induction false} MarkEachWellFormed(t: Table, ids: seq<string>, fails: nat -> bool)
    requires WellFormed(t)
    ensures WellFormed(MarkEach(t, ids, fails))
    decreases |ids|
  {
    if ids != [] {
      var prefix := ids[..|ids| - 1];
      MarkEachWellFormed(t, prefix, fails);
      MarkedWellFormed(MarkEach(t, prefix, fails), ids[|ids| - 1]);
    }
  }

  /**
   * A run of MarkAsPosted calls keeps every row's data and fetched_at and the row
   * order, and leaves rows it did not mark untouched.
   */
  lemma {:induction false} MarkEachFrame(t: Table, ids: seq<string>, fails: nat -> bool)
    ensures var r := MarkEach(t, ids, fails);
      && r.rows.Keys == t.rows.Keys && r.order == t.order
      && (forall id :: id in t.rows ==> r.rows[id].data == t.rows[id].data && r.rows[id].fetchedAt == t.rows[id].fetchedAt)
      && (forall id :: id in t.rows && id !in MarkedIds(t, ids, fails) ==> r.rows[id] == t.rows[id])
    decreases |ids|
  {
    if ids != [] {
      var n := |ids|;
      var prefix := ids[..n - 1];
      var last := ids[n - 1];
      MarkEachFrame(t, prefix, fails);
      var prev := MarkEach(t, prefix, fails);
      var r := MarkEach(t, ids, fails);
      assert MarkedIds(t, prefix, fails) <= MarkedIds(t, ids, fails);
      if !fails(n - 1) {
        MarkedEffect(prev, last);
        if last in t.rows {
          assert last in MarkedIds(t, ids, fails);
        }
        forall id | id in t.rows
          ensures r.rows[id].data == t.rows[id].data && r.rows[id].fetchedAt == t.rows[id].fetchedAt
        {
          assert r.rows[id].data == prev.rows[id].data;
        }
        forall id | id in t.rows && id !in MarkedIds(t, ids, fails)
          ensures r.rows[id] == t.rows[id]
        {
          assert id != last;
          assert r.rows[id] == prev.rows[id];
        }
      }
    }
  }

  /** A run of MarkAsPosted calls adds to the posted rows exactly the known ids whose call did not fail. */
  lemma {:induction false} MarkEachPosted(t: Table, ids: seq<string>, fails: nat -> bool)
    ensures PostedIds(MarkEach(t, ids, fails)) == PostedIds(t) + MarkedIds(t, ids, fails)
    ensures MarkEach(t, ids, fails).rows.Keys == t.rows.Keys
    decreases |ids|
  {
    if ids != [] {
      var n := |ids|;
      var prefix := ids[..n - 1];
      var last := ids[n - 1];
      MarkEachPosted(t, prefix, fails);
      var prev := MarkEach(t, prefix, fails);
      if fails(n - 1) || last !in t.rows {
        assert MarkedIds(t, ids, fails) == MarkedIds(t, prefix, fails);
      } else {
        MarkedPostedIds(prev, last);
        assert MarkedIds(t, ids, fails) == MarkedIds(t, prefix, fails) + {last};
      }
    }
  }

  // ---------------------------------------------------------------------------
  // The store object
  // ---------------------------------------------------------------------------

  /** The DB handle's view of the entries table. */
  class EntryStore {
    var rows: map<string, Row>
    var order: seq<string>
    var clock: Time

    function State(): Table
      reads this
    {
      Table(rows, order, clock)
    }

    ghost predicate Valid()
      reads this
    {
      WellFormed(State())
    }

    /** An entries table freshly created by InitSchema; the clock starts at now. */
    constructor (now: Time)
      ensures Valid() && State() == EmptyTable(now)
    {
      rows, order, clock := map[], [], now;
    }

    /** INSERT OR IGNORE: a known id is a silent success that changes nothing. */
    method SaveEntry(id: string, data: Blob, ioFails: bool) returns (err: Option<DbError>)
      requires Valid()
      modifies this
      ensures Valid()
      ensures err == if ioFails then Some(StorageError) else None
      ensures State() == if ioFails then old(State()) else Inserted(old(State()), id, data)
    {
      if ioFails {
        return Some(StorageError);
      }
      InsertedWellFormed(State(), id, data);
      if id !in rows {
        rows := rows[id := Row(data, None, clock)];
        order := order + [id];
        clock := clock + 1;
      }
      return None;
    }

    /** Sets posted_at to now; an unknown id affects no row and is reported as NotFound. */
    method MarkAsPosted(id: string, ioFails: bool) returns (err: Option<DbError>)
      requires Valid()
      modifies this
      ensures Valid()
      ensures err == if ioFails then Some(StorageError)
                     else if id !in old(rows) then Some(NotFound(id))
                     else None
      ensures State() == if err.None? then Marked(old(State()), id) else old(State())
    {
      if ioFails {
        return Some(StorageError);
      }
      if id !in rows {
        return Some(NotFound(id));
      }
      MarkedWellFormed(State(), id);
      rows := rows[id := rows[id].(postedAt := Some(clock))];
      clock := clock + 1;
      return None;
    }

    /** Scans the rows oldest first, keeping the unposted ones, up to limit when limit > 0. */
    method GetUnpostedEntries(limit: int) returns (entries: seq<Entry>)
      requires Valid()
      ensures entries == Take(Unposted(State()), limit)
    {
      entries := [];
      var i := 0;
      while i < |order| && (limit <= 0 || |entries| < limit)
        invariant 0 <= i <= |order|
        invariant entries == UnpostedAmong(rows, order[..i])
        invariant limit > 0 ==> |entries| <= limit
      {
        var id := order[i];
        assert order[..i + 1][..i] == order[..i];
        if rows[id].postedAt.None? {
          entries := entries + [EntryOf(id, rows[id])];
        }
        i := i + 1;
      }
      UnpostedAmongPrefix(rows, order, i);
      if i == |order| {
        assert order[..i] == order;
      }
    }
  }
}
