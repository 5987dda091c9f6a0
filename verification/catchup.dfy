/**
 * The catchup command (internal/commands/catchup.go): mark the whole backlog as
 * posted without posting it, counting the MarkAsPosted calls that succeed.
 */
module CatchupCommand {
  import opened Wrappers
  import opened Database

  /** Whether the database opens, the --dry-run flag, and which MarkAsPosted calls fail. */
  datatype CatchupInputs = CatchupInputs(openFails: bool, dryRun: bool, markFails: nat -> bool)

  datatype CatchupError = OpenFailed

  /** What the command prints: nothing to mark, the dry-run preview, or the marked and failed counts. */
  datatype CatchupReport = NothingToMark | WouldMark(count: nat) | MarkedCount(marked: nat, failed: nat)

  /** The command's result and the entry table it leaves behind. */
  datatype CatchupRun = CatchupRun(result: Result<CatchupReport, CatchupError>, table: Table)

  /** runCatchup: GetUnpostedEntries(0), then one MarkAsPosted per entry unless it is a dry run. */
  function RunCatchupSpec(t: Table, inputs: CatchupInputs): CatchupRun {
    if inputs.openFails then CatchupRun(Failure(OpenFailed), t)
    else
      var entries := Take(Unposted(t), 0);
      if |entries| == 0 then CatchupRun(Success(NothingToMark), t)
      else if inputs.dryRun then CatchupRun(Success(WouldMark(|entries|)), t)
      else
        var ids := IdsOf(entries);
        var marked := MarkSuccesses(t, ids, inputs.markFails);
        CatchupRun(Success(MarkedCount(marked, |entries| - marked)), MarkEach(t, ids, inputs.markFails))
  }

  /** Only a non-dry run over a non-empty backlog writes; every other outcome leaves the store as it was. */
  lemma CatchupWritesOnlyWhenMarking(t: Table, inputs: CatchupInputs)
    ensures var run := RunCatchupSpec(t, inputs);
      !(run.result.Success? && run.result.value.MarkedCount?) ==> run.table == t
    ensures inputs.dryRun ==> RunCatchupSpec(t, inputs).table == t
    ensures Unposted(t) == [] ==> RunCatchupSpec(t, inputs).table == t
  {
  }

  /** The dry run and the real run report over the same entries: the whole backlog. */
  lemma CatchupCounts(t: Table, inputs: CatchupInputs)
    requires WellFormed(t)
    ensures var r := RunCatchupSpec(t, inputs).result;
      && (r.Success? && r.value.WouldMark? ==> r.value.count == GetStats(t).unposted)
      && (r.Success? && r.value.MarkedCount? ==> r.value.marked + r.value.failed == GetStats(t).unposted)
      && (r == Success(NothingToMark) <==> !inputs.openFails && GetStats(t).unposted == 0)
  {
    UnpostedIsBacklog(t);
  }

  /** With every call succeeding on ids the table holds, every call counts. */
  lemma {:induction false} MarkSuccessesAll(t: Table, ids: seq<string>, fails: nat -> bool)
    requires forall i :: 0 <= i < |ids| ==> ids[i] in t.rows && !fails(i)
    ensures MarkSuccesses(t, ids, fails) == |ids|
    decreases |ids|
  {
    if ids != [] {
      var prefix := ids[..|ids| - 1];
      forall i | 0 <= i < |prefix|
        ensures prefix[i] in t.rows && !fails(i)
      {
        assert prefix[i] == ids[i];
      }
      MarkSuccessesAll(t, prefix, fails);
    }
  }

  /** Every backlog id is among the ids the backlog's calls mark when none of them fails. */
  lemma BacklogIdsMarked(t: Table, fails: nat -> bool)
    requires WellFormed(t)
    requires forall i :: 0 <= i < |Unposted(t)| ==> !fails(i)
    ensures BacklogIds(t) <= MarkedIds(t, IdsOf(Unposted(t)), fails)
  {
    UnpostedIsBacklog(t);
    var entries := Unposted(t);
    var ids := IdsOf(entries);
    forall id | id in BacklogIds(t)
      ensures id in MarkedIds(t, ids, fails)
    {
      var e := EntryOf(id, t.rows[id]);
      assert e in entries;
      var i :| 0 <= i < |entries| && entries[i] == e;
      assert ids[i] == id;
    }
  }

  /** Marking the whole backlog with no failing call posts every row. */
  lemma BacklogAllMarked(t: Table, fails: nat -> bool)
    requires WellFormed(t)
    requires forall i :: 0 <= i < |Unposted(t)| ==> !fails(i)
    ensures PostedIds(MarkEach(t, IdsOf(Unposted(t)), fails)) == t.rows.Keys
    ensures MarkEach(t, IdsOf(Unposted(t)), fails).rows.Keys == t.rows.Keys
  {
    var ids := IdsOf(Unposted(t));
    MarkEachPosted(t, ids, fails);
    BacklogIdsMarked(t, fails);
    assert MarkedIds(t, ids, fails) <= t.rows.Keys;
    assert t.rows.Keys == PostedIds(t) + BacklogIds(t);
  }

  /** Marking the whole backlog with no failing call counts every call as a success. */
  lemma BacklogAllCounted(t: Table, fails: nat -> bool)
    requires WellFormed(t)
    requires forall i :: 0 <= i < |Unposted(t)| ==> !fails(i)
    ensures MarkSuccesses(t, IdsOf(Unposted(t)), fails) == |Unposted(t)|
  {
    UnpostedIsBacklog(t);
    var entries := Unposted(t);
    var ids := IdsOf(entries);
    forall i | 0 <= i < |ids|
      ensures ids[i] in t.rows && !fails(i)
    {
      assert entries[i] in entries;
    }
    MarkSuccessesAll(t, ids, fails);
  }

  /**
   * A non-dry catchup in which no MarkAsPosted call fails leaves no unposted row:
   * every row is posted, the row count is unchanged, and the report counts them all.
   */
  lemma CatchupClearsBacklog(t: Table, inputs: CatchupInputs)
    requires WellFormed(t) && !inputs.openFails && !inputs.dryRun
    requires forall i :: 0 <= i < GetStats(t).unposted ==> !inputs.markFails(i)
    ensures var run := RunCatchupSpec(t, inputs);
      && GetStats(run.table).unposted == 0
      && GetStats(run.table).posted == GetStats(run.table).total == GetStats(t).total
      && (GetStats(t).unposted > 0 ==> run.result == Success(MarkedCount(GetStats(t).unposted, 0)))
  {
    UnpostedIsBacklog(t);
    BacklogAllMarked(t, inputs.markFails);
    BacklogAllCounted(t, inputs.markFails);
    var after := MarkEach(t, IdsOf(Unposted(t)), inputs.markFails);
    assert BacklogIds(after) == {};
  }

  /** The marking loop: MarkAsPosted on each entry in turn, counting the calls that succeed. */
  method MarkAll(db: EntryStore, entries: seq<Entry>, markFails: nat -> bool) returns (markedCount: nat)
    requires db.Valid()
    modifies db
    ensures db.Valid()
    ensures db.State() == MarkEach(old(db.State()), IdsOf(entries), markFails)
    ensures markedCount == MarkSuccesses(old(db.State()), IdsOf(entries), markFails)
  {
    ghost var t0 := db.State();
    markedCount := 0;
    for k := 0 to |entries|
      invariant db.Valid()
      invariant db.State() == MarkEach(t0, IdsOf(entries[..k]), markFails)
      invariant markedCount == MarkSuccesses(t0, IdsOf(entries[..k]), markFails)
    {
      assert IdsOf(entries[..k + 1])[..k] == IdsOf(entries[..k]);
      MarkEachPosted(t0, IdsOf(entries[..k]), markFails);
      var err := db.MarkAsPosted(entries[k].id, markFails(k));
      if err.None? {
        markedCount := markedCount + 1;
      }
    }
    assert entries[..|entries|] == entries;
  }

  /** The run once the backlog is marked, in terms of the success count and the table left behind. */
  lemma CatchupMarkedRun(t: Table, inputs: CatchupInputs, entries: seq<Entry>, after: Table, marked: nat)
    requires !inputs.openFails && !inputs.dryRun
    requires entries == Take(Unposted(t), 0) && entries != []
    requires after == MarkEach(t, IdsOf(entries), inputs.markFails)
    requires marked == MarkSuccesses(t, IdsOf(entries), inputs.markFails)
    ensures RunCatchupSpec(t, inputs) == CatchupRun(Success(MarkedCount(marked, |entries| - marked)), after)
  {
  }

  /** runCatchup: counts the MarkAsPosted calls that succeed; failures are logged and skipped. */
  method RunCatchup(db: EntryStore, inputs: CatchupInputs) returns (r: Result<CatchupReport, CatchupError>)
    requires db.Valid()
    modifies db
    ensures db.Valid()
    ensures CatchupRun(r, db.State()) == RunCatchupSpec(old(db.State()), inputs)
  {
    if inputs.openFails {
      return Failure(OpenFailed);
    }
    var entries := db.GetUnpostedEntries(0);
    if |entries| == 0 {
      return Success(NothingToMark);
    }
    if inputs.dryRun {
      return Success(WouldMark(|entries|));
    }
    ghost var t0 := db.State();
    var markedCount := MarkAll(db, entries, inputs.markFails);
    CatchupMarkedRun(t0, inputs, entries, db.State(), markedCount);
    return Success(MarkedCount(markedCount, |entries| - markedCount));
  }
}
