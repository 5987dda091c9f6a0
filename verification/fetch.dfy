/**
 * The fetch command (internal/commands/fetch.go): validate the config, open the
 * store, take the row count, fetch and save the feed, take the counts again and
 * report the difference as the number of new entries.
 */
module FetchCommand {
  import opened Wrappers
  import opened Database
  import opened Feed
  import opened Configuration

  /**
   * Whether the database opens, the parsed feed (None when retrieving or parsing
   * it fails), and the oracles SaveEntriesToDB consumes.
   */
  datatype FetchInputs = FetchInputs(
    openFails: bool,
    fetched: Option<ParsedFeed>,
    marshal: Item -> Option<Blob>,
    sha256: string -> Digest,
    saveFails: nat -> bool)

  datatype FetchError = InvalidConfig(configError: ConfigError) | OpenFailed | FetchFailed

  /** The logged figures: new entries, saved items, "skipped duplicates", and the totals after saving. */
  datatype FetchReport = FetchReport(newEntries: int, saved: nat, skipped: int, totals: Stats)

  /** The command's result and the entry table it leaves behind. */
  datatype FetchRun = FetchRun(result: Result<FetchReport, FetchError>, table: Table)

  /** runFetch: validate, open, count, fetch, save, count again. */
  function RunFetchSpec(cfg: Config, t: Table, inputs: FetchInputs): FetchRun {
    if Validate(cfg).Some? then FetchRun(Failure(InvalidConfig(Validate(cfg).value)), t)
    else if inputs.openFails then FetchRun(Failure(OpenFailed), t)
    else
      var totalBefore := GetStats(t).total;
      if inputs.fetched.None? then FetchRun(Failure(FetchFailed), t)
      else
        var items := ItemsOf(inputs.fetched);
        var saved := SaveCount(items, inputs.marshal, inputs.saveFails);
        var after := SaveAll(t, items, inputs.marshal, inputs.sha256, inputs.saveFails);
        var stats := GetStats(after);
        FetchRun(Success(FetchReport(stats.total - totalBefore, saved, |items| - saved, stats)), after)
  }

  /** An invalid config is reported before the store is opened or the feed fetched: nothing else matters. */
  lemma InvalidConfigFirst(cfg: Config, t: Table, inputs: FetchInputs, other: FetchInputs)
    requires Validate(cfg).Some?
    ensures RunFetchSpec(cfg, t, inputs) == RunFetchSpec(cfg, t, other)
    ensures RunFetchSpec(cfg, t, inputs) == FetchRun(Failure(InvalidConfig(Validate(cfg).value)), t)
  {
  }

  /** Every failed run, including a failed fetch, leaves the store as it was. */
  lemma FailedFetchLeavesStore(cfg: Config, t: Table, inputs: FetchInputs)
    ensures RunFetchSpec(cfg, t, inputs).result.Failure? ==> RunFetchSpec(cfg, t, inputs).table == t
    ensures Validate(cfg).None? && !inputs.openFails && inputs.fetched.None? ==>
              RunFetchSpec(cfg, t, inputs) == FetchRun(Failure(FetchFailed), t)
  {
  }

  /**
   * The new-entry count, the difference of the two totals, is the number of distinct
   * ids saved that the store did not hold; it is never negative.
   */
  lemma NewEntriesAreUnknownIds(cfg: Config, t: Table, inputs: FetchInputs)
    requires RunFetchSpec(cfg, t, inputs).result.Success?
    ensures var report := RunFetchSpec(cfg, t, inputs).result.value;
      && report.newEntries == |SavedIds(ItemsOf(inputs.fetched), inputs.marshal, inputs.sha256, inputs.saveFails) - t.rows.Keys|
      && report.newEntries >= 0
      && report.totals == GetStats(RunFetchSpec(cfg, t, inputs).table)
  {
    SaveAllGrowth(t, ItemsOf(inputs.fetched), inputs.marshal, inputs.sha256, inputs.saveFails);
  }

  /** Saves that succeed under the second set of failures also succeeded under the first. */
  ghost predicate NoNewSuccesses(items: seq<Item>, marshal: Item -> Option<Blob>, first: nat -> bool, second: nat -> bool) {
    forall i :: 0 <= i < |items| && SavedAt(items, i, marshal, second) ==> SavedAt(items, i, marshal, first)
  }

  lemma SavedIdsMonotone(items: seq<Item>, marshal: Item -> Option<Blob>, sha256: string -> Digest,
                         first: nat -> bool, second: nat -> bool)
    requires NoNewSuccesses(items, marshal, first, second)
    ensures SavedIds(items, marshal, sha256, second) <= SavedIds(items, marshal, sha256, first)
  {
    SavedIdsMembers(items, marshal, sha256, first);
    SavedIdsMembers(items, marshal, sha256, second);
  }

  /**
   * Fetching the same feed again finds no new entries and changes nothing, provided
   * every save that succeeds now also succeeded the first time (as it does when the
   * failures are the same, or when the first run had none).
   */
  lemma RefetchFindsNothing(cfg: Config, t: Table, first: FetchInputs, second: FetchInputs)
    requires RunFetchSpec(cfg, t, first).result.Success?
    requires second.fetched == first.fetched && second.marshal == first.marshal && second.sha256 == first.sha256
    requires !second.openFails
    requires NoNewSuccesses(ItemsOf(first.fetched), first.marshal, first.saveFails, second.saveFails)
    ensures var t1 := RunFetchSpec(cfg, t, first).table;
      var rerun := RunFetchSpec(cfg, t1, second);
      && rerun.result.Success? && rerun.result.value.newEntries == 0
      && rerun.table == t1
  {
    var items := ItemsOf(first.fetched);
    var t1 := RunFetchSpec(cfg, t, first).table;
    SaveAllFrame(t, items, first.marshal, first.sha256, first.saveFails);
    SavedIdsMonotone(items, first.marshal, first.sha256, first.saveFails, second.saveFails);
    ResaveIsNoOp(t1, items, second.marshal, second.sha256, second.saveFails);
  }

  /**
   * "Skipped duplicates" counts failed saves, not duplicates: with no encoding or
   * storage failure it is 0 even when every item was already stored.
   */
  lemma SkippedCountsFailures(cfg: Config, t: Table, inputs: FetchInputs)
    requires RunFetchSpec(cfg, t, inputs).result.Success?
    requires forall i :: 0 <= i < |ItemsOf(inputs.fetched)| ==>
               inputs.marshal(ItemsOf(inputs.fetched)[i]).Some? && !inputs.saveFails(i)
    ensures RunFetchSpec(cfg, t, inputs).result.value.skipped == 0
    ensures RunFetchSpec(cfg, t, inputs).result.value.saved == |ItemsOf(inputs.fetched)|
  {
    NoFaultsSavesAll(ItemsOf(inputs.fetched), inputs.marshal, inputs.sha256, inputs.saveFails);
  }

  /** The run once the feed is fetched and saved, in terms of the saved count and the table left behind. */
  lemma FetchedRun(cfg: Config, t: Table, inputs: FetchInputs, after: Table, saved: nat)
    requires Validate(cfg).None? && !inputs.openFails && inputs.fetched.Some?
    requires after == SaveAll(t, ItemsOf(inputs.fetched), inputs.marshal, inputs.sha256, inputs.saveFails)
    requires saved == SaveCount(ItemsOf(inputs.fetched), inputs.marshal, inputs.saveFails)
    ensures var stats := GetStats(after);
      RunFetchSpec(cfg, t, inputs)
        == FetchRun(Success(FetchReport(stats.total - GetStats(t).total, saved, |inputs.fetched.value.items| - saved, stats)), after)
  {
  }

  /** runFetch. */
  method RunFetch(cfg: Config, db: EntryStore, inputs: FetchInputs) returns (r: Result<FetchReport, FetchError>)
    requires db.Valid()
    modifies db
    ensures db.Valid()
    ensures FetchRun(r, db.State()) == RunFetchSpec(cfg, old(db.State()), inputs)
  {
    ghost var t0 := db.State();
    var invalid := Validate(cfg);
    if invalid.Some? {
      return Failure(InvalidConfig(invalid.value));
    }
    if inputs.openFails {
      return Failure(OpenFailed);
    }
    var totalBefore := GetStats(db.State()).total;
    if inputs.fetched.None? {
      return Failure(FetchFailed);
    }
    var saved := SaveEntriesToDB(inputs.fetched, db, inputs.marshal, inputs.sha256, inputs.saveFails);
    var stats := GetStats(db.State());
    var newEntries := stats.total - totalBefore;
    FetchedRun(cfg, t0, inputs, db.State(), saved);
    return Success(FetchReport(newEntries, saved, |inputs.fetched.value.items| - saved, stats));
  }
}
