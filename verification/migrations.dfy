/**
 * Schema versioning of the SQLite file: the entries table, the schema_migrations
 * table and the versions recorded in it. The SQL text of a migration is opaque;
 * whether its statement succeeds is an input (an Outcome per version).
 */
module Migrations {
  import opened Wrappers

  /** What schema_migrations and sqlite_master say, plus the migration statements that ran. */
  datatype SchemaState = SchemaState(
    entriesTable: bool,       // the entries table exists
    migrationsTable: bool,    // the schema_migrations table exists
    executed: seq<int>,       // versions whose migration statement ran, in order
    recorded: seq<int>)       // rows of schema_migrations, in insertion order

  /** How the two statements of ApplyMigration fare for one version. */
  datatype Outcome = Applies | ExecFails | RecordFails

  datatype MigrationError = ApplyFailed(version: int) | RecordFailed(version: int)

  datatype OpenError = InitFailed | MigrationsFailed(cause: MigrationError)

  /** The state a migration run leaves and the error it returns, if any. */
  datatype Run = Run(state: SchemaState, err: Option<MigrationError>)

  /** The shipped migrations: none beyond the initial schema. */
  function GetMigrations(): map<int, string> {
    map[]
  }

  // ---------------------------------------------------------------------------
  // Versions
  // ---------------------------------------------------------------------------

  /** COALESCE(MAX(version), 0). */
  function MaxOrZero(s: seq<int>): (r: int)
    ensures s == [] ==> r == 0
    ensures s != [] ==> r in s
    ensures forall x :: x in s ==> x <= r
  {
    if s == [] then 0
    else
      var p := MaxOrZero(s[..|s| - 1]);
      assert s == s[..|s| - 1] + [s[|s| - 1]];
      if |s| == 1 || s[|s| - 1] > p then s[|s| - 1] else p
  }

  /** GetMigrationVersion: the largest recorded version, 0 when none is recorded or the table is missing. */
  function Version(s: SchemaState): (v: int)
    ensures !s.migrationsTable || s.recorded == [] ==> v == 0
    ensures s.migrationsTable && s.recorded != [] ==> v in s.recorded
    ensures s.migrationsTable ==> forall x :: x in s.recorded ==> x <= v
  {
    if s.migrationsTable then MaxOrZero(s.recorded) else 0
  }

  /** v is max(1, largest key of m). */
  ghost predicate IsTarget(m: map<int, string>, v: int) {
    && v >= 1
    && (forall k :: k in m ==> k <= v)
    && (v == 1 || v in m)
  }

  /** A non-empty set has a member. */
  lemma HasMember(keys: set<int>)
    requires |keys| > 0
    ensures exists k :: k in keys
  {
    if forall k :: k !in keys {
      assert false;
    }
  }

  ghost function MaxAtLeast(keys: set<int>, floor: int): (r: int)
    ensures r >= floor && (r == floor || r in keys)
    ensures forall k :: k in keys ==> k <= r
    decreases keys
  {
    if |keys| == 0 then floor
    else
      HasMember(keys);
      var k :| k in keys;
      var r := MaxAtLeast(keys - {k}, floor);
      assert forall x :: x in keys ==> x == k || x in keys - {k};
      if k > r then k else r
  }

  /** The version a run brings the schema to. */
  ghost function Target(m: map<int, string>): (v: int)
    ensures IsTarget(m, v)
  {
    MaxAtLeast(m.Keys, 1)
  }

  /** There is only one such version. */
  lemma TargetUnique(m: map<int, string>, v: int, w: int)
    requires IsTarget(m, v) && IsTarget(m, w)
    ensures v == w
  {
  }

  /** The maxVersion scan over the migrations map. */
  method MaxMigrationVersion(m: map<int, string>) returns (v: int)
    ensures v == Target(m)
  {
    v := 1;
    var rest := m.Keys;
    while |rest| > 0
      invariant rest <= m.Keys
      invariant v >= 1 && (v == 1 || v in m)
      invariant forall k :: k in m && k !in rest ==> k <= v
      decreases rest
    {
      HasMember(rest);
      var k :| k in rest;
      if k > v {
        v := k;
      }
      rest := rest - {k};
    }
    TargetUnique(m, v, Target(m));
  }

  /** The keys of m in [lo, hi], ascending: the versions the loop applies. */
  function Pending(m: map<int, string>, lo: int, hi: int): seq<int>
    decreases if hi < lo then 0 else hi - lo + 1
  {
    if hi < lo then []
    else Pending(m, lo, hi - 1) + (if hi in m then [hi] else [])
  }

  ghost predicate Ascending(vs: seq<int>) {
    forall i, j :: 0 <= i < j < |vs| ==> vs[i] < vs[j]
  }

  /** Every element of vs is a key of m in [lo, hi]. */
  ghost predicate Within(vs: seq<int>, m: map<int, string>, lo: int, hi: int) {
    forall i :: 0 <= i < |vs| ==> lo <= vs[i] <= hi && vs[i] in m
  }

  /** Every key of m in [lo, hi] is in vs. */
  ghost predicate Covers(vs: seq<int>, m: map<int, string>, lo: int, hi: int) {
    forall v :: lo <= v <= hi && v in m ==> v in vs
  }

  /** Everything pending is a key of m in [lo, hi]. */
  lemma {:induction false} PendingWithin(m: map<int, string>, lo: int, hi: int)
    ensures Within(Pending(m, lo, hi), m, lo, hi)
    decreases if hi < lo then 0 else hi - lo + 1
  {
    if lo <= hi {
      PendingWithin(m, lo, hi - 1);
      var p := Pending(m, lo, hi - 1);
      var vs := Pending(m, lo, hi);
      assert vs == p + (if hi in m then [hi] else []);
      forall i | 0 <= i < |vs|
        ensures lo <= vs[i] <= hi && vs[i] in m
      {
        if i < |p| {
          assert vs[i] == p[i];
        }
      }
    }
  }

  /** Every key of m in [lo, hi] is pending. */
  lemma {:induction false} PendingCovers(m: map<int, string>, lo: int, hi: int)
    ensures Covers(Pending(m, lo, hi), m, lo, hi)
    decreases if hi < lo then 0 else hi - lo + 1
  {
    if lo <= hi {
      PendingCovers(m, lo, hi - 1);
      var p := Pending(m, lo, hi - 1);
      var vs := Pending(m, lo, hi);
      assert vs == p + (if hi in m then [hi] else []);
      forall v | lo <= v <= hi && v in m
        ensures v in vs
      {
        if v < hi {
          assert v in p;
        } else {
          assert vs[|vs| - 1] == hi;
        }
      }
    }
  }

  /** The pending versions are strictly ascending. */
  lemma {:induction false} PendingAscending(m: map<int, string>, lo: int, hi: int)
    ensures Ascending(Pending(m, lo, hi))
    decreases if hi < lo then 0 else hi - lo + 1
  {
    if lo <= hi {
      PendingAscending(m, lo, hi - 1);
      PendingWithin(m, lo, hi - 1);
      var p := Pending(m, lo, hi - 1);
      var vs := Pending(m, lo, hi);
      assert vs == p + (if hi in m then [hi] else []);
      forall i, j | 0 <= i < j < |vs|
        ensures vs[i] < vs[j]
      {
        assert vs[i] == p[i];
        if j < |p| {
          assert vs[j] == p[j];
        }
      }
    }
  }

  /** Pending holds exactly the keys of m in [lo, hi], strictly ascending. */
  lemma PendingSpec(m: map<int, string>, lo: int, hi: int)
    ensures Within(Pending(m, lo, hi), m, lo, hi)
    ensures Covers(Pending(m, lo, hi), m, lo, hi)
    ensures Ascending(Pending(m, lo, hi))
  {
    PendingWithin(m, lo, hi);
    PendingCovers(m, lo, hi);
    PendingAscending(m, lo, hi);
  }

  /** A range with no key of m has nothing pending. */
  lemma {:induction false} PendingEmpty(m: map<int, string>, lo: int, hi: int)
    requires forall v :: lo <= v <= hi ==> v !in m
    ensures Pending(m, lo, hi) == []
    decreases if hi < lo then 0 else hi - lo + 1
  {
    if lo <= hi {
      PendingEmpty(m, lo, hi - 1);
    }
  }

  // ---------------------------------------------------------------------------
  // Applying migrations
  // ---------------------------------------------------------------------------

  /**
   * ApplyMigration: the statement runs first; the version is recorded only when
   * it succeeded, and the INSERT fails on a missing table or an existing version.
   */
  function ApplyOne(s: SchemaState, version: int, o: Outcome): Run {
    if o == ExecFails then Run(s, Some(ApplyFailed(version)))
    else
      var ran := s.(executed := s.executed + [version]);
      if o == RecordFails || !s.migrationsTable || version in s.recorded then
        Run(ran, Some(RecordFailed(version)))
      else
        Run(ran.(recorded := s.recorded + [version]), None)
  }

  /** Applies vs in order, stopping at the first error. */
  function ApplyAll(s: SchemaState, vs: seq<int>, outcome: int -> Outcome): Run
    decreases |vs|
  {
    if vs == [] then Run(s, None)
    else
      var prev := ApplyAll(s, vs[..|vs| - 1], outcome);
      if prev.err.Some? then prev else ApplyOne(prev.state, vs[|vs| - 1], outcome(vs[|vs| - 1]))
  }

  /** Index of the first version whose migration does not go through, |vs| when all do. */
  function FirstFailure(vs: seq<int>, outcome: int -> Outcome): (i: nat)
    ensures i <= |vs|
    ensures forall j :: 0 <= j < i ==> outcome(vs[j]) == Applies
    ensures i < |vs| ==> outcome(vs[i]) != Applies
    decreases |vs|
  {
    if vs == [] then 0
    else
      var p := FirstFailure(vs[..|vs| - 1], outcome);
      if p < |vs| - 1 then p
      else if outcome(vs[|vs| - 1]) != Applies then |vs| - 1
      else |vs|
  }

  /** The error a failed migration reports. */
  function FailureOf(version: int, o: Outcome): MigrationError {
    if o == ExecFails then ApplyFailed(version) else RecordFailed(version)
  }

  /** One version not yet recorded: it is run and recorded, or reports its failure. */
  lemma ApplyOneEffect(s: SchemaState, version: int, o: Outcome)
    requires s.migrationsTable && version !in s.recorded
    ensures var r := ApplyOne(s, version, o);
      && (o == Applies ==> r == Run(s.(executed := s.executed + [version], recorded := s.recorded + [version]), None))
      && (o != Applies ==> r.err == Some(FailureOf(version, o)))
      && (o != Applies ==> r.state == s.(executed := s.executed + (if o == RecordFails then [version] else [])))
  {
  }

  /** ApplyAll on a non-empty list: the list without its last version, then that version. */
  lemma ApplyAllStep(s: SchemaState, vs: seq<int>, outcome: int -> Outcome)
    requires vs != []
    ensures var n := |vs| - 1;
      var prev := ApplyAll(s, vs[..n], outcome);
      ApplyAll(s, vs, outcome) == if prev.err.Some? then prev else ApplyOne(prev.state, vs[n], outcome(vs[n]))
  {
  }

  /** The first failure of a non-empty list, from that of the list without its last version. */
  lemma FirstFailureStep(vs: seq<int>, outcome: int -> Outcome)
    requires vs != []
    ensures var n := |vs| - 1;
      var p := FirstFailure(vs[..n], outcome);
      FirstFailure(vs, outcome) == if p < n then p else if outcome(vs[n]) != Applies then n else n + 1
  {
  }

  /** Dropping the last version keeps a list ascending and clear of the recorded versions. */
  lemma PrefixStaysFresh(s: SchemaState, vs: seq<int>, prefix: seq<int>)
    requires vs != [] && prefix == vs[..|vs| - 1]
    requires Ascending(vs)
    requires forall i :: 0 <= i < |vs| ==> vs[i] !in s.recorded
    ensures Ascending(prefix)
    ensures forall i :: 0 <= i < |prefix| ==> prefix[i] !in s.recorded
    ensures vs[|vs| - 1] !in prefix
  {
  }

  /** The executed versions a run over vs leaves, given where its first failure is. */
  ghost predicate RanUpTo(base: seq<int>, executed: seq<int>, vs: seq<int>, i: nat, outcome: int -> Outcome)
    requires i <= |vs|
  {
    && (i == |vs| ==> executed == base + vs)
    && (i < |vs| ==> executed == base + vs[..i] + (if outcome(vs[i]) == RecordFails then [vs[i]] else []))
  }

  /** The executed versions once the list without its last version has already failed. */
  lemma RanUpToEarlier(base: seq<int>, executed: seq<int>, vs: seq<int>, p: nat, outcome: int -> Outcome)
    requires p < |vs| - 1
    requires RanUpTo(base, executed, vs[..|vs| - 1], p, outcome)
    ensures RanUpTo(base, executed, vs, p, outcome)
  {
    var prefix := vs[..|vs| - 1];
    assert prefix[..p] == vs[..p];
    assert prefix[p] == vs[p];
  }

  /** The executed versions once the last version runs after all the others went through. */
  lemma RanUpToLast(base: seq<int>, executed: seq<int>, vs: seq<int>, outcome: int -> Outcome)
    requires vs != []
    requires var n := |vs| - 1;
      executed == base + vs[..n] + (if outcome(vs[n]) == ExecFails then [] else [vs[n]])
    ensures var n := |vs| - 1;
      RanUpTo(base, executed, vs, if outcome(vs[n]) != Applies then n else n + 1, outcome)
  {
    var n := |vs| - 1;
    assert vs[..n] + [vs[n]] == vs;
  }

  /** The schema a run over vs leaves and the error it reports, given where its first failure is. */
  ghost predicate RecordedUpTo(s: SchemaState, r: Run, vs: seq<int>, i: nat, outcome: int -> Outcome)
    requires i <= |vs|
  {
    && r.state.entriesTable == s.entriesTable
    && r.state.migrationsTable
    && r.state.recorded == s.recorded + vs[..i]
    && (r.err.None? <==> i == |vs|)
    && (i < |vs| ==> r.err == Some(FailureOf(vs[i], outcome(vs[i]))))
  }

  /** The run once the list without its last version has already failed: nothing more happens. */
  lemma RecordedUpToEarlier(s: SchemaState, prev: Run, vs: seq<int>, p: nat, outcome: int -> Outcome)
    requires p < |vs| - 1
    requires RecordedUpTo(s, prev, vs[..|vs| - 1], p, outcome)
    ensures RecordedUpTo(s, prev, vs, p, outcome)
  {
    var prefix := vs[..|vs| - 1];
    assert prefix[..p] == vs[..p];
    assert prefix[p] == vs[p];
  }

  /** The run once the last version is applied after all the others went through. */
  lemma RecordedUpToLast(s: SchemaState, prev: Run, vs: seq<int>, outcome: int -> Outcome)
    requires vs != [] && prev.err.None? && prev.state.migrationsTable
    requires prev.state.entriesTable == s.entriesTable
    requires prev.state.recorded == s.recorded + vs[..|vs| - 1]
    requires vs[|vs| - 1] !in s.recorded && vs[|vs| - 1] !in vs[..|vs| - 1]
    ensures var n := |vs| - 1;
      RecordedUpTo(s, ApplyOne(prev.state, vs[n], outcome(vs[n])), vs,
                   if outcome(vs[n]) != Applies then n else n + 1, outcome)
  {
    var n := |vs| - 1;
    ApplyOneEffect(prev.state, vs[n], outcome(vs[n]));
    assert vs[..n] + [vs[n]] == vs;
  }

  /**
   * Versions not yet recorded are applied in order: exactly the versions before the
   * first failure are recorded, and the error names the failing version.
   */
  lemma {:induction false} ApplyAllRecords(s: SchemaState, vs: seq<int>, outcome: int -> Outcome)
    requires s.migrationsTable
    requires Ascending(vs)
    requires forall i :: 0 <= i < |vs| ==> vs[i] !in s.recorded
    ensures RecordedUpTo(s, ApplyAll(s, vs, outcome), vs, FirstFailure(vs, outcome), outcome)
    decreases |vs|
  {
    if vs != [] {
      var n := |vs| - 1;
      var prefix := vs[..n];
      PrefixStaysFresh(s, vs, prefix);
      ApplyAllRecords(s, prefix, outcome);
      ApplyAllStep(s, vs, outcome);
      FirstFailureStep(vs, outcome);
      var p := FirstFailure(prefix, outcome);
      var prev := ApplyAll(s, prefix, outcome);
      if p < n {
        RecordedUpToEarlier(s, prev, vs, p, outcome);
      } else {
        assert prev.state.recorded == s.recorded + prefix;
        RecordedUpToLast(s, prev, vs, outcome);
      }
    }
  }

  /**
   * Every version before the first failure ran; the failing one ran too when only
   * its record failed; nothing after it ran.
   */
  lemma {:induction false} ApplyAllRuns(s: SchemaState, vs: seq<int>, outcome: int -> Outcome)
    requires s.migrationsTable
    requires Ascending(vs)
    requires forall i :: 0 <= i < |vs| ==> vs[i] !in s.recorded
    ensures RanUpTo(s.executed, ApplyAll(s, vs, outcome).state.executed, vs, FirstFailure(vs, outcome), outcome)
    decreases |vs|
  {
    if vs != [] {
      var n := |vs| - 1;
      var prefix := vs[..n];
      PrefixStaysFresh(s, vs, prefix);
      ApplyAllRecords(s, prefix, outcome);
      ApplyAllRuns(s, prefix, outcome);
      ApplyAllStep(s, vs, outcome);
      FirstFailureStep(vs, outcome);
      var p := FirstFailure(prefix, outcome);
      var prev := ApplyAll(s, prefix, outcome);
      if p < n {
        RanUpToEarlier(s.executed, prev.state.executed, vs, p, outcome);
      } else {
        assert prev.state.executed == s.executed + prefix;
        RanUpToLast(s.executed, ApplyAll(s, vs, outcome).state.executed, vs, outcome);
      }
    }
  }

  /** ApplyAllRecords and ApplyAllRuns together. */
  lemma ApplyAllSpec(s: SchemaState, vs: seq<int>, outcome: int -> Outcome)
    requires s.migrationsTable
    requires Ascending(vs)
    requires forall i :: 0 <= i < |vs| ==> vs[i] !in s.recorded
    ensures var r := ApplyAll(s, vs, outcome);
      var i := FirstFailure(vs, outcome);
      && r.state.entriesTable == s.entriesTable
      && r.state.migrationsTable
      && r.state.recorded == s.recorded + vs[..i]
      && (r.err.None? <==> i == |vs|)
      && (i == |vs| ==> r.state.executed == s.executed + vs)
      && (i < |vs| ==> r.err == Some(FailureOf(vs[i], outcome(vs[i]))))
      && (i < |vs| ==>
            r.state.executed == s.executed + vs[..i] + (if outcome(vs[i]) == RecordFails then [vs[i]] else []))
  {
    ApplyAllRecords(s, vs, outcome);
    ApplyAllRuns(s, vs, outcome);
  }

  // ---------------------------------------------------------------------------
  // RunMigrations
  // ---------------------------------------------------------------------------

  /** An existing entries table with no recorded version is taken to be at version 1. */
  function Bootstraps(s: SchemaState): bool {
    MaxOrZero(s.recorded) == 0 && s.entriesTable
  }

  /** The current version once the bootstrap step is done. */
  function StartVersion(s: SchemaState): int {
    if Bootstraps(s) then 1 else MaxOrZero(s.recorded)
  }

  /** The state after CREATE TABLE IF NOT EXISTS schema_migrations and the bootstrap step. */
  function Started(s: SchemaState): SchemaState {
    var s0 := s.(migrationsTable := true);
    if Bootstraps(s) then s0.(recorded := s.recorded + [1]) else s0
  }

  /** The versions a run considers. */
  ghost function PendingFor(s: SchemaState, m: map<int, string>): seq<int> {
    Pending(m, StartVersion(s) + 1, Target(m))
  }

  /** What RunMigrations does to a schema whose recorded rows are s.recorded. */
  ghost function Migrated(s: SchemaState, m: map<int, string>, outcome: int -> Outcome): Run {
    ApplyAll(Started(s), PendingFor(s, m), outcome)
  }

  /** No pending version is already recorded after the bootstrap step. */
  lemma StartedRecordsBelowPending(s: SchemaState, m: map<int, string>)
    ensures Started(s).migrationsTable
    ensures forall v :: v in Started(s).recorded ==> v <= StartVersion(s)
    ensures forall i :: 0 <= i < |PendingFor(s, m)| ==> PendingFor(s, m)[i] !in Started(s).recorded
  {
    var cur := StartVersion(s);
    var vs := Pending(m, cur + 1, Target(m));
    assert PendingFor(s, m) == vs;
    PendingSpec(m, cur + 1, Target(m));
    assert forall v :: v in Started(s).recorded ==> v <= cur by {
      if Bootstraps(s) {
        assert Started(s).recorded == s.recorded + [1];
      }
    }
    forall i | 0 <= i < |vs|
      ensures vs[i] !in Started(s).recorded
    {
      assert vs[i] > cur;
    }
  }

  /**
   * RunMigrations records version 1 first when the entries table exists and nothing
   * is recorded, then applies the map's versions above the current one and up to
   * max(1, largest key) in ascending order: all before the first failure are run and
   * recorded, none after it, and the error names the failing version.
   */
  lemma MigratedSpec(s: SchemaState, m: map<int, string>, outcome: int -> Outcome)
    ensures var r := Migrated(s, m, outcome);
      var vs := PendingFor(s, m);
      var i := FirstFailure(vs, outcome);
      && r.state.entriesTable == s.entriesTable
      && r.state.migrationsTable
      && r.state.recorded == s.recorded + (if Bootstraps(s) then [1] else []) + vs[..i]
      && (r.err.None? <==> i == |vs|)
      && (i == |vs| ==> r.state.executed == s.executed + vs)
      && (i < |vs| ==> r.err == Some(FailureOf(vs[i], outcome(vs[i]))))
  {
    var s1 := Started(s);
    var vs := Pending(m, StartVersion(s) + 1, Target(m));
    assert PendingFor(s, m) == vs;
    StartedRecordsBelowPending(s, m);
    PendingSpec(m, StartVersion(s) + 1, Target(m));
    ApplyAllSpec(s1, vs, outcome);
    assert s1.recorded == s.recorded + (if Bootstraps(s) then [1] else []);
    assert s1.executed == s.executed && s1.entriesTable == s.entriesTable;
  }

  /** Once a version fails, no later version is considered: the run's result is fixed. */
  lemma {:induction false} FailureStopsRun(s: SchemaState, m: map<int, string>, lo: int, hi: int, hi2: int, outcome: int -> Outcome)
    requires hi <= hi2
    requires ApplyAll(s, Pending(m, lo, hi), outcome).err.Some?
    ensures ApplyAll(s, Pending(m, lo, hi2), outcome) == ApplyAll(s, Pending(m, lo, hi), outcome)
    decreases hi2 - hi
  {
    if hi < hi2 {
      FailureStopsRun(s, m, lo, hi, hi2 - 1, outcome);
      var p := Pending(m, lo, hi2 - 1);
      if lo <= hi2 && hi2 in m {
        assert Pending(m, lo, hi2) == p + [hi2];
        assert (p + [hi2])[..|p|] == p;
      } else {
        assert Pending(m, lo, hi2) == p;
      }
    }
  }

  /** At or above the target version nothing is executed or recorded. */
  lemma UpToDateDoesNothing(s: SchemaState, m: map<int, string>, outcome: int -> Outcome)
    requires StartVersion(s) >= Target(m)
    ensures Migrated(s, m, outcome) == Run(Started(s), None)
  {
  }

  /**
   * Versions are numbered from 1, the shipped ones from 2: then the bootstrap step
   * happens at most once and a run that succeeded leaves nothing for the next one.
   */
  ghost predicate Numbered(s: SchemaState, m: map<int, string>) {
    && (forall v :: v in s.recorded ==> v >= 1)
    && (forall k :: k in m ==> k >= 2)
  }

  /** After a successful run every pending version is recorded, and all recorded versions are at least 1. */
  lemma SuccessfulRunRecords(s: SchemaState, m: map<int, string>, outcome: int -> Outcome)
    requires Numbered(s, m)
    requires Migrated(s, m, outcome).err.None?
    ensures var t := Migrated(s, m, outcome).state;
      && t.migrationsTable && t.entriesTable == s.entriesTable
      && t.recorded == s.recorded + (if Bootstraps(s) then [1] else []) + PendingFor(s, m)
      && (forall v :: v in t.recorded ==> v >= 1)
  {
    var vs := Pending(m, StartVersion(s) + 1, Target(m));
    assert PendingFor(s, m) == vs;
    MigratedSpec(s, m, outcome);
    PendingSpec(m, StartVersion(s) + 1, Target(m));
    assert FirstFailure(vs, outcome) == |vs|;
    assert vs[..|vs|] == vs;
    var t := Migrated(s, m, outcome).state;
    var boot := if Bootstraps(s) then [1] else [];
    assert t.recorded == s.recorded + boot + vs;
    forall v | v in t.recorded
      ensures v >= 1
    {
      if v !in s.recorded && v !in boot {
        assert v in vs;
        var i :| 0 <= i < |vs| && vs[i] == v;
      }
    }
  }

  /** Re-running migrations after a successful run does no work. */
  lemma MigrateIdempotent(s: SchemaState, m: map<int, string>, outcome: int -> Outcome)
    requires Numbered(s, m)
    ensures var r := Migrated(s, m, outcome);
      r.err.None? ==> Migrated(r.state, m, outcome) == Run(r.state, None)
  {
    var r := Migrated(s, m, outcome);
    if r.err.None? {
      var t := r.state;
      var cur := StartVersion(s);
      var vs := Pending(m, cur + 1, Target(m));
      assert PendingFor(s, m) == vs;
      SuccessfulRunRecords(s, m, outcome);
      PendingSpec(m, cur + 1, Target(m));
      var cur2 := MaxOrZero(t.recorded);
      assert t.recorded != [] ==> cur2 >= 1;
      assert !Bootstraps(t) by {
        if t.entriesTable && !Bootstraps(s) {
          assert s.recorded[0] in t.recorded;
        }
      }
      assert Started(t) == t;
      assert cur <= cur2 by {
        if Bootstraps(s) {
          assert 1 in t.recorded;
        } else if s.recorded != [] {
          assert MaxOrZero(s.recorded) in t.recorded;
        }
      }
      assert forall v :: v in vs ==> v <= cur2;
      assert forall v :: cur2 < v <= Target(m) ==> v !in m;
      PendingEmpty(m, cur2 + 1, Target(m));
      assert PendingFor(t, m) == [];
    }
  }

  // ---------------------------------------------------------------------------
  // The schema object
  // ---------------------------------------------------------------------------

  /** The schema side of a DB handle. */
  class Schema {
    var entriesTable: bool
    var migrationsTable: bool
    var executed: seq<int>
    var recorded: seq<int>

    function State(): SchemaState
      reads this
    {
      SchemaState(entriesTable, migrationsTable, executed, recorded)
    }

    /** Nothing is recorded without a schema_migrations table. */
    ghost predicate Valid()
      reads this
    {
      !migrationsTable ==> recorded == []
    }

    /** A database file with no tables. */
    constructor ()
      ensures Valid() && State() == SchemaState(false, false, [], [])
    {
      entriesTable, migrationsTable, executed, recorded := false, false, [], [];
    }

    /** CREATE TABLE IF NOT EXISTS entries: a no-op on an existing table. */
    method InitSchema(createFails: bool) returns (err: Option<OpenError>)
      requires Valid()
      modifies this
      ensures Valid()
      ensures err == if createFails then Some(InitFailed) else None
      ensures State() == if createFails then old(State()) else old(State()).(entriesTable := true)
    {
      if createFails {
        return Some(InitFailed);
      }
      entriesTable := true;
      return None;
    }

    /** ApplyMigration(version, sql); o says how the two statements fare. */
    method ApplyMigration(version: int, sql: string, o: Outcome) returns (err: Option<MigrationError>)
      requires Valid()
      modifies this
      ensures Valid()
      ensures Run(State(), err) == ApplyOne(old(State()), version, o)
    {
      if o == ExecFails {
        return Some(ApplyFailed(version));
      }
      executed := executed + [version];
      if o == RecordFails || !migrationsTable || version in recorded {
        return Some(RecordFailed(version));
      }
      recorded := recorded + [version];
      return None;
    }

    /** The versions of m in [lo, hi], in ascending order, each applied with ApplyMigration until one fails. */
    method ApplyPending(m: map<int, string>, lo: int, hi: int, outcome: int -> Outcome) returns (err: Option<MigrationError>)
      requires Valid() && migrationsTable
      modifies this
      ensures Valid()
      ensures Run(State(), err) == ApplyAll(old(State()), Pending(m, lo, hi), outcome)
    {
      ghost var s1 := State();
      var version := lo;
      while version <= hi
        invariant version <= hi + 1 || version == lo
        invariant migrationsTable
        invariant Run(State(), None) == ApplyAll(s1, Pending(m, lo, version - 1), outcome)
        decreases hi + 1 - version
      {
        ghost var done := Pending(m, lo, version - 1);
        if version in m {
          assert Pending(m, lo, version) == done + [version];
          assert (done + [version])[..|done|] == done;
          err := ApplyMigration(version, m[version], outcome(version));
          if err.Some? {
            FailureStopsRun(s1, m, lo, version, hi, outcome);
            return;
          }
        } else {
          assert Pending(m, lo, version) == done;
        }
        version := version + 1;
      }
      if version == lo {
        assert Pending(m, lo, hi) == [];
      }
      return None;
    }

    method RunMigrations(m: map<int, string>, outcome: int -> Outcome) returns (err: Option<MigrationError>)
      requires Valid()
      modifies this
      ensures Valid()
      ensures Run(State(), err) == Migrated(old(State()), m, outcome)
    {
      ghost var s := State();
      migrationsTable := true;
      var current := MaxOrZero(recorded);
      if current == 0 && entriesTable {
        recorded := recorded + [1];
        current := 1;
      }
      assert State() == Started(s) && current == StartVersion(s);
      var maxVersion := MaxMigrationVersion(m);
      if current >= maxVersion {
        assert Pending(m, current + 1, maxVersion) == [];
        return None;
      }
      err := ApplyPending(m, current + 1, maxVersion, outcome);
    }

    /** database.New: InitSchema, then RunMigrations; either error aborts the open. */
    method Open(createFails: bool, m: map<int, string>, outcome: int -> Outcome) returns (err: Option<OpenError>)
      requires Valid()
      modifies this
      ensures Valid()
      ensures createFails ==> err == Some(InitFailed) && State() == old(State())
      ensures !createFails ==>
        var r := Migrated(old(State()).(entriesTable := true), m, outcome);
        State() == r.state && err == (if r.err.None? then None else Some(MigrationsFailed(r.err.value)))
    {
      err := InitSchema(createFails);
      if err.Some? {
        return;
      }
      var merr := RunMigrations(m, outcome);
      if merr.Some? {
        return Some(MigrationsFailed(merr.value));
      }
    }
  }

  /** With the shipped (empty) map a fresh database ends at version 1, whatever the outcomes. */
  lemma FreshDatabaseEndsAtVersionOne(outcome: int -> Outcome)
    ensures var r := Migrated(SchemaState(true, false, [], []), GetMigrations(), outcome);
      r == Run(SchemaState(true, true, [], [1]), None) && Version(r.state) == 1
  {
    assert Target(GetMigrations()) == 1;
    assert PendingFor(SchemaState(true, false, [], []), GetMigrations()) == [];
  }

  /** Opening the same database again (InitSchema is a no-op) runs and records nothing more. */
  lemma ReopenIsNoOp(s: SchemaState, outcome: int -> Outcome)
    requires Numbered(s, GetMigrations())
    ensures var r := Migrated(s.(entriesTable := true), GetMigrations(), outcome);
      && r.err.None?
      && Migrated(r.state.(entriesTable := true), GetMigrations(), outcome) == Run(r.state, None)
  {
    var s0 := s.(entriesTable := true);
    assert Target(GetMigrations()) == 1;
    assert PendingFor(s0, GetMigrations()) == [];
    MigrateIdempotent(s0, GetMigrations(), outcome);
  }
}
