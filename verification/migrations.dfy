/**
  The production migration runner, scripts/migrate-prod.ts.

  Any number of runs share one database.  A run is a step machine: each step is the
  stretch of code between two awaits, and the awaited call either succeeds (Advance) or
  rejects (Fail); Crash kills the process between two steps, which ends its session.
  A trace is any sequence of (run, event) pairs, so every theorem below that speaks of
  `Exec(s, trace)` speaks of every interleaving.
 */
module Migrations {
  import opened Common

  datatype Migration = Migration(tag: string, sql: seq<string>, hash: string)

  /** How a run ends; `Failed` is any rejection other than a failing migration. */
  datatype Outcome =
    | BackupRefused | LockRefused | UpToDate | DryRun | Applied
    | ApplyFailed(tag: string)
    | VerificationFailed(missing: seq<string>)
    | Failed | Crashed

  /**
    `SchemaReady` and `TableReady`: CREATE SCHEMA and CREATE TABLE ... IF NOT EXISTS have been executed,
    the lock not yet tried.  `Applying(p, i, j)`: inside the transaction of p[i], j of its statements
    executed.
   */
  datatype Phase =
    | Idle
    | SchemaReady
    | TableReady
    | Locked
    | Dumping(pending: seq<Migration>)
    | Applying(pending: seq<Migration>, i: nat, j: nat)
    | Verifying
    | Closing(outcome: Outcome)
    | Done(outcome: Outcome)

  /** Every run reads its own journal: two deploys may ship different ones. */
  datatype Run = Run(journal: seq<Migration>, dryRun: bool, confirmed: bool, phase: Phase)

  /**
    `schemaExists` and `tableExists` stand for the schema and table of the ledger.  `lock` is the
    session holding the advisory lock, `ledger` the rows of the table, `committed` every statement of
    a migration committed so far and `applied` the history of committed migrations.
   */
  datatype Database = Database(
    schemaExists: bool, tableExists: bool,
    lock: Option<nat>, ledger: seq<string>, committed: seq<string>, applied: seq<Migration>)

  datatype State = State(db: Database, runs: seq<Run>)

  datatype Event = Advance | Fail | Crash

  type Trace = seq<(nat, Event)>

  // ---------------------------------------------------------------- the diff

  function ComputePending(migrations: seq<Migration>, applied: set<string>): seq<Migration>
  {
    if migrations == [] then []
    else (if migrations[0].hash in applied then [] else [migrations[0]]) + ComputePending(migrations[1..], applied)
  }

  function ComputeApplied(migrations: seq<Migration>, applied: set<string>): seq<Migration>
  {
    if migrations == [] then []
    else (if migrations[0].hash in applied then [migrations[0]] else []) + ComputeApplied(migrations[1..], applied)
  }

  /** The pre-flight report splits the journal: every entry is on exactly one of the two lists. */
  lemma {:induction false} PendingAndAppliedPartition(migrations: seq<Migration>, applied: set<string>)
    ensures forall m :: m in ComputePending(migrations, applied) <==> m in migrations && m.hash !in applied
    ensures forall m :: m in ComputeApplied(migrations, applied) <==> m in migrations && m.hash in applied
    ensures multiset(ComputePending(migrations, applied)) + multiset(ComputeApplied(migrations, applied))
         == multiset(migrations)
  {
    if migrations != [] {
      PendingAndAppliedPartition(migrations[1..], applied);
      assert migrations == [migrations[0]] + migrations[1..];
    }
  }

  function Pending(journal: seq<Migration>, ledger: seq<string>): seq<Migration> {
    ComputePending(journal, set h | h in ledger)
  }

  function Hashes(ms: seq<Migration>): (r: seq<string>)
    ensures |r| == |ms| && forall i :: 0 <= i < |ms| ==> r[i] == ms[i].hash
  {
    seq(|ms|, i requires 0 <= i < |ms| => ms[i].hash)
  }

  function Tags(ms: seq<Migration>): (r: seq<string>)
    ensures |r| == |ms| && forall i :: 0 <= i < |ms| ==> r[i] == ms[i].tag
  {
    seq(|ms|, i requires 0 <= i < |ms| => ms[i].tag)
  }

  /** The statements of a list of migrations, in order. */
  function Statements(ms: seq<Migration>): seq<string> {
    if ms == [] then [] else Statements(ms[..|ms| - 1]) + ms[|ms| - 1].sql
  }

  predicate LacksHash(ms: seq<Migration>, h: string) {
    forall k :: 0 <= k < |ms| ==> ms[k].hash != h
  }

  predicate DistinctHashes(journal: seq<Migration>) {
    forall a, b :: 0 <= a < b < |journal| ==> journal[a].hash != journal[b].hash
  }

  // ---------------------------------------------------------------- the step machine

  predicate Holding(p: Phase) {
    p.Locked? || p.Dumping? || p.Applying? || p.Verifying? || p.Closing?
  }

  function Commit(db: Database, m: Migration): Database {
    db.(ledger := db.ledger + [m.hash], committed := db.committed + m.sql, applied := db.applied + [m])
  }

  /** The backup gate: a dry run is exempt. */
  predicate PassesGate(run: Run) {
    run.dryRun || run.confirmed
  }

  /** One step of run r; `Crash` before the start or after the end changes nothing shared. */
  function StepRun(db: Database, r: nat, run: Run, e: Event): (Database, Phase) {
    if e.Crash? then
      if run.phase.Done? then (db, run.phase)
      else (if Holding(run.phase) then db.(lock := None) else db, Done(Crashed))
    else
      match run.phase
      case Idle =>
        if !PassesGate(run) then (db, Done(BackupRefused))
        else if e.Fail? then (db, Done(Failed))
        else (db.(schemaExists := true), SchemaReady)
      case SchemaReady =>
        if e.Fail? then (db, Done(Failed)) else (db.(tableExists := true), TableReady)
      case TableReady =>
        if e.Fail? then (db, Done(Failed))
        else if db.lock.None? then (db.(lock := Some(r)), Locked)
        else (db, Done(LockRefused))
      case Locked =>
        if e.Fail? then (db, Closing(Failed))
        else
          var pending := Pending(run.journal, db.ledger);
          (db, if pending == [] then Closing(UpToDate)
               else if run.dryRun then Closing(DryRun)
               else Dumping(pending))
      case Dumping(p) =>
        (db, if e.Fail? then Closing(Failed) else Applying(p, 0, 0))
      case Applying(p, i, j) =>
        if i >= |p| then (db, run.phase)
        else if e.Fail? then (db, Closing(ApplyFailed(p[i].tag)))
        else if j < |p[i].sql| then (db, Applying(p, i, j + 1))
        else (Commit(db, p[i]), if i + 1 < |p| then Applying(p, i + 1, 0) else Verifying)
      case Verifying =>
        var missing := Pending(run.journal, db.ledger);
        (db, if e.Fail? then Closing(Failed)
             else if missing != [] then Closing(VerificationFailed(Tags(missing)))
             else Closing(Applied))
      case Closing(o) => (db.(lock := None), Done(o))
      case Done(o) => (db, run.phase)
  }

  function Next(s: State, r: nat, e: Event): (s': State)
    ensures |s'.runs| == |s.runs|
  {
    if r >= |s.runs| then s
    else
      var (db, phase) := StepRun(s.db, r, s.runs[r], e);
      State(db, s.runs[r := s.runs[r].(phase := phase)])
  }

  function Exec(s: State, trace: Trace): (s': State)
    ensures |s'.runs| == |s.runs|
    decreases |trace|
  {
    if trace == [] then s else Exec(Next(s, trace[0].0, trace[0].1), trace[1..])
  }

  /** Nobody has started, nobody holds the lock; the ledger holds any rows at all. */
  predicate Init(s: State) {
    && s.db.lock.None?
    && s.db.applied == [] && s.db.committed == []
    && forall r :: 0 <= r < |s.runs| ==> s.runs[r].phase.Idle?
  }

  lemma ExecAppend(s: State, a: Trace, b: Trace)
    ensures Exec(s, a + b) == Exec(Exec(s, a), b)
    decreases |a|
  {
    if a == [] {
      assert a + b == b;
    } else {
      assert (a + b)[1..] == a[1..] + b;
      ExecAppend(Next(s, a[0].0, a[0].1), a[1..], b);
    }
  }

  // ---------------------------------------------------------------- the invariant

  /** What a run inside its apply loop still has to apply. */
  function Rest(p: Phase): Option<seq<Migration>> {
    match p
    case Dumping(pending) => Some(pending)
    case Applying(pending, i, _) => if i <= |pending| then Some(pending[i..]) else None
    case Verifying => Some([])
    case _ => None
  }

  /** The run goes on to apply migrations. */
  predicate MayApply(run: Run) {
    run.confirmed && !run.dryRun
  }

  predicate Preparing(p: Phase) {
    p.SchemaReady? || p.TableReady?
  }

  predicate Shape(run: Run) {
    && (run.phase.Dumping? ==> run.phase.pending != [])
    && (run.phase.Applying? ==>
          run.phase.i < |run.phase.pending| && run.phase.j <= |run.phase.pending[run.phase.i].sql|)
    && (Rest(run.phase).Some? ==> MayApply(run))
    && (Preparing(run.phase) || Holding(run.phase) ==> PassesGate(run))
    && (run.phase.Closing? || run.phase.Done? ==> !run.phase.outcome.VerificationFailed?)
  }

  /** Once a run has applied what is ahead of it, nothing of its journal is pending ... */
  predicate Covered(run: Run, ledger: seq<string>) {
    Rest(run.phase).Some? ==> Pending(run.journal, ledger + Hashes(Rest(run.phase).value)) == []
  }

  /** ... and if nothing was pending twice at first, what is ahead is exactly what is not recorded. */
  predicate OnTrack(run: Run, base: seq<string>, ledger: seq<string>) {
    Rest(run.phase).Some? && DistinctHashes(Pending(run.journal, base)) ==>
      Rest(run.phase).value == Pending(run.journal, ledger)
  }

  /** A run that reports success has left nothing of its journal pending. */
  predicate Settled(run: Run, ledger: seq<string>) {
    Succeeded(run.phase) ==> Pending(run.journal, ledger) == []
  }

  predicate Succeeded(p: Phase) {
    (p.Closing? || p.Done?) && (p.outcome.Applied? || p.outcome.UpToDate?)
  }

  predicate RunInv(run: Run, base: seq<string>, ledger: seq<string>) {
    Shape(run) && Covered(run, ledger) && OnTrack(run, base, ledger) && Settled(run, ledger)
  }

  predicate LockInv(s: State) {
    && (s.db.lock.Some? ==> s.db.lock.value < |s.runs|)
    && forall r :: 0 <= r < |s.runs| ==> (Holding(s.runs[r].phase) <==> s.db.lock == Some(r))
  }

  predicate RunsInv(s: State, base: seq<string>) {
    forall r :: 0 <= r < |s.runs| ==> RunInv(s.runs[r], base, s.db.ledger)
  }

  /** The database holds the initial ledger plus the committed migrations, nothing half done. */
  predicate EffectsInv(s: State, base: seq<string>) {
    && s.db.ledger == base + Hashes(s.db.applied)
    && s.db.committed == Statements(s.db.applied)
  }

  predicate Inv(s: State, base: seq<string>) {
    LockInv(s) && RunsInv(s, base) && EffectsInv(s, base)
  }

  /** Recording the first pending hash removes it from the pending list, if it is there once. */
  lemma PendingSuffix(journal: seq<Migration>, ledger: seq<string>, m: Migration)
    requires Pending(journal, ledger) != [] && m == Pending(journal, ledger)[0]
    requires DistinctHashes(Pending(journal, ledger))
    ensures Pending(journal, ledger + [m.hash]) == Pending(journal, ledger)[1..]
  {
    var have := set h | h in ledger;
    var now := set h | h in ledger + [m.hash];
    assert now == have + {m.hash};
    RemoveFirst(journal, have, m);
  }

  lemma {:induction false} RemoveFirst(journal: seq<Migration>, have: set<string>, m: Migration)
    requires ComputePending(journal, have) != [] && m == ComputePending(journal, have)[0]
    requires DistinctHashes(ComputePending(journal, have))
    ensures ComputePending(journal, have + {m.hash}) == ComputePending(journal, have)[1..]
  {
    var rest := ComputePending(journal[1..], have);
    if journal[0].hash in have {
      assert ComputePending(journal, have) == rest;
      RemoveFirst(journal[1..], have, m);
    } else {
      assert ComputePending(journal, have)[1..] == rest;
      forall k | 0 <= k < |rest| ensures rest[k].hash != m.hash {
        assert rest[k] == ComputePending(journal, have)[k + 1];
      }
      SameFilter(journal[1..], have, m.hash);
    }
  }

  lemma {:induction false} SameFilter(journal: seq<Migration>, have: set<string>, h: string)
    requires LacksHash(ComputePending(journal, have), h)
    ensures ComputePending(journal, have + {h}) == ComputePending(journal, have)
  {
    if journal != [] {
      var rest := ComputePending(journal[1..], have);
      if journal[0].hash in have {
        assert ComputePending(journal, have) == rest;
      } else {
        assert ComputePending(journal, have)[0] == journal[0];
        assert forall k :: 0 <= k < |rest| ==> rest[k] == ComputePending(journal, have)[k + 1];
      }
      SameFilter(journal[1..], have, h);
    }
  }

  lemma FirstIsNotAgain(ms: seq<Migration>, have: set<string>)
    requires DistinctHashes(ms) && ms != []
    ensures LacksHash(ComputePending(ms[1..], have), ms[0].hash)
  {
    var rest := ComputePending(ms[1..], have);
    PendingAndAppliedPartition(ms[1..], have);
    forall k | 0 <= k < |rest| ensures rest[k].hash != ms[0].hash {
      assert rest[k] in rest;
      var x :| 0 <= x < |ms[1..]| && ms[1..][x] == rest[k];
      assert ms[x + 1] == rest[k];
    }
  }

  lemma DistinctCons(m: Migration, rest: seq<Migration>)
    requires DistinctHashes(rest) && LacksHash(rest, m.hash)
    ensures DistinctHashes([m] + rest)
  {
  }

  lemma {:induction false} FilterStaysDistinct(ms: seq<Migration>, have: set<string>)
    requires DistinctHashes(ms)
    ensures DistinctHashes(ComputePending(ms, have))
  {
    if ms != [] {
      var rest := ComputePending(ms[1..], have);
      FilterStaysDistinct(ms[1..], have);
      FirstIsNotAgain(ms, have);
      DistinctCons(ms[0], rest);
      assert ms[0].hash in have ==> ComputePending(ms, have) == rest;
    }
  }

  lemma {:induction false} FilterTwice(ms: seq<Migration>, have: set<string>, more: set<string>)
    requires have <= more
    ensures ComputePending(ComputePending(ms, have), more) == ComputePending(ms, more)
  {
    if ms != [] {
      FilterTwice(ms[1..], have, more);
      if ms[0].hash !in have {
        assert ComputePending(ms, have)[1..] == ComputePending(ms[1..], have);
      } else {
        assert ComputePending(ms, have) == ComputePending(ms[1..], have);
      }
    }
  }

  /** As the ledger grows, what is pending once stays pending at most once. */
  lemma PendingStaysDistinct(journal: seq<Migration>, base: seq<string>, ledger: seq<string>)
    requires base <= ledger && DistinctHashes(Pending(journal, base))
    ensures DistinctHashes(Pending(journal, ledger))
  {
    var have, more := set h | h in base, set h | h in ledger;
    FilterTwice(journal, have, more);
    FilterStaysDistinct(ComputePending(journal, have), more);
  }

  lemma {:induction false} NothingPending(journal: seq<Migration>, ledger: seq<string>)
    requires forall m :: m in journal ==> m.hash in ledger
    ensures Pending(journal, ledger) == []
  {
    if journal != [] {
      assert journal[0] in journal;
      NothingPending(journal[1..], ledger);
    }
  }

  /** What is recorded stays recorded. */
  lemma StillNothingPending(journal: seq<Migration>, ledger: seq<string>, more: seq<string>)
    requires Pending(journal, ledger) == [] && ledger <= more
    ensures Pending(journal, more) == []
  {
    PendingAndAppliedPartition(journal, set h | h in ledger);
    forall m | m in journal ensures m.hash in more {
      assert m !in Pending(journal, ledger);
    }
    NothingPending(journal, more);
  }

  lemma NothingLeft(journal: seq<Migration>, before: seq<string>)
    ensures Pending(journal, before + Hashes(Pending(journal, before))) == []
  {
    var pending := Pending(journal, before);
    forall m | m in journal ensures m.hash in before + Hashes(pending) {
      PendingAndAppliedPartition(journal, set h | h in before);
      if m in pending {
        var x :| 0 <= x < |pending| && pending[x] == m;
        assert Hashes(pending)[x] == m.hash;
      }
    }
    NothingPending(journal, before + Hashes(pending));
  }

  /** Committing the first of what is left moves its hash from the rest to the ledger. */
  lemma RestShrinks(ledger: seq<string>, p: seq<Migration>, i: nat)
    requires i < |p|
    ensures p[i..] == [p[i]] + p[i + 1..]
    ensures ledger + Hashes(p[i..]) == ledger + [p[i].hash] + Hashes(p[i + 1..])
    ensures ledger + Hashes([]) == ledger
  {
    assert Hashes(p[i..]) == [p[i].hash] + Hashes(p[i + 1..]);
  }

  lemma CommitKeepsRest(run: Run, base: seq<string>, ledger: seq<string>)
    requires run.phase.Applying? && RunInv(run, base, ledger) && base <= ledger
    ensures var Applying(p, i, _) := run.phase;
      && Pending(run.journal, ledger + [p[i].hash] + Hashes(p[i + 1..])) == []
      && (i + 1 == |p| ==> p[i + 1..] == [])
      && (DistinctHashes(Pending(run.journal, base)) ==> Pending(run.journal, ledger + [p[i].hash]) == p[i + 1..])
  {
    var Applying(p, i, _) := run.phase;
    RestShrinks(ledger, p, i);
    assert p[i..][1..] == p[i + 1..];
    if DistinctHashes(Pending(run.journal, base)) {
      PendingStaysDistinct(run.journal, base, ledger);
      PendingSuffix(run.journal, ledger, p[i]);
    }
  }

  lemma CommitKeepsRun(run: Run, base: seq<string>, ledger: seq<string>)
    requires run.phase.Applying? && RunInv(run, base, ledger) && base <= ledger
    ensures var Applying(p, i, _) := run.phase;
      RunInv(run.(phase := if i + 1 < |p| then Applying(p, i + 1, 0) else Verifying), base, ledger + [p[i].hash])
  {
    CommitKeepsRest(run, base, ledger);
  }

  lemma ApplyingKeepsRun(s: State, r: nat, e: Event, base: seq<string>)
    requires Inv(s, base) && r < |s.runs| && s.runs[r].phase.Applying?
    ensures var (db, phase) := StepRun(s.db, r, s.runs[r], e);
      RunInv(s.runs[r].(phase := phase), base, db.ledger)
  {
    assert RunInv(s.runs[r], base, s.db.ledger) && base <= s.db.ledger;
    CommitKeepsRun(s.runs[r], base, s.db.ledger);
  }

  lemma StepKeepsRun(s: State, r: nat, e: Event, base: seq<string>)
    requires Inv(s, base) && r < |s.runs|
    ensures var (db, phase) := StepRun(s.db, r, s.runs[r], e);
      RunInv(s.runs[r].(phase := phase), base, db.ledger)
  {
    var run := s.runs[r];
    assert RunInv(run, base, s.db.ledger);
    match run.phase
    case Locked =>
      NothingLeft(run.journal, s.db.ledger);
    case Dumping(p) =>
      assert p[0..] == p;
    case Applying(_, _, _) =>
      ApplyingKeepsRun(s, r, e, base);
    case Verifying =>
      assert s.db.ledger + Hashes([]) == s.db.ledger;
    case _ =>
  }

  lemma StepKeepsLock(s: State, r: nat, e: Event)
    requires LockInv(s) && r < |s.runs|
    ensures LockInv(Next(s, r, e))
  {
    var s' := Next(s, r, e);
    forall q | 0 <= q < |s'.runs| ensures Holding(s'.runs[q].phase) <==> s'.db.lock == Some(q) {
      assert Holding(s.runs[q].phase) <==> s.db.lock == Some(q);
    }
  }

  lemma StepKeepsOthers(s: State, r: nat, e: Event, q: nat, base: seq<string>)
    requires LockInv(s) && RunsInv(s, base) && r < |s.runs| && q < |s.runs| && q != r
    ensures RunInv(s.runs[q], base, Next(s, r, e).db.ledger)
  {
    var ledger := Next(s, r, e).db.ledger;
    assert RunInv(s.runs[q], base, s.db.ledger);
    if ledger != s.db.ledger {
      // Only the lock holder commits, so no other run is inside its apply loop.
      assert Holding(s.runs[r].phase) && !Holding(s.runs[q].phase);
      if Succeeded(s.runs[q].phase) {
        StillNothingPending(s.runs[q].journal, s.db.ledger, ledger);
      }
    }
  }

  lemma CommitKeepsEffects(db: Database, m: Migration, base: seq<string>)
    requires db.ledger == base + Hashes(db.applied) && db.committed == Statements(db.applied)
    ensures var after := Commit(db, m);
      after.ledger == base + Hashes(after.applied) && after.committed == Statements(after.applied)
  {
    var after := db.applied + [m];
    assert after[..|after| - 1] == db.applied;
    assert Hashes(after) == Hashes(db.applied) + [m.hash];
  }

  predicate SameRows(x: Database, y: Database) {
    x.ledger == y.ledger && x.committed == y.committed && x.applied == y.applied
  }

  /** A step commits the migration it is at, or leaves rows and migration statements alone. */
  lemma StepCommitsOrKeeps(db: Database, r: nat, run: Run, e: Event)
    ensures var (after, _) := StepRun(db, r, run, e);
      || SameRows(after, db)
      || (run.phase.Applying? && run.phase.i < |run.phase.pending|
          && after == Commit(db, run.phase.pending[run.phase.i]))
  {
  }

  lemma StepKeepsEffects(s: State, r: nat, e: Event, base: seq<string>)
    requires EffectsInv(s, base) && r < |s.runs|
    ensures EffectsInv(Next(s, r, e), base)
  {
    var p := s.runs[r].phase;
    if p.Applying? && p.i < |p.pending| {
      CommitKeepsEffects(s.db, p.pending[p.i], base);
    }
    StepCommitsOrKeeps(s.db, r, s.runs[r], e);
  }

  lemma StepKeepsInv(s: State, r: nat, e: Event, base: seq<string>)
    requires Inv(s, base)
    ensures Inv(Next(s, r, e), base)
  {
    if r < |s.runs| {
      var s' := Next(s, r, e);
      StepKeepsLock(s, r, e);
      StepKeepsEffects(s, r, e, base);
      forall q | 0 <= q < |s'.runs|
        ensures RunInv(s'.runs[q], base, s'.db.ledger)
      {
        if q == r {
          StepKeepsRun(s, r, e, base);
        } else {
          StepKeepsOthers(s, r, e, q, base);
        }
      }
    }
  }

  lemma {:induction false} ExecKeepsInv(s: State, trace: Trace, base: seq<string>)
    requires Inv(s, base)
    ensures Inv(Exec(s, trace), base)
    decreases |trace|
  {
    if trace != [] {
      StepKeepsInv(s, trace[0].0, trace[0].1, base);
      ExecKeepsInv(Next(s, trace[0].0, trace[0].1), trace[1..], base);
    }
  }

  lemma InitInv(s: State)
    requires Init(s)
    ensures Inv(s, s.db.ledger)
  {
    assert Hashes([]) == [];
  }

  // ---------------------------------------------------------------- safety over every interleaving

  /** At most one run is between taking the lock and closing, whatever fails or crashes. */
  lemma MutualExclusion(s: State, trace: Trace, q: nat, r: nat)
    requires Init(s) && q < |s.runs| && r < |s.runs|
    requires Holding(Exec(s, trace).runs[q].phase) && Holding(Exec(s, trace).runs[r].phase)
    ensures q == r && Exec(s, trace).db.lock == Some(r)
  {
    InitInv(s);
    ExecKeepsInv(s, trace, s.db.ledger);
  }

  lemma {:induction false} ExecKeepsRuns(s: State, trace: Trace)
    ensures forall r :: 0 <= r < |s.runs| ==> Exec(s, trace).runs[r].(phase := Idle) == s.runs[r].(phase := Idle)
    decreases |trace|
  {
    if trace != [] {
      ExecKeepsRuns(Next(s, trace[0].0, trace[0].1), trace[1..]);
    }
  }

  /**
    The schema always is what the ledger says: the rows added are the hashes of the migrations
    whose statements were committed, all of them and nothing else, in the same order.  What is
    assumed is that a transaction is atomic (Commit); what is shown is that no crash, failure or
    other runner ever leaves a row without its statements or statements without their row.
   */
  lemma LedgerMatchesEffects(s: State, trace: Trace)
    requires Init(s)
    ensures var db := Exec(s, trace).db;
      db.ledger == s.db.ledger + Hashes(db.applied) && db.committed == Statements(db.applied)
  {
    InitInv(s);
    ExecKeepsInv(s, trace, s.db.ledger);
  }

  /** Post-apply verification cannot fail: under the lock nothing is ever missing. */
  lemma VerificationUnreachable(s: State, trace: Trace, r: nat)
    requires Init(s) && r < |s.runs|
    ensures var p := Exec(s, trace).runs[r].phase;
      (p.Closing? || p.Done? ==> !p.outcome.VerificationFailed?)
      && (p.Verifying? ==> Pending(s.runs[r].journal, Exec(s, trace).db.ledger) == [])
  {
    InitInv(s);
    ExecKeepsInv(s, trace, s.db.ledger);
    ExecKeepsRuns(s, trace);
    var run := Exec(s, trace).runs[r];
    assert run.(phase := Idle) == s.runs[r].(phase := Idle);
    assert RunInv(run, s.db.ledger, Exec(s, trace).db.ledger);
    assert Exec(s, trace).db.ledger + Hashes([]) == Exec(s, trace).db.ledger;
  }

  /**
    Success means complete, in every interleaving: once a run has reported Applied or UpToDate, every
    hash of its journal is in the ledger, whatever the other runs do, fail at or leave half way.
   */
  lemma SuccessLeavesNothingPending(s: State, trace: Trace, r: nat)
    requires Init(s) && r < |s.runs| && Succeeded(Exec(s, trace).runs[r].phase)
    ensures Pending(s.runs[r].journal, Exec(s, trace).db.ledger) == []
    ensures forall m :: m in s.runs[r].journal ==> m.hash in Exec(s, trace).db.ledger
  {
    var ledger := Exec(s, trace).db.ledger;
    InitInv(s);
    ExecKeepsInv(s, trace, s.db.ledger);
    ExecKeepsRuns(s, trace);
    assert Exec(s, trace).runs[r].(phase := Idle) == s.runs[r].(phase := Idle);
    assert RunInv(Exec(s, trace).runs[r], s.db.ledger, ledger);
    PendingAndAppliedPartition(s.runs[r].journal, set h | h in ledger);
    forall m | m in s.runs[r].journal ensures m.hash in ledger {
      assert m !in Pending(s.runs[r].journal, ledger);
    }
  }

  /** The outcomes a run can have when none of its own calls fails and it does not crash. */
  predicate FaultFree(run: Run, o: Outcome) {
    match o
    case BackupRefused => !PassesGate(run)
    case LockRefused => PassesGate(run)
    case UpToDate => PassesGate(run)
    case DryRun => run.dryRun
    case Applied => MayApply(run)
    case _ => false
  }

  predicate FaultFreeSoFar(run: Run) {
    run.phase.Closing? || run.phase.Done? ==> FaultFree(run, run.phase.outcome)
  }

  predicate NoOwnFault(trace: Trace, r: nat) {
    forall k :: 0 <= k < |trace| && trace[k].0 == r ==> trace[k].1.Advance?
  }

  lemma AdvanceStaysFaultFree(s: State, r: nat, base: seq<string>)
    requires Inv(s, base) && r < |s.runs| && FaultFreeSoFar(s.runs[r])
    ensures FaultFreeSoFar(Next(s, r, Advance).runs[r])
  {
    assert RunInv(s.runs[r], base, s.db.ledger);
    assert s.db.ledger + Hashes([]) == s.db.ledger;
  }

  /**
    Other runs can make a run wait for its turn, not fail: in every interleaving, a run none of whose
    own calls rejects and that does not crash ends applied, up to date, as a dry run, or refused by
    the gate or the lock.
   */
  lemma {:induction false} OthersCannotFailARun(s: State, trace: Trace, r: nat, base: seq<string>)
    requires Inv(s, base) && r < |s.runs| && FaultFreeSoFar(s.runs[r]) && NoOwnFault(trace, r)
    ensures FaultFreeSoFar(Exec(s, trace).runs[r])
    decreases |trace|
  {
    if trace != [] {
      var (q, e) := trace[0];
      StepKeepsInv(s, q, e, base);
      if q == r {
        AdvanceStaysFaultFree(s, r, base);
      }
      assert forall k :: 0 <= k < |trace[1..]| ==> trace[1..][k] == trace[k + 1];
      OthersCannotFailARun(Next(s, q, e), trace[1..], r, base);
    }
  }

  // ---------------------------------------------------------------- a run ends as its calls did

  /** The run is awaiting a call that may reject. */
  predicate Awaits(run: Run) {
    PassesGate(run) && !run.phase.Closing? && !run.phase.Done?
  }

  /**
    What happened to one run in a trace: it crashed before its end, one of its calls rejected, the
    pending list at its read of the ledger, and the migrations committed by its own events.
   */
  datatype Past = Past(crashed: bool, rejected: bool, read: Option<seq<Migration>>, mine: seq<Migration>)

  function Grown(before: seq<Migration>, after: seq<Migration>): seq<Migration> {
    if |before| <= |after| then after[|before|..] else []
  }

  /** One more event of run r, in state s. */
  function Later(past: Past, s: State, r: nat, e: Event): Past
    requires r < |s.runs|
  {
    var run := s.runs[r];
    Past(past.crashed || (e.Crash? && !run.phase.Done?),
         past.rejected || (e.Fail? && Awaits(run)),
         if e.Advance? && run.phase.Locked? then Some(Pending(run.journal, s.db.ledger)) else past.read,
         past.mine + Grown(s.db.applied, Next(s, r, e).db.applied))
  }

  function PastOf(s: State, trace: Trace, r: nat): Past
    requires r < |s.runs|
    decreases |trace|
  {
    if trace == [] then Past(false, false, None, [])
    else
      var init, last := trace[..|trace| - 1], trace[|trace| - 1];
      if last.0 == r then Later(PastOf(s, init, r), Exec(s, init), r, last.1) else PastOf(s, init, r)
  }

  /** The outcomes that report a rejected call. */
  predicate Failing(o: Outcome) {
    o.Failed? || o.ApplyFailed?
  }

  /** The outcome, on what happened to the run: which it is, and what the run has committed. */
  predicate Explained(run: Run, past: Past, o: Outcome) {
    var undisturbed := !past.crashed && !past.rejected;
    && (o.Crashed? <==> past.crashed)
    && (Failing(o) <==> !past.crashed && past.rejected)
    && (o.BackupRefused? <==> undisturbed && !PassesGate(run))
    && (o.LockRefused? <==> undisturbed && PassesGate(run) && past.read.None?)
    && (o.UpToDate? <==> undisturbed && past.read == Some([]))
    && (o.DryRun? <==> undisturbed && past.read.Some? && past.read.value != [] && run.dryRun)
    && (o.Applied? <==> undisturbed && past.read.Some? && past.read.value != [] && !run.dryRun)
    && !o.VerificationFailed?
  }

  /** Nothing, all of what it read to be pending, or for a failed or crashed run the first part. */
  predicate CommittedFor(run: Run, past: Past, o: Outcome) {
    match o
    case Applied => past.read == Some(past.mine)
    case Failed => past.mine == [] || past.read == Some(past.mine)
    case ApplyFailed(tag) =>
      && past.read.Some? && |past.mine| < |past.read.value|
      && past.mine == past.read.value[..|past.mine|] && tag == past.read.value[|past.mine|].tag
    case Crashed => past.mine == [] || (past.read.Some? && past.mine <= past.read.value)
    case _ => past.mine == []
  }

  /** The same for a run that is still under way. */
  predicate History(run: Run, past: Past) {
    match run.phase
    case Done(o) => Explained(run, past, o) && CommittedFor(run, past, o)
    case Closing(o) => Explained(run, past, o) && CommittedFor(run, past, o) && !o.Crashed?
    case Dumping(p) => !past.crashed && !past.rejected && past.read == Some(p) && past.mine == []
    case Applying(p, i, _) =>
      !past.crashed && !past.rejected && past.read == Some(p) && i < |p| && past.mine == p[..i]
    case Verifying => !past.crashed && !past.rejected && past.read == Some(past.mine) && past.mine != []
    case _ => past == Past(false, false, None, [])
  }

  lemma OutsideTheLoop(s: State, r: nat, e: Event, base: seq<string>)
    requires Inv(s, base) && r < |s.runs| && !s.runs[r].phase.Applying?
    ensures Grown(s.db.applied, Next(s, r, e).db.applied) == []
  {
    StepCommitsOrKeeps(s.db, r, s.runs[r], e);
  }

  lemma {:induction false} ApplyingKeepsHistory(s: State, r: nat, e: Event, past: Past, base: seq<string>)
    requires Inv(s, base) && r < |s.runs| && s.runs[r].phase.Applying? && History(s.runs[r], past)
    ensures History(Next(s, r, e).runs[r], Later(past, s, r, e))
  {
    var Applying(p, i, j) := s.runs[r].phase;
    assert RunInv(s.runs[r], base, s.db.ledger);
    assert p[..i] + [p[i]] == p[..i + 1] && p[..|p|] == p;
    assert Grown(s.db.applied, s.db.applied + [p[i]]) == [p[i]];
    assert Grown(s.db.applied, s.db.applied) == [];
  }

  lemma {:induction false} StepKeepsHistory(s: State, r: nat, e: Event, past: Past, base: seq<string>)
    requires Inv(s, base) && r < |s.runs| && History(s.runs[r], past)
    ensures History(Next(s, r, e).runs[r], Later(past, s, r, e))
  {
    assert RunInv(s.runs[r], base, s.db.ledger);
    if s.runs[r].phase.Applying? {
      ApplyingKeepsHistory(s, r, e, past, base);
    } else {
      OutsideTheLoop(s, r, e, base);
      assert past.mine + [] == past.mine;
      assert s.db.ledger + Hashes([]) == s.db.ledger;
    }
  }

  lemma ExecSnoc(s: State, trace: Trace)
    requires trace != []
    ensures var (q, e) := trace[|trace| - 1];
      Exec(s, trace) == Next(Exec(s, trace[..|trace| - 1]), q, e)
  {
    var init, last := trace[..|trace| - 1], trace[|trace| - 1];
    var one: Trace := [last];
    assert trace == init + one && one[1..] == [];
    ExecAppend(s, init, one);
  }

  lemma {:induction false} HistoryHolds(s: State, trace: Trace, r: nat, base: seq<string>)
    requires Inv(s, base) && r < |s.runs| && s.runs[r].phase.Idle?
    ensures History(Exec(s, trace).runs[r], PastOf(s, trace, r))
    decreases |trace|
  {
    if trace != [] {
      var init, last := trace[..|trace| - 1], trace[|trace| - 1];
      HistoryHolds(s, init, r, base);
      ExecKeepsInv(s, init, base);
      ExecSnoc(s, trace);
      if last.0 == r {
        StepKeepsHistory(Exec(s, init), r, last.1, PastOf(s, init, r), base);
      }
    }
  }

  /**
    Over every interleaving, what a finished run reports is decided by what happened to it and to
    nothing else: it failed exactly when one of its awaited calls rejected, it reports success
    exactly when none did, it passed the gate, got the lock and was no dry run with work to do; and
    it has committed all it read to be pending, the part before the failed migration, or nothing.
   */
  lemma EndsAsItsCallsDid(s: State, trace: Trace, r: nat)
    requires Init(s) && r < |s.runs| && Exec(s, trace).runs[r].phase.Done?
    ensures var o := Exec(s, trace).runs[r].phase.outcome;
      Explained(s.runs[r], PastOf(s, trace, r), o) && CommittedFor(s.runs[r], PastOf(s, trace, r), o)
  {
    InitInv(s);
    HistoryHolds(s, trace, r, s.db.ledger);
    ExecKeepsRuns(s, trace);
    assert Exec(s, trace).runs[r].(phase := Idle) == s.runs[r].(phase := Idle);
  }

  /** After a rejection nothing more is committed by the run, and it can only end failed or crashed. */
  predicate Stopped(p: Phase) {
    (p.Closing? && Failing(p.outcome)) || (p.Done? && (Failing(p.outcome) || p.outcome.Crashed?))
  }

  lemma {:induction false} StoppedStep(s: State, r: nat, e: Event, base: seq<string>)
    requires Inv(s, base) && r < |s.runs| && Stopped(s.runs[r].phase)
    ensures Stopped(Next(s, r, e).runs[r].phase) && Grown(s.db.applied, Next(s, r, e).db.applied) == []
  {
    OutsideTheLoop(s, r, e, base);
  }

  lemma {:induction false} StaysStopped(s: State, before: Trace, r: nat, after: Trace, base: seq<string>)
    requires Inv(s, base) && r < |s.runs| && Stopped(Exec(s, before).runs[r].phase)
    ensures Stopped(Exec(s, before + after).runs[r].phase)
    ensures PastOf(s, before + after, r).mine == PastOf(s, before, r).mine
    decreases |after|
  {
    if after == [] {
      assert before + after == before;
    } else {
      var init, last := after[..|after| - 1], after[|after| - 1];
      var trace := before + after;
      assert trace[..|trace| - 1] == before + init && trace[|trace| - 1] == last;
      StaysStopped(s, before, r, init, base);
      ExecSnoc(s, trace);
      ExecKeepsInv(s, before + init, base);
      if last.0 == r {
        StoppedStep(Exec(s, before + init), r, last.1, base);
      }
    }
  }

  /**
    A rejected call stops its run, in every interleaving: whatever comes later, the run commits
    nothing after it and never ends successfully.  So a run whose pre-migration dump rejects has
    committed nothing at all.
   */
  lemma RejectionStopsTheRun(s: State, before: Trace, r: nat, after: Trace)
    requires Init(s) && r < |s.runs| && Awaits(Exec(s, before).runs[r])
    ensures var trace := before + [(r, Fail)] + after;
      && Stopped(Exec(s, trace).runs[r].phase)
      && PastOf(s, trace, r).mine == PastOf(s, before, r).mine
      && (Exec(s, before).runs[r].phase.Dumping? ==> PastOf(s, trace, r).mine == [])
  {
    var here := before + [(r, Fail)];
    assert here[..|here| - 1] == before;
    InitInv(s);
    HistoryHolds(s, before, r, s.db.ledger);
    HistoryHolds(s, here, r, s.db.ledger);
    ExecKeepsInv(s, before, s.db.ledger);
    FailStops(Exec(s, before), r, s.db.ledger);
    ExecSnoc(s, here);
    StaysStopped(s, here, r, after, s.db.ledger);
  }

  lemma FailStops(s: State, r: nat, base: seq<string>)
    requires Inv(s, base) && r < |s.runs| && Awaits(s.runs[r])
    ensures Stopped(Next(s, r, Fail).runs[r].phase)
    ensures Grown(s.db.applied, Next(s, r, Fail).db.applied) == []
  {
    assert RunInv(s.runs[r], base, s.db.ledger);
    StepCommitsOrKeeps(s.db, r, s.runs[r], Fail);
  }

  // ---------------------------------------------------------------- once only

  /** A row added by a run never repeats an earlier row. */
  predicate OnceOnly(base: nat, ledger: seq<string>) {
    forall a, b :: 0 <= a < b < |ledger| && base <= b ==> ledger[a] != ledger[b]
  }

  /** No run that may write has a hash pending twice. */
  predicate AppliersDistinct(runs: seq<Run>, ledger: seq<string>) {
    forall r :: 0 <= r < |runs| && MayApply(runs[r]) ==> DistinctHashes(Pending(runs[r].journal, ledger))
  }

  /** The migration about to be committed is one of the journal that is not recorded yet. */
  lemma CommittedWasPending(run: Run, base: seq<string>, ledger: seq<string>)
    requires run.phase.Applying? && RunInv(run, base, ledger) && DistinctHashes(Pending(run.journal, base))
    ensures var m := run.phase.pending[run.phase.i]; m in run.journal && m.hash !in ledger
  {
    var m := run.phase.pending[run.phase.i];
    assert m == Rest(run.phase).value[0];
    PendingAndAppliedPartition(run.journal, (set h | h in ledger));
    assert m in Pending(run.journal, ledger);
  }

  lemma StepOnceOnly(s: State, r: nat, e: Event, base: seq<string>)
    requires r < |s.runs| && RunInv(s.runs[r], base, s.db.ledger)
    requires AppliersDistinct(s.runs, base) && OnceOnly(|base|, s.db.ledger)
    ensures OnceOnly(|base|, Next(s, r, e).db.ledger)
  {
    if Next(s, r, e).db.ledger != s.db.ledger {
      CommittedWasPending(s.runs[r], base, s.db.ledger);
    }
  }

  lemma {:induction false} ExecOnceOnly(s: State, trace: Trace, base: seq<string>)
    requires Inv(s, base) && AppliersDistinct(s.runs, base) && OnceOnly(|base|, s.db.ledger)
    ensures OnceOnly(|base|, Exec(s, trace).db.ledger)
    decreases |trace|
  {
    if trace != [] {
      var (r, e) := trace[0];
      StepKeepsInv(s, r, e, base);
      if r < |s.runs| {
        StepOnceOnly(s, r, e, base);
      }
      assert AppliersDistinct(Next(s, r, e).runs, base);
      ExecOnceOnly(Next(s, r, e), trace[1..], base);
    }
  }

  function Solo(r: nat, n: nat): Trace {
    if n == 0 then [] else [(r, Advance)] + Solo(r, n - 1)
  }

  lemma SoloStep(s: State, r: nat, n: nat)
    ensures Exec(s, Solo(r, n + 1)) == Exec(Next(s, r, Advance), Solo(r, n))
  {
    assert Solo(r, n + 1)[1..] == Solo(r, n);
  }

  lemma {:induction false} SoloThen(s: State, r: nat, a: nat, b: nat)
    ensures Exec(s, Solo(r, a + b)) == Exec(Exec(s, Solo(r, a)), Solo(r, b))
    decreases a
  {
    if a != 0 {
      SoloStep(s, r, a - 1);
      SoloStep(s, r, a - 1 + b);
      SoloThen(Next(s, r, Advance), r, a - 1, b);
    }
  }

  predicate ReadyToApply(s: State, r: nat) {
    r < |s.runs| && s.runs[r].phase.Idle? && MayApply(s.runs[r]) && s.db.lock.None?
  }

  lemma StartsApplying(s: State, r: nat) returns (n: nat)
    requires ReadyToApply(s, r)
    ensures var pending := Pending(s.runs[r].journal, s.db.ledger);
      var phase := if pending == [] then Done(UpToDate) else Applying(pending, 0, 0);
      Exec(s, Solo(r, n)) ==
        State(s.db.(schemaExists := true, tableExists := true, lock := if pending == [] then None else Some(r)),
              s.runs[r := s.runs[r].(phase := phase)])
  {
    TakesLock(s, r);
    var locked := Exec(s, Solo(r, 3));
    n := 5;
    SoloStep(locked, r, 1);
    SoloStep(Next(locked, r, Advance), r, 0);
    SoloThen(s, r, 3, 2);
  }

  /** Schema, table, lock: the three calls of prepareAndLock. */
  lemma TakesLock(s: State, r: nat)
    requires r < |s.runs| && s.runs[r].phase.Idle? && PassesGate(s.runs[r]) && s.db.lock.None?
    ensures Exec(s, Solo(r, 3)) ==
      State(s.db.(schemaExists := true, tableExists := true, lock := Some(r)),
            s.runs[r := s.runs[r].(phase := Locked)])
  {
    var a := Next(s, r, Advance);
    var b := Next(a, r, Advance);
    SoloStep(s, r, 2);
    SoloStep(a, r, 1);
    SoloStep(b, r, 0);
  }

  lemma VerifiesAndCloses(s: State, r: nat) returns (n: nat)
    requires r < |s.runs| && s.runs[r].phase.Verifying? && Pending(s.runs[r].journal, s.db.ledger) == []
    ensures Exec(s, Solo(r, n)) == State(s.db.(lock := None), s.runs[r := s.runs[r].(phase := Done(Applied))])
  {
    n := 2;
    SoloStep(s, r, 1);
    SoloStep(Next(s, r, Advance), r, 0);
  }

  /** From inside the apply loop, undisturbed, a run commits everything it still has to. */
  lemma {:induction false} FinishesApplying(s: State, r: nat) returns (n: nat)
    requires r < |s.runs| && s.runs[r].phase.Applying? && Shape(s.runs[r]) && Covered(s.runs[r], s.db.ledger)
    ensures var s' := Exec(s, Solo(r, n));
      && |s'.runs| == |s.runs|
      && s'.runs[r].phase == Done(Applied)
      && s'.db.lock.None?
      && s'.db.ledger == s.db.ledger + Hashes(Rest(s.runs[r].phase).value)
    decreases |s.runs[r].phase.pending| - s.runs[r].phase.i,
              |s.runs[r].phase.pending[s.runs[r].phase.i].sql| - s.runs[r].phase.j
  {
    var Applying(p, i, j) := s.runs[r].phase;
    var s' := Next(s, r, Advance);
    var k: nat;
    RestShrinks(s.db.ledger, p, i);
    if j == |p[i].sql| && i + 1 == |p| {
      assert s'.db.ledger == s.db.ledger + Hashes(p[i..]);
      k := VerifiesAndCloses(s', r);
    } else {
      k := FinishesApplying(s', r);
    }
    n := k + 1;
    SoloStep(s, r, k);
  }

  /** A run left alone always ends, with every journal hash recorded and the lock free. */
  lemma ErrorFreeRunCompletes(s: State, r: nat) returns (n: nat)
    requires ReadyToApply(s, r)
    ensures var s' := Exec(s, Solo(r, n));
      && |s'.runs| == |s.runs|
      && s'.runs[r].phase == Done(if Pending(s.runs[r].journal, s.db.ledger) == [] then UpToDate else Applied)
      && s'.db.lock.None?
      && s'.db.ledger == s.db.ledger + Hashes(Pending(s.runs[r].journal, s.db.ledger))
      && Pending(s.runs[r].journal, s'.db.ledger) == []
  {
    var journal := s.runs[r].journal;
    var pending := Pending(journal, s.db.ledger);
    var start := StartsApplying(s, r);
    NothingLeft(journal, s.db.ledger);
    n := start;
    if pending == [] {
      assert Hashes(pending) == [];
    } else {
      assert pending[0..] == pending;
      var k := FinishesApplying(Exec(s, Solo(r, start)), r);
      n := start + k;
      SoloThen(s, r, start, k);
    }
  }

  /**
    No migration is ever applied twice, over all runs and interleavings and from any ledger, exactly
    when no run that may write has a hash pending twice at the start.  The code compares hashes only
    at the start of a run, so a hash pending twice is applied twice by a single run; one that is
    already recorded is skipped however often the journal repeats it.
   */
  lemma AppliedOnceIffDistinct(s: State)
    requires Init(s)
    ensures AppliersDistinct(s.runs, s.db.ledger)
      <==> (forall trace :: OnceOnly(|s.db.ledger|, Exec(s, trace).db.ledger))
  {
    InitInv(s);
    if AppliersDistinct(s.runs, s.db.ledger) {
      forall trace ensures OnceOnly(|s.db.ledger|, Exec(s, trace).db.ledger) {
        ExecOnceOnly(s, trace, s.db.ledger);
      }
    } else {
      var trace := RepeatedHashAppliedTwice(s);
      assert !OnceOnly(|s.db.ledger|, Exec(s, trace).db.ledger);
    }
  }

  lemma RepeatedHashAppliedTwice(s: State) returns (trace: Trace)
    requires Init(s) && !AppliersDistinct(s.runs, s.db.ledger)
    ensures !OnceOnly(|s.db.ledger|, Exec(s, trace).db.ledger)
  {
    var r :| 0 <= r < |s.runs| && MayApply(s.runs[r]) && !DistinctHashes(Pending(s.runs[r].journal, s.db.ledger));
    var n := ErrorFreeRunCompletes(s, r);
    trace := Solo(r, n);
    RepeatedRow(s.db.ledger, Pending(s.runs[r].journal, s.db.ledger));
  }

  /** The simplest case: a journal that lists one migration twice, and an empty ledger. */
  lemma RepeatedJournalIsAppliedTwice(m: Migration) returns (trace: Trace)
    ensures var s := State(Database(false, false, None, [], [], []), [Run([m, m], false, true, Idle)]);
      Init(s) && Exec(s, trace).db.ledger == [m.hash, m.hash]
  {
    var s := State(Database(false, false, None, [], [], []), [Run([m, m], false, true, Idle)]);
    var n := ErrorFreeRunCompletes(s, 0);
    trace := Solo(0, n);
    BothPending(m);
    assert [] + Hashes([m, m]) == [m.hash, m.hash];
  }

  lemma BothPending(m: Migration)
    ensures Pending([m, m], []) == [m, m]
  {
    var none := set h | h in [];
    assert [m, m][1..] == [m] && [m][1..] == [];
    assert ComputePending([m], none) == [m];
  }

  lemma RepeatedRow(base: seq<string>, pending: seq<Migration>)
    requires !DistinctHashes(pending)
    ensures !OnceOnly(|base|, base + Hashes(pending))
  {
    var a, b :| 0 <= a < b < |pending| && pending[a].hash == pending[b].hash;
    var ledger := base + Hashes(pending);
    assert ledger[|base| + a] == ledger[|base| + b];
  }

  // ---------------------------------------------------------------- order, resumption, progress

  lemma {:induction false} PendingAfterPrefix(journal: seq<Migration>, k: nat, m: nat)
    requires DistinctHashes(journal) && k <= |journal| && m <= |journal|
    ensures Pending(journal[..m], Hashes(journal[..k])) == if k <= m then journal[k..m] else []
  {
    var have := set h | h in Hashes(journal[..k]);
    forall i | 0 <= i < |journal| ensures journal[i].hash in have <==> i < k {
      if i < k {
        assert Hashes(journal[..k])[i] == journal[i].hash;
      } else {
        assert forall x :: 0 <= x < k ==> Hashes(journal[..k])[x] == journal[x].hash != journal[i].hash;
      }
    }
    FilterSplit(journal[..m], have, if k <= m then k else m);
    assert journal[..m][if k <= m then k else m..] == if k <= m then journal[k..m] else [];
  }

  lemma {:induction false} FilterSplit(journal: seq<Migration>, have: set<string>, k: nat)
    requires k <= |journal|
    requires forall i :: 0 <= i < |journal| ==> (journal[i].hash in have <==> i < k)
    ensures ComputePending(journal, have) == journal[k..]
  {
    if journal != [] {
      forall i | 0 <= i < |journal[1..]|
        ensures journal[1..][i].hash in have <==> i < (if k == 0 then 0 else k - 1)
      {
        assert journal[1..][i] == journal[i + 1];
      }
      FilterSplit(journal[1..], have, if k == 0 then 0 else k - 1);
    }
  }

  /** The ledger holds the hashes of the first |ledger| entries of J, in J's order. */
  predicate IsPrefixLedger(J: seq<Migration>, ledger: seq<string>) {
    |ledger| <= |J| && ledger == Hashes(J[..|ledger|])
  }

  /** Rolling deploys: every run ships some prefix of one journal. */
  predicate JournalsArePrefixes(runs: seq<Run>, J: seq<Migration>) {
    forall r :: 0 <= r < |runs| ==> runs[r].journal <= J
  }

  lemma HeadOfPending(J: seq<Migration>, journal: seq<Migration>, ledger: seq<string>)
    requires DistinctHashes(J) && journal <= J && IsPrefixLedger(J, ledger) && Pending(journal, ledger) != []
    ensures |ledger| < |J| && Pending(journal, ledger)[0] == J[|ledger|]
    ensures IsPrefixLedger(J, ledger + [J[|ledger|].hash])
  {
    assert journal == J[..|journal|];
    PendingAfterPrefix(J, |ledger|, |journal|);
    assert Hashes(J[..|ledger| + 1]) == Hashes(J[..|ledger|]) + [J[|ledger|].hash];
  }

  lemma CommitExtendsPrefix(s: State, r: nat, e: Event, base: seq<string>, J: seq<Migration>)
    requires r < |s.runs| && RunInv(s.runs[r], base, s.db.ledger)
    requires DistinctHashes(J) && s.runs[r].journal <= J && IsPrefixLedger(J, s.db.ledger)
    ensures IsPrefixLedger(J, Next(s, r, e).db.ledger)
    ensures |s.db.ledger| <= |Next(s, r, e).db.ledger|
  {
    if Next(s, r, e).db.ledger != s.db.ledger {
      var run := s.runs[r];
      assert DistinctHashes(run.journal) by {
        assert forall i :: 0 <= i < |run.journal| ==> run.journal[i] == J[i];
      }
      FilterStaysDistinct(run.journal, set h | h in base);
      HeadOfPending(J, run.journal, s.db.ledger);
      assert run.phase.pending[run.phase.i] == Rest(run.phase).value[0];
    }
  }

  lemma {:induction false} PrefixKept(s: State, trace: Trace, base: seq<string>, J: seq<Migration>)
    requires Inv(s, base) && DistinctHashes(J) && JournalsArePrefixes(s.runs, J)
    requires IsPrefixLedger(J, s.db.ledger)
    ensures IsPrefixLedger(J, Exec(s, trace).db.ledger)
    ensures |s.db.ledger| <= |Exec(s, trace).db.ledger|
    decreases |trace|
  {
    if trace != [] {
      var (r, e) := trace[0];
      StepKeepsInv(s, r, e, base);
      if r < |s.runs| {
        CommitExtendsPrefix(s, r, e, base, J);
      }
      assert JournalsArePrefixes(Next(s, r, e).runs, J);
      PrefixKept(Next(s, r, e), trace[1..], base, J);
    }
  }

  /**
    If the ledger starts as a prefix of the journal it stays one, through every sequence of
    failing, crashing, dry and refused runs: migrations are applied in journal order, no gaps.
   */
  lemma LedgerStaysPrefix(s: State, trace: Trace, J: seq<Migration>)
    requires Init(s) && DistinctHashes(J) && JournalsArePrefixes(s.runs, J) && IsPrefixLedger(J, s.db.ledger)
    ensures IsPrefixLedger(J, Exec(s, trace).db.ledger)
    ensures |s.db.ledger| <= |Exec(s, trace).db.ledger|
  {
    InitInv(s);
    PrefixKept(s, trace, s.db.ledger, J);
  }

  lemma {:induction false} LedgerGrows(s: State, trace: Trace)
    ensures s.db.ledger <= Exec(s, trace).db.ledger
    decreases |trace|
  {
    if trace != [] {
      LedgerGrows(Next(s, trace[0].0, trace[0].1), trace[1..]);
    }
  }

  /**
    Resumption: when applying fails, nothing of the failing migration is left behind, and as long
    as nobody commits anything in between, the next run with that journal starts exactly at the
    failed tag, with exactly the migrations the failed run had left.
   */
  lemma FailureResumesAtFailedTag(s: State, before: Trace, r: nat, after: Trace, q: nat)
    requires Init(s) && r < |s.runs| && q < |s.runs| && DistinctHashes(Pending(s.runs[r].journal, s.db.ledger))
    requires s.runs[q].journal == s.runs[r].journal && MayApply(s.runs[q])
    requires Exec(s, before).runs[r].phase.Applying?
    requires var failed := Next(Exec(s, before), r, Fail);
      && |Exec(failed, after).db.ledger| == |failed.db.ledger|
      && Exec(failed, after).runs[q].phase.Locked?
    ensures var Applying(p, i, j) := Exec(s, before).runs[r].phase;
      var failed := Next(Exec(s, before), r, Fail);
      && i < |p|
      && failed.db == Exec(s, before).db
      && failed.runs[r].phase == Closing(ApplyFailed(p[i].tag))
      && Next(Exec(failed, after), q, Advance).runs[q].phase == Dumping(p[i..])
  {
    InitInv(s);
    ExecKeepsInv(s, before, s.db.ledger);
    ExecKeepsRuns(s, before);
    var mid := Exec(s, before);
    var failed := Next(mid, r, Fail);
    assert RunInv(mid.runs[r], s.db.ledger, mid.db.ledger);
    assert mid.runs[r].(phase := Idle) == s.runs[r].(phase := Idle);
    assert mid.runs[q].(phase := Idle) == s.runs[q].(phase := Idle);
    ExecKeepsRuns(failed, after);
    assert Exec(failed, after).runs[q].(phase := Idle) == failed.runs[q].(phase := Idle);
    LedgerGrows(failed, after);
    assert Exec(failed, after).db.ledger == failed.db.ledger;
  }

  lemma {:induction false} OneFewerPending(J: seq<Migration>, have: set<string>, m: Migration)
    requires DistinctHashes(J) && m in J && m.hash !in have
    ensures |ComputePending(J, have + {m.hash})| == |ComputePending(J, have)| - 1
  {
    if J[0] == m {
      FirstIsNotAgain(J, have);
      SameFilter(J[1..], have, m.hash);
    } else {
      OneFewerPending(J[1..], have, m);
      assert m in J[1..];
      var x :| 0 <= x < |J| && J[x] == m;
      assert J[0].hash != J[x].hash;
    }
  }

  predicate SubJournals(runs: seq<Run>, J: seq<Migration>) {
    forall r :: 0 <= r < |runs| ==>
      DistinctHashes(runs[r].journal) && forall m :: m in runs[r].journal ==> m in J
  }

  lemma StepConserves(s: State, r: nat, e: Event, base: seq<string>, J: seq<Migration>)
    requires r < |s.runs| && RunInv(s.runs[r], base, s.db.ledger)
    requires DistinctHashes(J) && SubJournals(s.runs, J)
    ensures var s' := Next(s, r, e);
      |Pending(J, s'.db.ledger)| + |s'.db.applied| == |Pending(J, s.db.ledger)| + |s.db.applied|
      && |s.db.applied| <= |s'.db.applied|
  {
    var s' := Next(s, r, e);
    if s'.db.ledger != s.db.ledger {
      var run := s.runs[r];
      var m := run.phase.pending[run.phase.i];
      FilterStaysDistinct(run.journal, set h | h in base);
      CommittedWasPending(run, base, s.db.ledger);
      assert (set h | h in s'.db.ledger) == (set h | h in s.db.ledger) + {m.hash};
      OneFewerPending(J, (set h | h in s.db.ledger), m);
    }
  }

  /**
    Progress is conserved: over every interleaving the number still pending plus the number
    committed is constant.  So pending never grows and falls by one with each commit.
   */
  lemma {:induction false} PendingPlusAppliedConserved(s: State, trace: Trace, base: seq<string>, J: seq<Migration>)
    requires Inv(s, base) && DistinctHashes(J) && SubJournals(s.runs, J)
    ensures |Pending(J, Exec(s, trace).db.ledger)| + |Exec(s, trace).db.applied|
         == |Pending(J, s.db.ledger)| + |s.db.applied|
    ensures |s.db.applied| <= |Exec(s, trace).db.applied|
    decreases |trace|
  {
    if trace != [] {
      var (r, e) := trace[0];
      StepKeepsInv(s, r, e, base);
      if r < |s.runs| {
        StepConserves(s, r, e, base, J);
      }
      assert SubJournals(Next(s, r, e).runs, J);
      PendingPlusAppliedConserved(Next(s, r, e), trace[1..], base, J);
    }
  }

  // ---------------------------------------------------------------- runs that may not write

  /** The step executes CREATE SCHEMA IF NOT EXISTS. */
  predicate StepsSchema(s: State, r: nat, e: Event) {
    r < |s.runs| && e.Advance? && s.runs[r].phase.Idle? && PassesGate(s.runs[r])
  }

  /** The step executes CREATE TABLE IF NOT EXISTS. */
  predicate StepsTable(s: State, r: nat, e: Event) {
    r < |s.runs| && e.Advance? && s.runs[r].phase.SchemaReady?
  }

  predicate SomeStepsSchema(s: State, trace: Trace)
    decreases |trace|
  {
    trace != [] && (StepsSchema(s, trace[0].0, trace[0].1)
                    || SomeStepsSchema(Next(s, trace[0].0, trace[0].1), trace[1..]))
  }

  predicate SomeStepsTable(s: State, trace: Trace)
    decreases |trace|
  {
    trace != [] && (StepsTable(s, trace[0].0, trace[0].1)
                    || SomeStepsTable(Next(s, trace[0].0, trace[0].1), trace[1..]))
  }

  /** Only runs that may not write take part: dry runs, and runs the backup gate refuses. */
  predicate NobodyWrites(s: State, trace: Trace) {
    forall k :: 0 <= k < |trace| && trace[k].0 < |s.runs| ==> !MayApply(s.runs[trace[k].0])
  }

  lemma StepWithoutWriting(s: State, r: nat, e: Event, base: seq<string>)
    requires Inv(s, base) && (r < |s.runs| ==> !MayApply(s.runs[r]))
    ensures Next(s, r, e).db.(lock := s.db.lock) ==
      s.db.(schemaExists := s.db.schemaExists || StepsSchema(s, r, e),
            tableExists := s.db.tableExists || StepsTable(s, r, e))
  {
    assert r < |s.runs| ==> RunInv(s.runs[r], base, s.db.ledger);
  }

  /**
    What dry runs and refused runs do to the database, over every interleaving, failures and crashes
    included: no row and no migration statement, but the schema and the table of the ledger are
    created by any of them that gets that far.
   */
  lemma {:induction false} DryAndRefusedRunsOnlyPrepare(s: State, trace: Trace, base: seq<string>)
    requires Inv(s, base) && NobodyWrites(s, trace)
    ensures Exec(s, trace).db.(lock := s.db.lock) ==
      s.db.(schemaExists := s.db.schemaExists || SomeStepsSchema(s, trace),
            tableExists := s.db.tableExists || SomeStepsTable(s, trace))
    decreases |trace|
  {
    if trace != [] {
      var (r, e) := trace[0];
      StepKeepsInv(s, r, e, base);
      StepWithoutWriting(s, r, e, base);
      NobodyWritesLater(s, trace);
      DryAndRefusedRunsOnlyPrepare(Next(s, r, e), trace[1..], base);
    }
  }

  lemma NobodyWritesLater(s: State, trace: Trace)
    requires NobodyWrites(s, trace) && trace != []
    ensures trace[0].0 < |s.runs| ==> !MayApply(s.runs[trace[0].0])
    ensures NobodyWrites(Next(s, trace[0].0, trace[0].1), trace[1..])
  {
    var s' := Next(s, trace[0].0, trace[0].1);
    forall k | 0 <= k < |trace[1..]| && trace[1..][k].0 < |s'.runs|
      ensures !MayApply(s'.runs[trace[1..][k].0])
    {
      assert trace[1..][k] == trace[k + 1];
    }
  }

  /**
    "--dry-run does not modify the database" is true exactly when the schema and the table are there
    already, or no run of the trace gets to create what is missing.
   */
  lemma UnmodifiedIffNothingToPrepare(s: State, trace: Trace, base: seq<string>)
    requires Inv(s, base) && NobodyWrites(s, trace)
    ensures Exec(s, trace).db.(lock := s.db.lock) == s.db <==>
      (s.db.schemaExists || !SomeStepsSchema(s, trace)) && (s.db.tableExists || !SomeStepsTable(s, trace))
  {
    DryAndRefusedRunsOnlyPrepare(s, trace, base);
  }

  /** Event k is the first one of its run. */
  ghost predicate FirstMove(trace: Trace, k: nat)
    requires k < |trace|
  {
    forall j :: 0 <= j < k ==> trace[j].0 != trace[k].0
  }

  /** A run that passes the gate makes its first call, and the call succeeds. */
  ghost predicate Opens(s: State, trace: Trace, k: nat) {
    && k < |trace| && FirstMove(trace, k) && trace[k].1.Advance?
    && trace[k].0 < |s.runs| && s.runs[trace[k].0].phase.Idle? && PassesGate(s.runs[trace[k].0])
  }

  lemma OpensLater(s: State, trace: Trace, k: nat)
    requires 0 < k < |trace|
    ensures Opens(s, trace, k) <==> Opens(Next(s, trace[0].0, trace[0].1), trace[1..], k - 1)
  {
    var tail := trace[1..];
    var s' := Next(s, trace[0].0, trace[0].1);
    assert tail[k - 1] == trace[k];
    if Opens(s, trace, k) {
      assert trace[0].0 != trace[k].0;
      assert forall j :: 0 <= j < k - 1 ==> tail[j] == trace[j + 1];
    }
    if Opens(s', tail, k - 1) {
      LeavesIdle(s, trace[0].0, trace[0].1);
      assert forall j :: 0 < j < k ==> trace[j] == tail[j - 1];
    }
  }

  lemma LeavesIdle(s: State, r: nat, e: Event)
    ensures r < |s.runs| ==> !Next(s, r, e).runs[r].phase.Idle?
  {
  }

  lemma {:induction false} SchemaIffOpened(s: State, trace: Trace)
    ensures SomeStepsSchema(s, trace) <==> exists k: nat :: Opens(s, trace, k)
    decreases |trace|
  {
    if trace != [] {
      var s' := Next(s, trace[0].0, trace[0].1);
      SchemaIffOpened(s', trace[1..]);
      assert StepsSchema(s, trace[0].0, trace[0].1) <==> Opens(s, trace, 0);
      if exists k: nat :: Opens(s, trace, k) {
        var k: nat :| Opens(s, trace, k);
        if k > 0 {
          OpensLater(s, trace, k);
        }
      }
      if exists k: nat :: Opens(s', trace[1..], k) {
        var k: nat :| Opens(s', trace[1..], k);
        OpensLater(s, trace, k + 1);
      }
    }
  }

  lemma NoOneReady(s: State, r: nat, e: Event)
    requires forall q :: 0 <= q < |s.runs| ==> !s.runs[q].phase.SchemaReady?
    requires !StepsSchema(s, r, e)
    ensures forall q :: 0 <= q < |s.runs| ==> !Next(s, r, e).runs[q].phase.SchemaReady?
    ensures !StepsTable(s, r, e)
  {
  }

  lemma {:induction false} NoTableWithoutSchema(s: State, trace: Trace)
    requires forall r :: 0 <= r < |s.runs| ==> !s.runs[r].phase.SchemaReady?
    requires SomeStepsTable(s, trace)
    ensures SomeStepsSchema(s, trace)
    decreases |trace|
  {
    var (r, e) := trace[0];
    if !StepsSchema(s, r, e) {
      NoOneReady(s, r, e);
      NoTableWithoutSchema(Next(s, r, e), trace[1..]);
    }
  }

  /** A database without the ledger's schema stays as it is exactly when no admitted run opens. */
  lemma FreshDatabaseStaysFreshIff(s: State, trace: Trace)
    requires Init(s) && NobodyWrites(s, trace) && !s.db.schemaExists && !s.db.tableExists
    ensures Exec(s, trace).db.(lock := None) == s.db <==> !exists k: nat :: Opens(s, trace, k)
  {
    InitInv(s);
    UnmodifiedIffNothingToPrepare(s, trace, s.db.ledger);
    SchemaIffOpened(s, trace);
    if SomeStepsTable(s, trace) {
      NoTableWithoutSchema(s, trace);
    }
  }

  /** The simplest case: one dry run, undisturbed, of a database that has no ledger yet. */
  lemma DryRunModifiesFreshDatabase(s: State, r: nat) returns (n: nat)
    requires Init(s) && r < |s.runs| && s.runs[r].dryRun && !s.db.schemaExists && !s.db.tableExists
    ensures var end := Exec(s, Solo(r, n));
      && |end.runs| == |s.runs|
      && end.runs[r].phase == Done(if Pending(s.runs[r].journal, s.db.ledger) == [] then UpToDate else DryRun)
      && end.db == s.db.(schemaExists := true, tableExists := true) != s.db
  {
    TakesLock(s, r);
    var locked := Exec(s, Solo(r, 3));
    var closing := Next(locked, r, Advance);
    n := 5;
    SoloStep(locked, r, 1);
    SoloStep(closing, r, 0);
    SoloThen(s, r, 3, 2);
  }

  // ---------------------------------------------------------------- the runner itself

  /** What the awaited calls of one run do: which of them reject. */
  datatype Faults = Faults(
    prepare: Option<nat>,       // 0: CREATE SCHEMA, 1: CREATE TABLE, 2: the lock query
    read: bool, dump: bool, verify: bool,
    apply: Option<(nat, nat)>)  // (i, j): pending[i] rejects once j statements have run

  /** How prepareAndLock ends. */
  datatype Prepared = GotLock | NoLock | Rejected

  /** The ledger, the schema and the advisory lock, as seen through one connection each. */
  class PostgresDb {
    var schemaExists: bool
    var tableExists: bool
    var lock: Option<nat>
    var ledger: seq<string>
    var committed: seq<string>
    ghost var applied: seq<Migration>

    ghost function View(): Database
      reads this
    {
      Database(schemaExists, tableExists, lock, ledger, committed, applied)
    }

    constructor ()
      ensures View() == Database(false, false, None, [], [], [])
    {
      schemaExists, tableExists := false, false;
      lock, ledger, committed, applied := None, [], [], [];
    }

    /**
      The schema and the table are created before the lock is tried, so they stay when it is refused
      or a later call rejects.
     */
    method PrepareAndLock(session: nat, rejectsAt: Option<nat>) returns (r: Prepared)
      modifies this
      ensures r == if rejectsAt.Some? && rejectsAt.value <= 2 then Rejected
                   else if old(lock).None? then GotLock else NoLock
      ensures View() == old(View()).(
        schemaExists := old(schemaExists) || rejectsAt != Some(0),
        tableExists := old(tableExists) || (rejectsAt != Some(0) && rejectsAt != Some(1)),
        lock := if r.GotLock? then Some(session) else old(lock))
    {
      if rejectsAt == Some(0) {
        return Rejected;
      }
      schemaExists := true;
      if rejectsAt == Some(1) {
        return Rejected;
      }
      tableExists := true;
      if rejectsAt == Some(2) {
        return Rejected;
      }
      if lock.Some? {
        return NoLock;
      }
      lock := Some(session);
      r := GotLock;
    }

    /** One transaction: the statements run one by one, nothing shows unless all of them did. */
    method ApplyMigration(m: Migration, rejectsAt: Option<nat>) returns (ok: bool)
      modifies this
      ensures ok == (rejectsAt.None? || rejectsAt.value > |m.sql|)
      ensures View() == if ok then Commit(old(View()), m) else old(View())
    {
      var tx: seq<string> := [];
      for k := 0 to |m.sql|
        invariant tx == m.sql[..k] && View() == old(View())
        invariant rejectsAt.Some? ==> k <= rejectsAt.value
      {
        if rejectsAt == Some(k) {
          return false;
        }
        tx := tx + [m.sql[k]];
      }
      if rejectsAt == Some(|m.sql|) {
        return false;
      }
      committed, ledger, applied := committed + tx, ledger + [m.hash], applied + [m];
      ok := true;
    }

    method Close()
      modifies this
      ensures View() == old(View()).(lock := None)
    {
      lock := None;
    }
  }

  /** The state of the step machine in which run r has phase p over database db. */
  ghost function At(s: State, r: nat, db: Database, p: Phase): State
    requires r < |s.runs|
  {
    State(db, s.runs[r := s.runs[r].(phase := p)])
  }

  /** Whether the call awaited in this phase rejects under f. */
  function EventUnder(f: Faults, p: Phase): Event {
    var rejects := match p
      case Idle => f.prepare == Some(0)
      case SchemaReady => f.prepare == Some(1)
      case TableReady => f.prepare == Some(2)
      case Locked => f.read
      case Dumping(_) => f.dump
      case Applying(_, i, j) => f.apply == Some((i, j))
      case Verifying => f.verify
      case _ => false;
    if rejects then Fail else Advance
  }

  /** The machine after n steps of run r alone, its awaited calls rejecting exactly as f says. */
  function Drive(s: State, r: nat, f: Faults, n: nat): (s': State)
    requires r < |s.runs|
    ensures |s'.runs| == |s.runs|
  {
    if n == 0 then s
    else var before := Drive(s, r, f, n - 1); Next(before, r, EventUnder(f, before.runs[r].phase))
  }

  /** Driving one run is one of the traces the theorems above quantify over. */
  lemma {:induction false} DriveIsExec(s: State, r: nat, f: Faults, n: nat) returns (trace: Trace)
    requires r < |s.runs|
    ensures Exec(s, trace) == Drive(s, r, f, n)
  {
    if n == 0 {
      trace := [];
    } else {
      var before := DriveIsExec(s, r, f, n - 1);
      var last := [(r, EventUnder(f, Exec(s, before).runs[r].phase))];
      trace := before + last;
      ExecAppend(s, before, last);
      assert last[1..] == [];
    }
  }

  /** Driving run r from s leads to t. */
  ghost predicate Reaches(s: State, r: nat, f: Faults, t: State)
    requires r < |s.runs|
  {
    exists n: nat :: Drive(s, r, f, n) == t
  }

  lemma ReachesNext(s: State, r: nat, f: Faults, db: Database, p: Phase)
    requires r < |s.runs| && Reaches(s, r, f, At(s, r, db, p))
    ensures var (db', p') := StepRun(db, r, s.runs[r].(phase := p), EventUnder(f, p));
      Reaches(s, r, f, At(s, r, db', p'))
  {
    var n: nat :| Drive(s, r, f, n) == At(s, r, db, p);
    assert Drive(s, r, f, n + 1) == Next(At(s, r, db, p), r, EventUnder(f, p));
  }

  lemma {:induction false} ReachesStatement(
      s: State, r: nat, f: Faults, db: Database, p: seq<Migration>, i: nat, j: nat)
    requires r < |s.runs| && i < |p| && j <= |p[i].sql|
    requires Reaches(s, r, f, At(s, r, db, Applying(p, i, 0)))
    requires f.apply.Some? && f.apply.value.0 == i ==> j <= f.apply.value.1
    ensures Reaches(s, r, f, At(s, r, db, Applying(p, i, j)))
  {
    if j != 0 {
      ReachesStatement(s, r, f, db, p, i, j - 1);
      ReachesNext(s, r, f, db, Applying(p, i, j - 1));
      StatementStep(db, r, s.runs[r], f, p, i, j);
    }
  }

  lemma StatementStep(db: Database, r: nat, run: Run, f: Faults, p: seq<Migration>, i: nat, j: nat)
    requires i < |p| && 0 < j <= |p[i].sql|
    requires f.apply.Some? && f.apply.value.0 == i ==> j <= f.apply.value.1
    ensures var phase := Applying(p, i, j - 1);
      StepRun(db, r, run.(phase := phase), EventUnder(f, phase)) == (db, Applying(p, i, j))
  {
  }

  /** One whole applyMigration call. */
  lemma ReachesMigration(s: State, r: nat, f: Faults, db: Database, p: seq<Migration>, i: nat, ok: bool)
    requires r < |s.runs| && i < |p|
    requires Reaches(s, r, f, At(s, r, db, Applying(p, i, 0)))
    requires ok == !(f.apply.Some? && f.apply.value.0 == i && f.apply.value.1 <= |p[i].sql|)
    ensures ok ==> Reaches(s, r, f,
      At(s, r, Commit(db, p[i]), if i + 1 < |p| then Applying(p, i + 1, 0) else Verifying))
    ensures !ok ==> Reaches(s, r, f, At(s, r, db, Closing(ApplyFailed(p[i].tag))))
  {
    var j := if ok then |p[i].sql| else f.apply.value.1;
    ReachesStatement(s, r, f, db, p, i, j);
    ReachesNext(s, r, f, db, Applying(p, i, j));
  }

  /** The whole of prepareAndLock, as PostgresDb.PrepareAndLock does it. */
  lemma ReachesPrepared(s: State, r: nat, f: Faults, db: Database)
    requires r < |s.runs| && PassesGate(s.runs[r]) && Reaches(s, r, f, At(s, r, db, Idle))
    ensures var after := db.(schemaExists := db.schemaExists || f.prepare != Some(0),
                             tableExists := db.tableExists || (f.prepare != Some(0) && f.prepare != Some(1)));
      if f.prepare.Some? && f.prepare.value <= 2 then Reaches(s, r, f, At(s, r, after, Done(Failed)))
      else if db.lock.None? then Reaches(s, r, f, At(s, r, after.(lock := Some(r)), Locked))
      else Reaches(s, r, f, At(s, r, after, Done(LockRefused)))
  {
    ReachesNext(s, r, f, db, Idle);
    if f.prepare != Some(0) {
      var schemaReady := db.(schemaExists := true);
      ReachesNext(s, r, f, schemaReady, SchemaReady);
      if f.prepare != Some(1) {
        ReachesNext(s, r, f, schemaReady.(tableExists := true), TableReady);
      }
    }
  }

  // ---------------------------------------------------------------- the outcome on the inputs

  /** after is before plus the rows and statements of ms; the lock apart. */
  predicate Adds(before: Database, after: Database, ms: seq<Migration>) {
    && after.ledger == before.ledger + Hashes(ms)
    && after.committed == before.committed + Statements(ms)
    && after.applied == before.applied + ms
  }

  /** The transaction of one of the pending migrations rejects. */
  predicate LoopRejects(f: Faults, pending: seq<Migration>) {
    f.apply.Some? && f.apply.value.0 < |pending| && f.apply.value.1 <= |pending[f.apply.value.0].sql|
  }

  /** The migrations that are committed if the loop is entered. */
  function UpToRejection(f: Faults, pending: seq<Migration>): seq<Migration> {
    if LoopRejects(f, pending) then pending[..f.apply.value.0] else pending
  }

  /** All three calls of prepareAndLock answer. */
  predicate Prepares(f: Faults) {
    f.prepare.None? || f.prepare.value > 2
  }

  /** The run gets past its read of the ledger. */
  predicate Reads(run: Run, f: Faults, before: Database) {
    PassesGate(run) && Prepares(f) && before.lock.None? && !f.read
  }

  /** The run enters its apply loop. */
  predicate Enters(run: Run, f: Faults, before: Database) {
    Reads(run, f, before) && Pending(run.journal, before.ledger) != [] && !run.dryRun && !f.dump
  }

  /** The migrations an undisturbed run commits. */
  function AddedBy(run: Run, f: Faults, before: Database): seq<Migration> {
    if Enters(run, f, before) then UpToRejection(f, Pending(run.journal, before.ledger)) else []
  }

  /** How an undisturbed run ends, on its inputs, the database it found and which calls reject. */
  predicate Reports(run: Run, f: Faults, before: Database, o: Outcome) {
    var pending := Pending(run.journal, before.ledger);
    && (o.BackupRefused? <==> !PassesGate(run))
    && (o.LockRefused? <==> PassesGate(run) && Prepares(f) && before.lock.Some?)
    && (o.UpToDate? <==> Reads(run, f, before) && pending == [])
    && (o.DryRun? <==> Reads(run, f, before) && pending != [] && run.dryRun)
    && (o.Applied? <==> Enters(run, f, before) && !LoopRejects(f, pending) && !f.verify)
    && (o.ApplyFailed? <==> Enters(run, f, before) && LoopRejects(f, pending))
    && (o.ApplyFailed? && LoopRejects(f, pending) ==> o.tag == pending[f.apply.value.0].tag)
    && !o.VerificationFailed? && !o.Crashed?
  }

  /** And what it leaves: schema and table, rows and statements, and the lock as it was. */
  predicate Leaves(run: Run, f: Faults, before: Database, after: Database) {
    && Adds(before, after, AddedBy(run, f, before))
    && after.lock == before.lock
    && after.schemaExists == (before.schemaExists || (PassesGate(run) && f.prepare != Some(0)))
    && after.tableExists == (before.tableExists || (PassesGate(run) && f.prepare !in {Some(0), Some(1)}))
  }

  /** Schema, table and lock are the same. */
  predicate SameFrame(x: Database, y: Database) {
    x.schemaExists == y.schemaExists && x.tableExists == y.tableExists && x.lock == y.lock
  }

  lemma AddsNothing(before: Database, after: Database)
    requires SameRows(before, after)
    ensures Adds(before, after, [])
  {
    assert before.ledger + Hashes([]) == before.ledger;
    assert before.committed + Statements([]) == before.committed && before.applied + [] == before.applied;
  }

  lemma AddsOneMore(before: Database, here: Database, pending: seq<Migration>, i: nat)
    requires i < |pending| && Adds(before, here, pending[..i])
    ensures Adds(before, Commit(here, pending[i]), pending[..i + 1])
  {
    var init, all := pending[..i], pending[..i + 1];
    assert all[..|all| - 1] == init && all[|all| - 1] == pending[i];
    assert Hashes(all) == Hashes(init) + [pending[i].hash];
    assert before.committed + Statements(init) + pending[i].sql == before.committed + Statements(all);
  }

  /**
    runMigrations without interference, for every pattern of rejecting calls: it ends as the step
    machine ends, with the same outcome and the same database.  Which outcome that is, and what is committed, is also
    said on the inputs alone: Reports and Leaves.
   */
  method RunMigrations(db: PostgresDb, session: nat, f: Faults, ghost s0: State, journal: seq<Migration>,
                       dryRun: bool, confirmed: bool) returns (outcome: Outcome)
    requires session < |s0.runs| && s0.runs[session] == Run(journal, dryRun, confirmed, Idle)
    requires s0.db == db.View()
    modifies db
    ensures Reaches(s0, session, f, At(s0, session, db.View(), Done(outcome)))
    ensures Reports(s0.runs[session], f, s0.db, outcome) && Leaves(s0.runs[session], f, s0.db, db.View())
  {
    AddsNothing(s0.db, s0.db);
    assert Drive(s0, session, f, 0) == At(s0, session, db.View(), Idle);
    ReachesNext(s0, session, f, db.View(), Idle);
    if !dryRun && !confirmed {
      return BackupRefused;
    }
    ReachesPrepared(s0, session, f, db.View());
    var prepared := db.PrepareAndLock(session, f.prepare);
    if prepared.Rejected? {
      return Failed;
    }
    if prepared.NoLock? {
      return LockRefused;
    }
    outcome := RunLocked(db, session, f, s0, journal, dryRun);
    ReachesNext(s0, session, f, db.View(), Closing(outcome));
    db.Close();
  }

  /** The body of the try block. */
  method RunLocked(db: PostgresDb, session: nat, f: Faults, ghost s0: State, journal: seq<Migration>,
                   dryRun: bool) returns (outcome: Outcome)
    requires session < |s0.runs| && s0.runs[session].journal == journal && s0.runs[session].dryRun == dryRun
    requires Reaches(s0, session, f, At(s0, session, db.View(), Locked))
    requires PassesGate(s0.runs[session]) && Prepares(f) && s0.db.lock.None? && SameRows(db.View(), s0.db)
    modifies db
    ensures Reaches(s0, session, f, At(s0, session, db.View(), Closing(outcome)))
    ensures Reports(s0.runs[session], f, s0.db, outcome)
    ensures Adds(s0.db, db.View(), AddedBy(s0.runs[session], f, s0.db)) && SameFrame(old(db.View()), db.View())
  {
    AddsNothing(s0.db, db.View());
    ReachesNext(s0, session, f, db.View(), Locked);
    if f.read {
      return Failed;
    }
    var pending := ComputePending(journal, set h | h in db.ledger);
    if pending == [] {
      return UpToDate;
    }
    if dryRun {
      return DryRun;
    }
    outcome := DumpAndApply(db, session, f, s0, journal, pending);
  }

  /** The rest of it: the dump, the loop and the verification. */
  method DumpAndApply(db: PostgresDb, session: nat, f: Faults, ghost s0: State, journal: seq<Migration>,
                      pending: seq<Migration>) returns (outcome: Outcome)
    requires session < |s0.runs| && pending == Pending(journal, s0.db.ledger) && pending != []
    requires Reaches(s0, session, f, At(s0, session, db.View(), Dumping(pending)))
    requires s0.runs[session].journal == journal && SameRows(db.View(), s0.db)
    modifies db
    ensures Reaches(s0, session, f, At(s0, session, db.View(), Closing(outcome)))
    ensures outcome ==
      if f.dump then Failed
      else if LoopRejects(f, pending) then ApplyFailed(pending[f.apply.value.0].tag)
      else if f.verify then Failed
      else Applied
    ensures Adds(s0.db, db.View(), if f.dump then [] else UpToRejection(f, pending))
    ensures SameFrame(old(db.View()), db.View())
  {
    AddsNothing(s0.db, db.View());
    ReachesNext(s0, session, f, db.View(), Dumping(pending));
    if f.dump {
      return Failed;
    }
    var failure := ApplyAll(db, session, f, s0, pending);
    if failure.Some? {
      return failure.value;
    }
    ReachesNext(s0, session, f, db.View(), Verifying);
    if f.verify {
      return Failed;
    }
    NothingLeft(journal, s0.db.ledger);
    var missing := ComputePending(journal, set h | h in db.ledger);
    outcome := if missing == [] then Applied else VerificationFailed(Tags(missing));
  }

  /** Apply in order, one transaction per migration, stop on the first error. */
  method ApplyAll(db: PostgresDb, session: nat, f: Faults, ghost s0: State, pending: seq<Migration>)
    returns (failure: Option<Outcome>)
    requires session < |s0.runs| && pending != []
    requires Reaches(s0, session, f, At(s0, session, db.View(), Applying(pending, 0, 0)))
    requires SameRows(db.View(), s0.db)
    modifies db
    ensures Reaches(s0, session, f,
      At(s0, session, db.View(), if failure.Some? then Closing(failure.value) else Verifying))
    ensures Adds(s0.db, db.View(), UpToRejection(f, pending)) && SameFrame(old(db.View()), db.View())
    ensures failure == if LoopRejects(f, pending) then Some(ApplyFailed(pending[f.apply.value.0].tag)) else None
  {
    AddsNothing(s0.db, db.View());
    for i := 0 to |pending|
      invariant Reaches(s0, session, f,
        At(s0, session, db.View(), if i < |pending| then Applying(pending, i, 0) else Verifying))
      invariant Adds(s0.db, db.View(), pending[..i]) && SameFrame(old(db.View()), db.View())
      invariant LoopRejects(f, pending) ==> i <= f.apply.value.0
    {
      var rejectsAt := if f.apply.Some? && f.apply.value.0 == i then Some(f.apply.value.1) else None;
      ghost var before := db.View();
      var ok := db.ApplyMigration(pending[i], rejectsAt);
      ReachesMigration(s0, session, f, before, pending, i, ok);
      if !ok {
        return Some(ApplyFailed(pending[i].tag));
      }
      AddsOneMore(s0.db, before, pending, i);
    }
    assert pending[..|pending|] == pending;
    failure := None;
  }

  predicate NoFaults(f: Faults) {
    f.prepare.None? && !f.read && !f.dump && !f.verify && f.apply.None?
  }

  lemma NothingRejects(f: Faults, p: Phase)
    requires NoFaults(f)
    ensures EventUnder(f, p) == Advance
  {
  }

  lemma SoloOnce(s: State, r: nat)
    ensures Exec(s, Solo(r, 1)) == Next(s, r, Advance)
  {
    SoloStep(s, r, 0);
  }

  lemma {:induction false} DriveIsSolo(s: State, r: nat, f: Faults, n: nat)
    requires r < |s.runs| && NoFaults(f)
    ensures Drive(s, r, f, n) == Exec(s, Solo(r, n))
  {
    if n != 0 {
      DriveIsSolo(s, r, f, n - 1);
      SoloThen(s, r, n - 1, 1);
      var before := Drive(s, r, f, n - 1);
      SoloOnce(before, r);
      NothingRejects(f, before.runs[r].phase);
    }
  }

  lemma NothingAfterDone(s: State, r: nat, e: Event)
    requires r < |s.runs| && s.runs[r].phase.Done?
    ensures Next(s, r, e).runs[r].phase == s.runs[r].phase
  {
  }

  lemma {:induction false} DoneStaysDone(s: State, r: nat, f: Faults, n: nat, m: nat)
    requires r < |s.runs| && n <= m && Drive(s, r, f, n).runs[r].phase.Done?
    ensures Drive(s, r, f, m).runs[r].phase == Drive(s, r, f, n).runs[r].phase
  {
    if n < m {
      DoneStaysDone(s, r, f, n, m - 1);
      var before := Drive(s, r, f, m - 1);
      NothingAfterDone(before, r, EventUnder(f, before.runs[r].phase));
    }
  }

  /** A run that may write and meets no fault reports success. */
  lemma NoFaultsSucceed(s: State, r: nat, f: Faults, n: nat)
    requires Init(s) && r < |s.runs| && MayApply(s.runs[r]) && NoFaults(f)
    requires Drive(s, r, f, n).runs[r].phase.Done?
    ensures Succeeded(Drive(s, r, f, n).runs[r].phase)
  {
    var m := ErrorFreeRunCompletes(s, r);
    DriveIsSolo(s, r, f, m);
    if n <= m {
      DoneStaysDone(s, r, f, n, m);
    } else {
      DoneStaysDone(s, r, f, m, n);
    }
  }

  /**
    End to end, for an undisturbed run of the method whatever its calls do: it releases the lock,
    never reports a verification failure, and leaves a schema that is what the ledger says.  If it
    reports success nothing is pending, and it does so whenever it may write and no call fails.
   */
  lemma RunOutcome(s0: State, r: nat, f: Faults, db: Database, outcome: Outcome)
    requires Init(s0) && r < |s0.runs| && Reaches(s0, r, f, At(s0, r, db, Done(outcome)))
    ensures !outcome.VerificationFailed? && db.lock.None?
    ensures db.ledger == s0.db.ledger + Hashes(db.applied) && db.committed == Statements(db.applied)
    ensures outcome.Applied? || outcome.UpToDate? ==> Pending(s0.runs[r].journal, db.ledger) == []
    ensures MayApply(s0.runs[r]) && NoFaults(f) ==> outcome.Applied? || outcome.UpToDate?
  {
    var n: nat :| Drive(s0, r, f, n) == At(s0, r, db, Done(outcome));
    var trace := DriveIsExec(s0, r, f, n);
    InitInv(s0);
    ExecKeepsInv(s0, trace, s0.db.ledger);
    var end := Exec(s0, trace);
    assert RunInv(end.runs[r], s0.db.ledger, db.ledger);
    forall q | 0 <= q < |end.runs| ensures !Holding(end.runs[q].phase) {
      if q != r {
        OthersIdle(s0, r, f, n, q);
      }
    }
    if db.lock.Some? {
      SomebodyHolds(end);
    }
    if MayApply(s0.runs[r]) && NoFaults(f) {
      NoFaultsSucceed(s0, r, f, n);
    }
  }

  lemma SomebodyHolds(s: State)
    requires LockInv(s) && s.db.lock.Some?
    ensures exists q :: 0 <= q < |s.runs| && Holding(s.runs[q].phase)
  {
    assert Holding(s.runs[s.db.lock.value].phase);
  }

  lemma {:induction false} OthersIdle(s: State, r: nat, f: Faults, n: nat, q: nat)
    requires r < |s.runs| && q < |s.runs| && q != r
    ensures Drive(s, r, f, n).runs[q] == s.runs[q]
  {
    if n != 0 {
      OthersIdle(s, r, f, n - 1, q);
    }
  }
}
