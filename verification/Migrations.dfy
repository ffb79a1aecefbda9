/**
 The migration runner: numbered SQL files applied once each and recorded with their checksum, over failing and
 retried runs. A checksum stands for the content it is taken of.
 */
module Migrations {

  type Version = nat

  type Sql = string

  datatype File = File(version: Version, content: Sql)

  datatype Record = Record(checksum: Sql, success: bool)

  datatype Db<S> = Db(schema: S, records: map<Version, Record>)

  /** How the attempt on a file goes: a failure is recorded at best; a commit whose record fails stops the run. */
  datatype Attempt = Commits | Fails(recorded: bool) | CommitsUnrecorded

  datatype Outcome = Finished | LockHeld | ChecksumMismatch(file: nat) | SqlFailed(file: nat) | RecordFailed(file: nat)

  /** What the run reads at its start: the checksums of the versions recorded as successes. */
  function Checksums(records: map<Version, Record>): map<Version, Sql> {
    map v | v in records && records[v].success :: records[v].checksum
  }

  /** From file `i` on; `sql` is the effect of a file's statements on the schema. */
  function RunFrom<S>(
    sql: (S, Sql) -> S, db: Db<S>, files: seq<File>, attempts: seq<Attempt>, checksums: map<Version, Sql>, i: nat
  ): (Db<S>, Outcome)
    requires |attempts| == |files|
    decreases |files| - i
  {
    if i >= |files| then (db, Finished)
    else
      var f := files[i];
      if f.version in checksums then
        if checksums[f.version] != f.content then (db, ChecksumMismatch(i))
        else RunFrom(sql, db, files, attempts, checksums, i + 1)
      else match attempts[i]
        case Commits => RunFrom(sql, Committed(sql, db, f), files, attempts, checksums, i + 1)
        case Fails(recorded) =>
          (if recorded then db.(records := db.records[f.version := Record(f.content, false)]) else db, SqlFailed(i))
        case CommitsUnrecorded => (db.(schema := sql(db.schema, f.content)), RecordFailed(i))
  }

  function Committed<S>(sql: (S, Sql) -> S, db: Db<S>, f: File): Db<S> {
    Db(sql(db.schema, f.content), db.records[f.version := Record(f.content, true)])
  }

  datatype Run = Run(files: seq<File>, attempts: seq<Attempt>, lockFree: bool)

  function RunMigrations<S>(sql: (S, Sql) -> S, db: Db<S>, run: Run): (Db<S>, Outcome)
    requires |run.attempts| == |run.files|
  {
    if !run.lockFree then (db, LockHeld)
    else RunFrom(sql, db, run.files, run.attempts, Checksums(db.records), 0)
  }

  // ---- The loop ---------------------------------------------------------------------------------

  class Client<S(!new)> {
    const sql: (S, Sql) -> S
    var schema: S
    var records: map<Version, Record>

    constructor (sql: (S, Sql) -> S, schema: S)
      ensures this.sql == sql && Tables() == Db(schema, map[])
    {
      this.sql, this.schema, records := sql, schema, map[];
    }

    function Tables(): Db<S>
      reads this
    {
      Db(schema, records)
    }

    /**
     What the next run will read: a success makes this content the recorded one, and a failure leaves none for the
     version; other versions' records are untouched.
     */
    method RecordAttempt(f: File, success: bool)
      modifies this`records
      ensures records == old(records)[f.version := Record(f.content, success)]
      ensures Checksums(records) ==
              if success then Checksums(old(records))[f.version := f.content] else Checksums(old(records)) - {f.version}
      ensures forall v :: v != f.version ==>
                (v in records <==> v in old(records)) && (v in records ==> records[v] == old(records)[v])
    {
      records := records[f.version := Record(f.content, success)];
    }

    method ApplyMigrations(run: Run) returns (outcome: Outcome)
      requires |run.attempts| == |run.files|
      modifies this
      ensures (Tables(), outcome) == RunMigrations(sql, old(Tables()), run)
    {
      if !run.lockFree {
        return LockHeld;
      }
      var checksums := Checksums(records);
      for i := 0 to |run.files|
        invariant RunFrom(sql, Tables(), run.files, run.attempts, checksums, i)
                  == RunMigrations(sql, old(Tables()), run)
      {
        var f := run.files[i];
        if f.version in checksums {
          if checksums[f.version] != f.content {
            return ChecksumMismatch(i);
          }
          continue;
        }
        match run.attempts[i]
        case Fails(recorded) =>
          if recorded {
            RecordAttempt(f, false);
          }
          return SqlFailed(i);
        case CommitsUnrecorded =>
          schema := sql(schema, f.content);
          return RecordFailed(i);
        case Commits =>
          schema := sql(schema, f.content);
          RecordAttempt(f, true);
      }
      return Finished;
    }
  }

  // ---- Runs as a fold ---------------------------------------------------------------------------

  function Fold<S>(sql: (S, Sql) -> S, empty: S, files: seq<File>): S {
    if files == [] then empty else sql(Fold(sql, empty, files[..|files| - 1]), files[|files| - 1].content)
  }

  predicate DistinctVersions(files: seq<File>) {
    forall i, j :: 0 <= i < j < |files| ==> files[i].version != files[j].version
  }

  /** The recorded successes are exactly these files, and the schema is their fold in order, each once. */
  ghost predicate Recorded<S>(sql: (S, Sql) -> S, empty: S, db: Db<S>, applied: seq<File>) {
    && DistinctVersions(applied)
    && db.schema == Fold(sql, empty, applied)
    && (forall i :: 0 <= i < |applied| ==>
          applied[i].version in db.records && db.records[applied[i].version] == Record(applied[i].content, true))
    && (forall v :: v in db.records && db.records[v].success ==> Listed(applied, v))
  }

  predicate Listed(files: seq<File>, v: Version) {
    exists i :: 0 <= i < |files| && files[i].version == v
  }

  /** The first attempt from `i` on that does not commit. */
  function FirstStop(attempts: seq<Attempt>, i: nat): (stop: nat)
    requires i <= |attempts|
    ensures i <= stop <= |attempts| && (forall k :: i <= k < stop ==> attempts[k] == Commits)
    ensures stop < |attempts| ==> attempts[stop] != Commits
    decreases |attempts| - i
  {
    if i < |attempts| && attempts[i] == Commits then FirstStop(attempts, i + 1) else i
  }

  /** A run's files start with those applied before and have distinct prefixes. */
  predicate Grown(applied: seq<File>, run: Run) {
    applied <= run.files && DistinctVersions(run.files) && |run.attempts| == |run.files|
  }

  /** What stops the run, if anything, is not a commit whose record failed. */
  predicate StopsRecorded(applied: seq<File>, run: Run)
    requires Grown(applied, run)
  {
    var stop := FirstStop(run.attempts, |applied|);
    stop < |run.attempts| ==> run.attempts[stop] != CommitsUnrecorded
  }

  predicate Proper(applied: seq<File>, run: Run) {
    Grown(applied, run) && (run.lockFree ==> StopsRecorded(applied, run))
  }

  lemma CommitRecords<S>(sql: (S, Sql) -> S, empty: S, db: Db<S>, applied: seq<File>, f: File)
    requires Recorded(sql, empty, db, applied) && !Listed(applied, f.version)
    ensures Recorded(sql, empty, Committed(sql, db, f), applied + [f])
  {
    var after := applied + [f];
    assert after[..|applied|] == applied;
    forall v | v in Committed(sql, db, f).records && Committed(sql, db, f).records[v].success ensures Listed(after, v) {
      if v == f.version {
        assert after[|applied|].version == v;
      } else {
        assert Listed(applied, v);
        var i :| 0 <= i < |applied| && applied[i].version == v;
        assert after[i].version == v;
      }
    }
  }

  /** From file `i` on, when those before it are applied and the others are new, commits extend what is applied. */
  lemma {:induction false} CommitsUpTo<S>(
    sql: (S, Sql) -> S, empty: S, db: Db<S>, files: seq<File>, attempts: seq<Attempt>, checksums: map<Version, Sql>,
    i: nat, n: nat) returns (after: Db<S>)
    requires DistinctVersions(files) && |attempts| == |files| && i <= n <= |files|
    requires forall k :: i <= k < n ==> files[k].version !in checksums && attempts[k] == Commits
    requires Recorded(sql, empty, db, files[..i])
    ensures Recorded(sql, empty, after, files[..n])
    ensures RunFrom(sql, db, files, attempts, checksums, i) == RunFrom(sql, after, files, attempts, checksums, n)
    decreases n - i
  {
    after := db;
    if i < n {
      NotListedBefore(files[..i], files, i);
      CommitRecords(sql, empty, db, files[..i], files[i]);
      assert files[..i] + [files[i]] == files[..i + 1];
      after := CommitsUpTo(sql, empty, Committed(sql, db, files[i]), files, attempts, checksums, i + 1, n);
    }
  }

  lemma FailureKeeps<S>(sql: (S, Sql) -> S, empty: S, db: Db<S>, applied: seq<File>, f: File)
    requires Recorded(sql, empty, db, applied) && !Listed(applied, f.version)
    ensures Recorded(sql, empty, db.(records := db.records[f.version := Record(f.content, false)]), applied)
  {
  }

  lemma NotListedBefore(short: seq<File>, files: seq<File>, i: nat)
    requires DistinctVersions(files) && short <= files && |short| <= i < |files|
    ensures !Listed(short, files[i].version)
  {
    forall k | 0 <= k < |short| ensures short[k].version != files[i].version {
      assert short[k] == files[k];
    }
  }

  lemma ChecksumsOfRecorded<S>(sql: (S, Sql) -> S, empty: S, db: Db<S>, applied: seq<File>)
    requires Recorded(sql, empty, db, applied)
    ensures var checksums := Checksums(db.records);
            && (forall k :: 0 <= k < |applied| ==>
                  applied[k].version in checksums && checksums[applied[k].version] == applied[k].content)
            && (forall v :: v in checksums ==> Listed(applied, v))
  {
  }

  function AppliedAfter(applied: seq<File>, run: Run, outcome: Outcome): seq<File> {
    match outcome
    case Finished => run.files
    case SqlFailed(file) => if file <= |run.files| then run.files[..file] else applied
    case _ => applied
  }

  /** A run that gets the lock skips what is applied and commits up to its first attempt that does not. */
  lemma RunReaches<S>(sql: (S, Sql) -> S, empty: S, db: Db<S>, applied: seq<File>, run: Run) returns (reached: Db<S>)
    requires Recorded(sql, empty, db, applied) && Grown(applied, run) && run.lockFree
    ensures var stop := FirstStop(run.attempts, |applied|);
            && Recorded(sql, empty, reached, run.files[..stop])
            && (stop < |run.files| ==> run.files[stop].version !in Checksums(db.records))
            && RunMigrations(sql, db, run)
               == RunFrom(sql, reached, run.files, run.attempts, Checksums(db.records), stop)
  {
    var files, checksums, stop := run.files, Checksums(db.records), FirstStop(run.attempts, |applied|);
    ChecksumsOfRecorded(sql, empty, db, applied);
    SkipsApplied(sql, db, files, run.attempts, checksums, 0, |applied|);
    forall k | |applied| <= k < |files| ensures files[k].version !in checksums {
      NotListedBefore(applied, files, k);
    }
    assert files[..|applied|] == applied;
    reached := CommitsUpTo(sql, empty, db, files, run.attempts, checksums, |applied|, stop);
  }

  /** One run, whatever fails in it, extends the applied prefix and stops at the failing file. */
  lemma RunKeeps<S>(sql: (S, Sql) -> S, empty: S, db: Db<S>, applied: seq<File>, run: Run)
    requires Recorded(sql, empty, db, applied) && Proper(applied, run)
    ensures var (after, outcome) := RunMigrations(sql, db, run);
            var applied' := AppliedAfter(applied, run, outcome);
            && Recorded(sql, empty, after, applied')
            && applied <= applied' <= run.files
            && (outcome.Finished? ==> applied' == run.files)
  {
    if run.lockFree {
      var reached := RunReaches(sql, empty, db, applied, run);
      var stop := FirstStop(run.attempts, |applied|);
      if stop == |run.files| {
        assert run.files[..stop] == run.files;
      } else {
        NotListedBefore(run.files[..stop], run.files, stop);
        FailureKeeps(sql, empty, reached, run.files[..stop], run.files[stop]);
      }
    }
  }

  /** The first file that fails is the one named, and its failure is on record if it could be written. */
  lemma FailureIsNamed<S>(sql: (S, Sql) -> S, empty: S, db: Db<S>, applied: seq<File>, run: Run)
    requires Recorded(sql, empty, db, applied) && Grown(applied, run) && run.lockFree
    ensures var (after, outcome) := RunMigrations(sql, db, run);
            var stop := FirstStop(run.attempts, |applied|);
            if stop == |run.files| then outcome == Finished
            else
              && (run.attempts[stop].Fails? ==> outcome == SqlFailed(stop))
              && (run.attempts[stop] == CommitsUnrecorded ==> outcome == RecordFailed(stop))
              && (run.attempts[stop] == Fails(true) ==>
                    && run.files[stop].version in after.records
                    && after.records[run.files[stop].version] == Record(run.files[stop].content, false))
  {
    var reached := RunReaches(sql, empty, db, applied, run);
  }

  /** The database and the files applied after these runs. */
  function History<S>(sql: (S, Sql) -> S, empty: S, runs: seq<Run>): (Db<S>, seq<File>) {
    if runs == [] then (Db(empty, map[]), [])
    else
      var (db, applied) := History(sql, empty, runs[..|runs| - 1]);
      var run := runs[|runs| - 1];
      if |run.attempts| != |run.files| then (db, applied)
      else
        var (after, outcome) := RunMigrations(sql, db, run);
        (after, AppliedAfter(applied, run, outcome))
  }

  /** Every list starts with the files applied by the runs before it: it only grew, and those were not edited. */
  ghost predicate ProperRuns<S(!new)>(sql: (S, Sql) -> S, empty: S, runs: seq<Run>) {
    forall n :: 0 <= n < |runs| ==> Proper(History(sql, empty, runs[..n]).1, runs[n])
  }

  /**
   After any sequence of successful, failing and retried runs, the recorded successes are a prefix of the last list,
   and the schema is the fold of their contents in order, each once.
   */
  lemma {:induction false} RunsAreAFold<S(!new)>(sql: (S, Sql) -> S, empty: S, runs: seq<Run>)
    requires ProperRuns(sql, empty, runs)
    ensures var (db, applied) := History(sql, empty, runs);
            Recorded(sql, empty, db, applied) && (runs != [] ==> applied <= runs[|runs| - 1].files)
  {
    if runs != [] {
      var front := runs[..|runs| - 1];
      assert forall n :: 0 <= n < |front| ==> front[..n] == runs[..n];
      RunsAreAFold(sql, empty, front);
      var (db, applied) := History(sql, empty, front);
      assert Proper(applied, runs[|runs| - 1]);
      RunKeeps(sql, empty, db, applied, runs[|runs| - 1]);
    }
  }

  lemma {:induction false} SkipsApplied<S>(
    sql: (S, Sql) -> S, db: Db<S>, files: seq<File>, attempts: seq<Attempt>, checksums: map<Version, Sql>,
    i: nat, n: nat)
    requires |attempts| == |files| && i <= n <= |files|
    requires forall k :: i <= k < n ==> files[k].version in checksums && checksums[files[k].version] == files[k].content
    ensures RunFrom(sql, db, files, attempts, checksums, i) == RunFrom(sql, db, files, attempts, checksums, n)
    decreases n - i
  {
    if i < n {
      SkipsApplied(sql, db, files, attempts, checksums, i + 1, n);
    }
  }

  /** Running a fully applied list again changes nothing, whatever would happen to its attempts. */
  lemma RerunChangesNothing<S>(sql: (S, Sql) -> S, empty: S, db: Db<S>, run: Run)
    requires Recorded(sql, empty, db, run.files) && |run.attempts| == |run.files| && run.lockFree
    ensures RunMigrations(sql, db, run) == (db, Finished)
  {
    ChecksumsOfRecorded(sql, empty, db, run.files);
    SkipsApplied(sql, db, run.files, run.attempts, Checksums(db.records), 0, |run.files|);
  }

  /** When the first edited file is one already applied, the run stops there and applies nothing at all. */
  lemma EditedFileStops<S>(sql: (S, Sql) -> S, empty: S, db: Db<S>, applied: seq<File>, run: Run, edited: nat)
    requires Recorded(sql, empty, db, applied) && |run.attempts| == |run.files| && run.lockFree
    requires edited < |applied| && edited < |run.files| && run.files[..edited] == applied[..edited]
    requires run.files[edited].version == applied[edited].version
    requires run.files[edited].content != applied[edited].content
    ensures RunMigrations(sql, db, run) == (db, ChecksumMismatch(edited))
  {
    ChecksumsOfRecorded(sql, empty, db, applied);
    forall k | 0 <= k < edited ensures run.files[k] == applied[k] {
      assert run.files[..edited][k] == applied[..edited][k];
    }
    SkipsApplied(sql, db, run.files, run.attempts, Checksums(db.records), 0, edited);
  }

  // ---- Each once, exactly -------------------------------------------------------------------------

  /** The recorded successes are exactly these files, whatever was executed. */
  ghost predicate SuccessesAre<S>(sql: (S, Sql) -> S, empty: S, db: Db<S>, files: seq<File>) {
    Recorded(sql, empty, db.(schema := Fold(sql, empty, files)), files)
  }

  /** File `f` was executed after these files, and is not among the recorded successes. */
  ghost predicate ExecutedUnrecorded<S>(sql: (S, Sql) -> S, empty: S, db: Db<S>, before: seq<File>, f: File) {
    db.schema == sql(Fold(sql, empty, before), f.content) && SuccessesAre(sql, empty, db, before)
  }

  /** When the first attempt that does not commit is a commit whose record fails, its file is executed unrecorded. */
  lemma CommitUnrecorded<S>(sql: (S, Sql) -> S, empty: S, db: Db<S>, applied: seq<File>, run: Run)
    requires Recorded(sql, empty, db, applied) && Grown(applied, run) && run.lockFree
    requires !StopsRecorded(applied, run)
    ensures var stop := FirstStop(run.attempts, |applied|);
            var (once, outcome) := RunMigrations(sql, db, run);
            && outcome == RecordFailed(stop)
            && ExecutedUnrecorded(sql, empty, once, run.files[..stop], run.files[stop])
  {
    var reached := RunReaches(sql, empty, db, applied, run);
  }

  /** The next run whose attempt on the first unrecorded file commits executes that file, and goes on with new files. */
  lemma ExecutesFirstUnrecorded<S>(sql: (S, Sql) -> S, empty: S, db: Db<S>, before: seq<File>, next: Run)
    requires SuccessesAre(sql, empty, db, before) && Grown(before, next) && next.lockFree
    requires |before| < |next.files| && next.attempts[|before|] == Commits
    ensures var f := next.files[|before|];
            RunMigrations(sql, db, next)
            == RunFrom(sql, Committed(sql, db, f), next.files, next.attempts, Checksums(db.records), |before| + 1)
    ensures forall k :: |before| <= k < |next.files| ==> next.files[k].version !in Checksums(db.records)
  {
    var checksums := Checksums(db.records);
    ChecksumsOfRecorded(sql, empty, db.(schema := Fold(sql, empty, before)), before);
    SkipsApplied(sql, db, next.files, next.attempts, checksums, 0, |before|);
    forall k | |before| <= k < |next.files| ensures next.files[k].version !in checksums {
      NotListedBefore(before, next.files, k);
    }
  }

  /**
   The next run whose attempt on a file executed unrecorded commits executes it a second time, on the schema that
   already has it.
   */
  lemma UnrecordedRunsTwice<S>(sql: (S, Sql) -> S, empty: S, db: Db<S>, before: seq<File>, f: File, next: Run)
    requires ExecutedUnrecorded(sql, empty, db, before, f)
    requires Grown(before, next) && next.lockFree && |before| < |next.files|
    requires next.files[|before|] == f && next.attempts[|before|] == Commits
    ensures var twice := Committed(sql, db, f);
            && twice.schema == sql(sql(Fold(sql, empty, before), f.content), f.content)
            && RunMigrations(sql, db, next)
               == RunFrom(sql, twice, next.files, next.attempts, Checksums(db.records), |before| + 1)
  {
    ExecutesFirstUnrecorded(sql, empty, db, before, next);
  }

  /** The schema as the list of the contents executed on it. */
  function Executed(schema: seq<Sql>, content: Sql): seq<Sql> {
    schema + [content]
  }

  lemma {:induction false} ExecutedOnceEach(files: seq<File>)
    ensures |Fold(Executed, [], files)| == |files|
  {
    if files != [] {
      ExecutedOnceEach(files[..|files| - 1]);
    }
  }

  /** New files that all commit are each executed. */
  lemma {:induction false} AllExecuted(
    db: Db<seq<Sql>>, files: seq<File>, attempts: seq<Attempt>, checksums: map<Version, Sql>, i: nat)
    requires |attempts| == |files| && i <= |files|
    requires forall k :: i <= k < |files| ==> files[k].version !in checksums && attempts[k] == Commits
    ensures |RunFrom(Executed, db, files, attempts, checksums, i).0.schema| == |db.schema| + |files| - i
    decreases |files| - i
  {
    if i < |files| {
      AllExecuted(Committed(Executed, db, files[i]), files, attempts, checksums, i + 1);
    }
  }

  function AllCommit(files: seq<File>): Run {
    Run(files, seq(|files|, _ => Commits), true)
  }

  /** After `run` and a run of the same list in which nothing fails, its files are executed each once, in order. */
  predicate EachOnce(db: Db<seq<Sql>>, run: Run)
    requires |run.attempts| == |run.files|
  {
    RunMigrations(Executed, RunMigrations(Executed, db, run).0, AllCommit(run.files)).0.schema
    == Fold(Executed, [], run.files)
  }

  lemma RetryCompletes(db: Db<seq<Sql>>, applied: seq<File>, files: seq<File>)
    requires Recorded(Executed, [], db, applied) && applied <= files && DistinctVersions(files)
    ensures RunMigrations(Executed, db, AllCommit(files)).0.schema == Fold(Executed, [], files)
  {
    var reached := RunReaches(Executed, [], db, applied, AllCommit(files));
    assert FirstStop(AllCommit(files).attempts, |applied|) == |files|;
    assert files[..|files|] == files;
  }

  /** One execution more than there are files. */
  lemma RetryRepeats(db: Db<seq<Sql>>, before: seq<File>, files: seq<File>)
    requires SuccessesAre(Executed, [], db, before) && before <= files && DistinctVersions(files)
    requires |before| < |files| && |db.schema| == |before| + 1
    ensures |RunMigrations(Executed, db, AllCommit(files)).0.schema| == |files| + 1
  {
    var next := AllCommit(files);
    ExecutesFirstUnrecorded(Executed, [], db, before, next);
    AllExecuted(Committed(Executed, db, files[|before|]), files, next.attempts, Checksums(db.records), |before| + 1);
  }

  /**
   From every recorded state: retrying after the run executes each file exactly once, if and only if the run did not
   stop at a commit whose record failed.
   */
  lemma EachOnceIffStopsRecorded(db: Db<seq<Sql>>, applied: seq<File>, run: Run)
    requires Recorded(Executed, [], db, applied) && Grown(applied, run) && run.lockFree
    ensures EachOnce(db, run) <==> StopsRecorded(applied, run)
  {
    var (once, outcome) := RunMigrations(Executed, db, run);
    if StopsRecorded(applied, run) {
      RunKeeps(Executed, [], db, applied, run);
      RetryCompletes(once, AppliedAfter(applied, run, outcome), run.files);
    } else {
      var before := run.files[..FirstStop(run.attempts, |applied|)];
      CommitUnrecorded(Executed, [], db, applied, run);
      ExecutedOnceEach(before);
      ExecutedOnceEach(run.files);
      RetryRepeats(once, before, run.files);
    }
  }
}
