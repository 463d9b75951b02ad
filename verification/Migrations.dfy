/** The migration runner: every replica runs `Up` at start-up, each checks a file, then applies
    and records it in one transaction. `files` is the sorted list of the embedded up-migrations;
    a schema is whatever the statements of a file act on. */
module Migrations {
  import opened OrderModel

  /** `sql(file, schema)` is the schema after the file's statements, if they succeed. */
  datatype Plan<!S> = Plan(files: seq<string>, sql: (string, S) -> Option<S>, empty: S)

  ghost predicate Distinct(files: seq<string>) {
    forall i, j :: 0 <= i < j < |files| ==> files[i] != files[j]
  }

  /** The schema after the first `n` files, each applied once and in order. */
  function Fold<S>(plan: Plan<S>, n: nat): Option<S>
    requires n <= |plan.files|
  {
    if n == 0 then Some(plan.empty)
    else match Fold(plan, n - 1)
      case None => None
      case Some(schema) => plan.sql(plan.files[n - 1], schema)
  }

  // ---------------------------------------------------------------- any number of runners

  /** Where a runner stands; `schema` in a transaction is its own uncommitted copy. */
  datatype Runner<S> =
    | Ensuring                       // before CREATE TABLE IF NOT EXISTS
    | AtFile(i: nat)                 // before the SELECT COUNT(*) for file i
    | Opening(i: nat)                // found no record of file i, before BEGIN and the file's SQL
    | Ran(i: nat, schema: S)         // before the INSERT of the record
    | Recorded(i: nat, schema: S)    // before the COMMIT
    | Finished(ok: bool)

  /** `log` is history: the files whose SQL has been committed, in that order. */
  datatype Cluster<S> = Cluster(applied: set<string>, schema: S, runners: map<nat, Runner<S>>, log: seq<string>)

  datatype Step =
    | Launch(r: nat)
    | Ensure(r: nat, ok: bool)
    | Check(r: nat, ok: bool)
    | RunSql(r: nat, ok: bool)
    | Record(r: nat, ok: bool)
    | CommitTx(r: nat, outcome: Outcome)
    | Die(r: nat)

  function Start<S>(plan: Plan<S>): Cluster<S> {
    Cluster({}, plan.empty, map[], [])
  }

  /** The loop's next round, or its end. */
  function Next<S>(plan: Plan<S>, i: nat): Runner<S> {
    if i < |plan.files| then AtFile(i) else Finished(true)
  }

  /** Another transaction has inserted the same record and not ended: the INSERT waits. */
  ghost predicate Blocked<S>(s: Cluster<S>, r: nat, i: nat) {
    exists q :: q in s.runners && q != r && s.runners[q].Recorded? && s.runners[q].i == i
  }

  /** A transaction whose COMMIT takes effect. */
  predicate Publishes<S>(plan: Plan<S>, s: Cluster<S>, a: Step) {
    a.CommitTx? && a.r in s.runners && s.runners[a.r].Recorded? && s.runners[a.r].i < |plan.files|
    && !a.outcome.NotApplied?
  }

  ghost function NextRunner<S>(plan: Plan<S>, s: Cluster<S>, a: Step, k: Runner<S>): Runner<S> {
    if a.Ensure? && k.Ensuring? then (if a.ok then Next(plan, 0) else Finished(false))
    else if a.Check? && k.AtFile? && k.i < |plan.files| then
      if !a.ok then Finished(false)
      else if plan.files[k.i] in s.applied then Next(plan, k.i + 1)
      else Opening(k.i)
    else if a.RunSql? && k.Opening? && k.i < |plan.files| then
      var after := plan.sql(plan.files[k.i], s.schema);
      if a.ok && after.Some? then Ran(k.i, after.value) else Finished(false)
    else if a.Record? && k.Ran? && k.i < |plan.files| then
      if Blocked(s, a.r, k.i) then k
      else if a.ok && plan.files[k.i] !in s.applied then Recorded(k.i, k.schema)
      else Finished(false)
    else if a.CommitTx? && k.Recorded? then
      if a.outcome.Applied? then Next(plan, k.i + 1) else Finished(false)
    else k
  }

  ghost function Do<S>(plan: Plan<S>, s: Cluster<S>, a: Step): Cluster<S> {
    var runners :=
      if a.Launch? then (if a.r in s.runners then s.runners else s.runners[a.r := Ensuring])
      else if a.Die? then s.runners - {a.r}
      else if a.r in s.runners then s.runners[a.r := NextRunner(plan, s, a, s.runners[a.r])]
      else s.runners;
    if Publishes(plan, s, a) then
      var k := s.runners[a.r];
      Cluster(s.applied + {plan.files[k.i]}, k.schema, runners, s.log + [plan.files[k.i]])
    else s.(runners := runners)
  }

  ghost function Run<S>(plan: Plan<S>, s: Cluster<S>, steps: seq<Step>): Cluster<S>
    decreases |steps|
  {
    if steps == [] then s else Run(plan, Do(plan, s, steps[0]), steps[1..])
  }

  /** Exactly the first |log| files have been applied, each once and in order. */
  ghost predicate PrefixOk<S>(plan: Plan<S>, s: Cluster<S>) {
    && |s.log| <= |plan.files|
    && s.log == plan.files[..|s.log|]
    && s.applied == (set f | f in s.log)
    && Fold(plan, |s.log|) == Some(s.schema)
  }

  /** A runner never gets ahead of the applied prefix. The uncommitted copy of one whose file is
      still next is what the file makes of the present schema. */
  ghost predicate RunnerOk<S>(plan: Plan<S>, s: Cluster<S>, r: nat) {
    r in s.runners ==>
      var k := s.runners[r];
      match k
      case Ensuring => true
      case AtFile(i) => i <= |s.log| && i < |plan.files|
      case Opening(i) => i <= |s.log| && i < |plan.files|
      case Ran(i, schema) =>
        && i <= |s.log| && i < |plan.files|
        && (i == |s.log| ==> plan.sql(plan.files[i], s.schema) == Some(schema))
      case Recorded(i, schema) =>
        && i == |s.log| < |plan.files|
        && plan.sql(plan.files[i], s.schema) == Some(schema)
        && !Blocked(s, r, i)
      case Finished(ok) => ok ==> |s.log| == |plan.files|
  }

  ghost predicate ClusterOk<S>(plan: Plan<S>, s: Cluster<S>) {
    PrefixOk(plan, s) && forall r :: RunnerOk(plan, s, r)
  }

  lemma InPrefix<S>(plan: Plan<S>, s: Cluster<S>, i: nat)
    requires Distinct(plan.files) && PrefixOk(plan, s) && i < |plan.files|
    ensures plan.files[i] in s.applied <==> i < |s.log|
  {
    if i < |s.log| { assert s.log[i] == plan.files[i]; }
  }

  lemma PublishKeepsPrefix<S>(plan: Plan<S>, s: Cluster<S>, a: Step)
    requires Distinct(plan.files) && ClusterOk(plan, s)
    ensures PrefixOk(plan, Do(plan, s, a))
  {
    var s' := Do(plan, s, a);
    if Publishes(plan, s, a) {
      assert RunnerOk(plan, s, a.r);
      assert s'.log == plan.files[..|s'.log|];
    }
  }

  /** Two transactions never hold the same record at once. */
  lemma PublishLeavesNoneRecorded<S>(plan: Plan<S>, s: Cluster<S>, a: Step, r: nat)
    requires ClusterOk(plan, s) && Publishes(plan, s, a) && r in s.runners && r != a.r
    ensures !s.runners[r].Recorded?
  {
    assert RunnerOk(plan, s, r) && RunnerOk(plan, s, a.r);
  }

  lemma StillUnblocked<S>(plan: Plan<S>, s: Cluster<S>, a: Step, r: nat)
    requires ClusterOk(plan, s) && r in Do(plan, s, a).runners && Do(plan, s, a).runners[r].Recorded?
    requires r in s.runners && !Publishes(plan, s, a)
    ensures !Blocked(Do(plan, s, a), r, Do(plan, s, a).runners[r].i)
  {
    var s' := Do(plan, s, a);
    var i := s'.runners[r].i;
    assert RunnerOk(plan, s, r);
    forall q | q in s'.runners && q != r && s'.runners[q].Recorded? ensures s'.runners[q].i != i {
      assert q in s.runners && RunnerOk(plan, s, q);
    }
  }

  lemma RunnersAfter<S>(plan: Plan<S>, s: Cluster<S>, a: Step, r: nat)
    requires Distinct(plan.files) && ClusterOk(plan, s) && PrefixOk(plan, Do(plan, s, a))
    ensures RunnerOk(plan, Do(plan, s, a), r)
  {
    var s' := Do(plan, s, a);
    if r in s'.runners && r in s.runners {
      var k := s.runners[r];
      assert RunnerOk(plan, s, r);
      if k.AtFile? || k.Ran? { InPrefix(plan, s, k.i); }
      if Publishes(plan, s, a) {
        assert RunnerOk(plan, s, a.r);
        if r != a.r { PublishLeavesNoneRecorded(plan, s, a, r); }
      } else if s'.runners[r].Recorded? {
        StillUnblocked(plan, s, a, r);
      }
    }
  }

  lemma {:induction false} RunKeepsOk<S>(plan: Plan<S>, s: Cluster<S>, steps: seq<Step>)
    requires Distinct(plan.files) && ClusterOk(plan, s)
    ensures ClusterOk(plan, Run(plan, s, steps))
    decreases |steps|
  {
    if steps != [] {
      PublishKeepsPrefix(plan, s, steps[0]);
      forall r ensures RunnerOk(plan, Do(plan, s, steps[0]), r) { RunnersAfter(plan, s, steps[0], r); }
      RunKeepsOk(plan, Do(plan, s, steps[0]), steps[1..]);
    }
  }

  /** For any number of concurrent runs of `Up`, with failures and deaths anywhere: what has been
      applied is a prefix of the file list, the SQL of each file was committed once and in order,
      the schema is what that prefix makes of the empty one, and no runner is ahead of it. */
  lemma AppliedIsAPrefix<S>(plan: Plan<S>, steps: seq<Step>)
    requires Distinct(plan.files)
    ensures var s := Run(plan, Start(plan), steps);
      && |s.log| <= |plan.files| && s.log == plan.files[..|s.log|] && Distinct(s.log)
      && s.applied == (set f | f in s.log)
      && Fold(plan, |s.log|) == Some(s.schema)
      && forall r :: r in s.runners && !s.runners[r].Ensuring? && !s.runners[r].Finished? ==>
           s.runners[r].i <= |s.log|
  {
    assert plan.files[..0] == [];
    RunKeepsOk(plan, Start(plan), steps);
    var s := Run(plan, Start(plan), steps);
    forall r | r in s.runners && !s.runners[r].Ensuring? && !s.runners[r].Finished?
      ensures s.runners[r].i <= |s.log|
    {
      assert RunnerOk(plan, s, r);
    }
  }

  /** All files applied: the only record table and schema a clean run can end with. */
  ghost predicate Complete<S>(plan: Plan<S>, s: Cluster<S>) {
    s.applied == (set f | f in plan.files) && Fold(plan, |plan.files|) == Some(s.schema)
  }

  /** Once a single `Up` has returned without an error, whatever the others did before and do
      after, the record table and the schema are complete and stay as they are. */
  lemma SuccessMeansComplete<S>(plan: Plan<S>, steps: seq<Step>, r: nat, more: seq<Step>)
    requires Distinct(plan.files)
    requires var s := Run(plan, Start(plan), steps); r in s.runners && s.runners[r] == Finished(true)
    ensures var s := Run(plan, Start(plan), steps);
      && Complete(plan, s) && Complete(plan, Run(plan, s, more)) && Run(plan, s, more).log == s.log
  {
    assert plan.files[..0] == [];
    var s := Run(plan, Start(plan), steps);
    RunKeepsOk(plan, Start(plan), steps);
    assert RunnerOk(plan, s, r);
    CompleteStays(plan, s, more);
    assert plan.files[..|plan.files|] == plan.files;
  }

  lemma {:induction false} CompleteStays<S>(plan: Plan<S>, s: Cluster<S>, steps: seq<Step>)
    requires Distinct(plan.files) && ClusterOk(plan, s) && |s.log| == |plan.files|
    ensures var s' := Run(plan, s, steps);
            s'.applied == s.applied && s'.schema == s.schema && s'.log == s.log
    decreases |steps|
  {
    if steps != [] {
      var s1 := Do(plan, s, steps[0]);
      assert RunnerOk(plan, s, steps[0].r);
      PublishKeepsPrefix(plan, s, steps[0]);
      forall r ensures RunnerOk(plan, s1, r) { RunnersAfter(plan, s, steps[0], r); }
      CompleteStays(plan, s1, steps[1..]);
    }
  }

  // ---------------------------------------------------------------- one runner

  /** What goes wrong with one file in one call. */
  datatype Fault = NoFault | CheckFails | SqlFails | RecordFails | CommitFails | CommitReplyLost

  /** Where a call of `Up` that is alone leaves the applied prefix, and whether it succeeds. */
  function UpFrom<S>(plan: Plan<S>, n: nat, i: nat, faults: seq<Fault>): (nat, bool)
    requires i <= n <= |plan.files| == |faults|
    decreases |plan.files| - i
  {
    if i == |plan.files| then (n, true)
    else if faults[i] == CheckFails then (n, false)
    else if i < n then UpFrom(plan, n, i + 1, faults)
    else if Fold(plan, i + 1).None? || faults[i] in {SqlFails, RecordFails, CommitFails} then (n, false)
    else if faults[i] == CommitReplyLost then (n + 1, false)
    else UpFrom(plan, n + 1, i + 1, faults)
  }

  class MigrationDatabase<!S> {
    var applied: set<string>
    var schema: S

    constructor (empty: S)
      ensures applied == {} && schema == empty
    {
      applied, schema := {}, empty;
    }

    ghost predicate HasPrefix(plan: Plan<S>, n: nat)
      reads this
    {
      && n <= |plan.files|
      && applied == (set f | f in plan.files[..n])
      && Fold(plan, n) == Some(schema)
    }

    /** `ensureOk` is whether CREATE TABLE IF NOT EXISTS succeeds. */
    method Up(plan: Plan<S>, ghost n: nat, ensureOk: bool, faults: seq<Fault>) returns (ok: bool, ghost m: nat)
      requires Distinct(plan.files) && |faults| == |plan.files| && HasPrefix(plan, n)
      modifies this
      ensures HasPrefix(plan, m)
      ensures (m, ok) == if ensureOk then UpFrom(plan, n, 0, faults) else (n, false)
    {
      m := n;
      if !ensureOk { return false, n; }
      for i := 0 to |plan.files|
        invariant i <= m && HasPrefix(plan, m)
        invariant UpFrom(plan, n, 0, faults) == UpFrom(plan, m, i, faults)
      {
        var file := plan.files[i];
        if faults[i] == CheckFails { return false, m; }
        assert file in applied <==> i < m by {
          if i < m { assert plan.files[..m][i] == file; }
        }
        if file in applied { continue; }
        if faults[i] == SqlFails { return false, m; }
        var after := plan.sql(file, schema);
        assert after == Fold(plan, i + 1);
        if after.None? { return false, m; }
        if faults[i] == RecordFails || faults[i] == CommitFails { return false, m; }
        assert plan.files[..m + 1] == plan.files[..m] + [file];
        applied, schema, m := applied + {file}, after.value, m + 1;
        if faults[i] == CommitReplyLost { return false, m; }
      }
      ok := true;
    }
  }

  lemma {:induction false} UpAdvances<S>(plan: Plan<S>, n: nat, i: nat, faults: seq<Fault>)
    requires i <= n <= |plan.files| == |faults|
    ensures n <= UpFrom(plan, n, i, faults).0 <= |plan.files|
    ensures UpFrom(plan, n, i, faults).1 ==> UpFrom(plan, n, i, faults).0 == |plan.files|
    decreases |plan.files| - i
  {
    if i < n {
      UpAdvances(plan, n, i + 1, faults);
    } else if i < |plan.files| {
      UpAdvances(plan, n + 1, i + 1, faults);
    }
  }

  /** The prefix after a series of calls, each with its own failures. */
  function UpMany<S>(plan: Plan<S>, n: nat, calls: seq<seq<Fault>>): (m: nat)
    requires n <= |plan.files| && forall c :: c in calls ==> |c| == |plan.files|
    ensures n <= m <= |plan.files|
    decreases |calls|
  {
    if calls == [] then n
    else
      UpAdvances(plan, n, 0, calls[0]);
      UpMany(plan, UpFrom(plan, n, 0, calls[0]).0, calls[1..])
  }

  /** However many calls failed before and wherever, one success leaves all files applied, as a
      single clean run does, and one more call changes nothing. */
  lemma RetriesConverge<S>(plan: Plan<S>, failed: seq<seq<Fault>>, last: seq<Fault>, again: seq<Fault>)
    requires |last| == |again| == |plan.files| && forall c :: c in failed ==> |c| == |plan.files|
    requires UpFrom(plan, UpMany(plan, 0, failed), 0, last).1
    ensures var n := UpFrom(plan, UpMany(plan, 0, failed), 0, last).0;
            n == |plan.files| && UpFrom(plan, n, 0, again).0 == n
  {
    var n := UpMany(plan, 0, failed);
    UpAdvances(plan, n, 0, last);
    UpAdvances(plan, |plan.files|, 0, again);
  }

  /** A clean run succeeds exactly when every file's SQL does, whatever was applied before. */
  lemma {:induction false} CleanRunSucceeds<S>(plan: Plan<S>, n: nat, i: nat, faults: seq<Fault>)
    requires i <= n <= |plan.files| == |faults| && Fold(plan, n).Some?
    requires forall j :: 0 <= j < |faults| ==> faults[j] == NoFault
    ensures UpFrom(plan, n, i, faults).1 <==> Fold(plan, |plan.files|).Some?
    decreases |plan.files| - i
  {
    if i < n {
      CleanRunSucceeds(plan, n, i + 1, faults);
    } else if i < |plan.files| {
      if Fold(plan, i + 1).Some? {
        CleanRunSucceeds(plan, n + 1, i + 1, faults);
      } else {
        BrokenFileBreaksAll(plan, i + 1, |plan.files|);
      }
    }
  }

  lemma {:induction false} BrokenFileBreaksAll<S>(plan: Plan<S>, n: nat, m: nat)
    requires n <= m <= |plan.files| && Fold(plan, n).None?
    ensures Fold(plan, m).None?
    decreases m
  {
    if n < m { BrokenFileBreaksAll(plan, n, m - 1); }
  }

  // ---------------------------------------------------------------- one runner among others

  /** Nobody is about to commit a record that would make others wait. */
  ghost predicate NoneRecorded<S>(s: Cluster<S>) {
    forall q :: q in s.runners ==> !s.runners[q].Recorded?
  }

  function OutcomeOf(f: Fault): Outcome {
    if f == CommitFails then NotApplied else if f == CommitReplyLost then ReplyLost else Applied
  }

  /** The steps of one round of the loop; those that the round does not come to change nothing. */
  function FileSteps(r: nat, f: Fault): seq<Step> {
    [Check(r, f != CheckFails), RunSql(r, f != SqlFails), Record(r, f != RecordFails), CommitTx(r, OutcomeOf(f))]
  }

  function LoopSteps(r: nat, faults: seq<Fault>): seq<Step> {
    if faults == [] then [] else FileSteps(r, faults[0]) + LoopSteps(r, faults[1..])
  }

  /** One call of `Up` with nothing between its steps. */
  function UpSteps(r: nat, ensureOk: bool, faults: seq<Fault>): seq<Step> {
    [Launch(r), Ensure(r, ensureOk)] + LoopSteps(r, faults)
  }

  lemma {:induction false} RunSplits<S>(plan: Plan<S>, s: Cluster<S>, a: seq<Step>, b: seq<Step>)
    ensures Run(plan, s, a + b) == Run(plan, Run(plan, s, a), b)
    decreases |a|
  {
    if a == [] {
      assert a + b == b;
    } else {
      assert (a + b)[1..] == a[1..] + b;
      RunSplits(plan, Do(plan, s, a[0]), a[1..], b);
    }
  }

  lemma RunIs<S>(plan: Plan<S>, s: Cluster<S>, a: Step, rest: seq<Step>)
    ensures Run(plan, s, [a] + rest) == Run(plan, Do(plan, s, a), rest)
  {
    assert ([a] + rest)[1..] == rest;
  }

  lemma RunFour<S>(plan: Plan<S>, s: Cluster<S>, a: Step, b: Step, c: Step, d: Step)
    ensures Run(plan, s, [a, b, c, d]) == Do(plan, Do(plan, Do(plan, Do(plan, s, a), b), c), d)
  {
    var s1 := Do(plan, s, a);
    var s2 := Do(plan, s1, b);
    RunIs(plan, s, a, [b, c, d]);
    RunIs(plan, s1, b, [c, d]);
    RunIs(plan, s2, c, [d]);
    RunIs(plan, Do(plan, s2, c), d, []);
    assert [a] + [b, c, d] == [a, b, c, d] && [b] + [c, d] == [b, c, d] && [c] + [d] == [c, d] && [d] + [] == [d];
  }

  /** The runner has ended, and its steps change nothing any more. */
  lemma {:induction false} FinishedStays<S>(plan: Plan<S>, s: Cluster<S>, r: nat, faults: seq<Fault>)
    requires r in s.runners && s.runners[r].Finished?
    ensures Run(plan, s, LoopSteps(r, faults)) == s
    decreases |faults|
  {
    if faults != [] {
      var f := faults[0];
      RunFour(plan, s, Check(r, f != CheckFails), RunSql(r, f != SqlFails), Record(r, f != RecordFails),
              CommitTx(r, OutcomeOf(f)));
      assert s.runners[r := s.runners[r]] == s.runners;
      RunSplits(plan, s, FileSteps(r, f), LoopSteps(r, faults[1..]));
      FinishedStays(plan, s, r, faults[1..]);
    }
  }

  /** Where one round takes a runner that is alone: its next point, and the number of applied files. */
  function RoundOf<S>(plan: Plan<S>, n: nat, i: nat, f: Fault): (Runner<S>, nat)
    requires i <= n <= |plan.files| && i < |plan.files|
  {
    if f == CheckFails then (Finished(false), n)
    else if i < n then (Next(plan, i + 1), n)
    else if Fold(plan, i + 1).None? || f in {SqlFails, RecordFails, CommitFails} then (Finished(false), n)
    else if f == CommitReplyLost then (Finished(false), n + 1)
    else (Next(plan, i + 1), n + 1)
  }

  lemma CheckStep<S>(plan: Plan<S>, s: Cluster<S>, r: nat, i: nat, ok: bool)
    requires Distinct(plan.files) && PrefixOk(plan, s) && i <= |s.log| && i < |plan.files|
    requires r in s.runners && s.runners[r] == AtFile(i)
    ensures Do(plan, s, Check(r, ok)) == s.(runners := s.runners[r :=
              if !ok then Finished(false) else if i < |s.log| then Next(plan, i + 1) else Opening(i)])
  {
    InPrefix(plan, s, i);
  }

  /** BEGIN, the file's SQL, the record and the COMMIT. */
  lemma ApplySteps<S>(plan: Plan<S>, s: Cluster<S>, r: nat, i: nat, f: Fault)
    requires Distinct(plan.files) && PrefixOk(plan, s) && i == |s.log| < |plan.files| && NoneRecorded(s)
    requires r in s.runners && s.runners[r] == Opening(i) && f != CheckFails
    ensures var s' := Do(plan, Do(plan, Do(plan, s, RunSql(r, f != SqlFails)), Record(r, f != RecordFails)),
                         CommitTx(r, OutcomeOf(f)));
      var (k, m) := RoundOf(plan, i, i, f);
      && PrefixOk(plan, s') && |s'.log| == m && s'.runners == s.runners[r := k]
  {
    InPrefix(plan, s, i);
    var s1 := Do(plan, s, RunSql(r, f != SqlFails));
    assert !Blocked(s1, r, i);
    var s2 := Do(plan, s1, Record(r, f != RecordFails));
    var s3 := Do(plan, s2, CommitTx(r, OutcomeOf(f)));
    assert s3.runners == s.runners[r := RoundOf(plan, i, i, f).0];
    if s3.log != s.log { assert s3.log == plan.files[..i + 1]; }
  }

  lemma SkippedSteps<S>(plan: Plan<S>, s: Cluster<S>, r: nat, f: Fault)
    requires r in s.runners && (s.runners[r].AtFile? || s.runners[r].Finished?)
    ensures Do(plan, Do(plan, Do(plan, s, RunSql(r, f != SqlFails)), Record(r, f != RecordFails)),
               CommitTx(r, OutcomeOf(f))) == s
  {
    assert s.runners[r := s.runners[r]] == s.runners;
  }

  lemma FileIsARun<S>(plan: Plan<S>, s: Cluster<S>, r: nat, i: nat, f: Fault)
    requires Distinct(plan.files) && PrefixOk(plan, s) && NoneRecorded(s) && i <= |s.log| && i < |plan.files|
    requires r in s.runners && s.runners[r] == AtFile(i)
    ensures var s', (k, m) := Run(plan, s, FileSteps(r, f)), RoundOf(plan, |s.log|, i, f);
      PrefixOk(plan, s') && NoneRecorded(s') && |s'.log| == m && s'.runners == s.runners[r := k]
  {
    RunFour(plan, s, Check(r, f != CheckFails), RunSql(r, f != SqlFails), Record(r, f != RecordFails),
            CommitTx(r, OutcomeOf(f)));
    CheckStep(plan, s, r, i, f != CheckFails);
    var s1 := Do(plan, s, Check(r, f != CheckFails));
    if s1.runners[r].Opening? {
      ApplySteps(plan, s1, r, i, f);
    } else {
      SkippedSteps(plan, s1, r, f);
    }
  }

  lemma LoopSplits<S>(plan: Plan<S>, s: Cluster<S>, r: nat, i: nat, faults: seq<Fault>)
    requires i < |faults|
    ensures Run(plan, s, LoopSteps(r, faults[i..]))
         == Run(plan, Run(plan, s, FileSteps(r, faults[i])), LoopSteps(r, faults[i + 1..]))
  {
    assert faults[i..][0] == faults[i] && faults[i..][1..] == faults[i + 1..];
    RunSplits(plan, s, FileSteps(r, faults[i]), LoopSteps(r, faults[i + 1..]));
  }

  lemma UpFromRound<S>(plan: Plan<S>, n: nat, i: nat, faults: seq<Fault>)
    requires i <= n <= |plan.files| == |faults| && i < |plan.files|
    ensures var (k, m) := RoundOf(plan, n, i, faults[i]);
      && i <= m <= |plan.files| && (k == Finished(false) || (k == Next(plan, i + 1) && i < m))
      && UpFrom(plan, n, i, faults) == if k == Finished(false) then (m, false) else UpFrom(plan, m, i + 1, faults)
  {}

  lemma {:induction false} LoopIsARun<S>(plan: Plan<S>, s: Cluster<S>, r: nat, i: nat, faults: seq<Fault>)
    requires Distinct(plan.files) && PrefixOk(plan, s) && NoneRecorded(s) && |faults| == |plan.files|
    requires i <= |s.log| && r in s.runners && s.runners[r] == Next(plan, i)
    ensures var s' := Run(plan, s, LoopSteps(r, faults[i..]));
      && PrefixOk(plan, s') && r in s'.runners && s'.runners[r].Finished?
      && (|s'.log|, s'.runners[r].ok) == UpFrom(plan, |s.log|, i, faults)
      && s'.runners == s.runners[r := s'.runners[r]]
    decreases |faults| - i
  {
    if i == |faults| {
      assert faults[i..] == [];
    } else {
      var s1 := Run(plan, s, FileSteps(r, faults[i]));
      LoopSplits(plan, s, r, i, faults);
      FileIsARun(plan, s, r, i, faults[i]);
      UpFromRound(plan, |s.log|, i, faults);
      if s1.runners[r] == Finished(false) {
        FinishedStays(plan, s1, r, faults[i + 1..]);
      } else {
        LoopIsARun(plan, s1, r, i + 1, faults);
      }
    }
  }

  /** A call of `Up` with nothing between its steps is `UpFrom`, wherever the cluster stands: it ends,
      with the same number of applied files, and successfully in the same cases. */
  lemma UpIsARun<S>(plan: Plan<S>, s: Cluster<S>, r: nat, ensureOk: bool, faults: seq<Fault>)
    requires Distinct(plan.files) && PrefixOk(plan, s) && NoneRecorded(s)
    requires r !in s.runners && |faults| == |plan.files|
    ensures var s' := Run(plan, s, UpSteps(r, ensureOk, faults));
      && PrefixOk(plan, s') && r in s'.runners && s'.runners[r].Finished?
      && (|s'.log|, s'.runners[r].ok) == (if ensureOk then UpFrom(plan, |s.log|, 0, faults) else (|s.log|, false))
      && s'.runners == s.runners[r := s'.runners[r]]
  {
    var s1 := Do(plan, s, Launch(r));
    var s2 := Do(plan, s1, Ensure(r, ensureOk));
    var head := [Launch(r), Ensure(r, ensureOk)];
    RunSplits(plan, s, head, LoopSteps(r, faults));
    assert head[1..] == [Ensure(r, ensureOk)] && head[1..][1..] == [];
    assert Run(plan, s, head) == Run(plan, s1, head[1..]) == s2;
    assert faults[0..] == faults;
    if ensureOk { LoopIsARun(plan, s2, r, 0, faults); } else { FinishedStays(plan, s2, r, faults); }
  }

  /** Without failures such a call succeeds exactly when the SQL of all files does. */
  lemma CleanUpSucceeds<S>(plan: Plan<S>, s: Cluster<S>, r: nat, faults: seq<Fault>)
    requires Distinct(plan.files) && PrefixOk(plan, s) && NoneRecorded(s)
    requires r !in s.runners && |faults| == |plan.files|
    requires forall j :: 0 <= j < |faults| ==> faults[j] == NoFault
    ensures var s' := Run(plan, s, UpSteps(r, true, faults));
      && r in s'.runners && (s'.runners[r] == Finished(true) <==> Fold(plan, |plan.files|).Some?)
      && (s'.runners[r] == Finished(true) ==> Complete(plan, s'))
  {
    UpIsARun(plan, s, r, true, faults);
    CleanRunSucceeds(plan, |s.log|, 0, faults);
    UpAdvances(plan, |s.log|, 0, faults);
    assert plan.files[..|plan.files|] == plan.files;
  }
}
