/**
 How statements, calls and runs of a connection end, said from the state before and the environment alone: when
 preparing and executing succeed, which transactions are begun, and which way each of them is ended.
*/
module ClientOutcomes {
  import opened ClientProtocol

  // ---- Ends of one transaction. ----

  /** The commit is reported as done: only a transaction that may write is followed by a checkpoint. */
  predicate Reported(readOnly: bool, outcome: CommitOutcome) {
    outcome.Done? || (readOnly && !outcome.CommitFailed?)
  }

  /** How a transaction ends whose work is followed by a commit. */
  function Ending(id: nat, readOnly: bool, throws: bool, outcome: CommitOutcome): seq<Event> {
    if throws || outcome.CommitFailed? then [RolledBack(id)]
    else if outcome.CleanupFailed? && !readOnly then [Committed(id), RolledBack(id)]
    else [Committed(id)]
  }

  lemma {:induction false} OldIds(log: seq<Event>, e: Event)
    requires Open(log).Some? && e in log
    ensures e.id <= Newest(log)
  {
    var before, last := log[..|log| - 1], log[|log| - 1];
    assert log == before + [last];
    if e in before {
      OldIds(before, e);
    } else if !last.Began? {
      OpenIsBegun(before, e.id);
    }
  }

  lemma {:induction false} OpenIsBegun(log: seq<Event>, id: nat)
    requires Open(log) == Some(Some(id))
    ensures id <= Newest(log)
  {
  }

  // ---- Work in a transaction. ----

  lemma GuardedWork(c: Ctx, throws: bool, isNew: bool, action: CommitAction, outcome: CommitOutcome)
    requires c.active.Some?
    ensures var t, r := c.active.value, Guarded(c, Work(throws), isNew, action, outcome);
      if throws || Commits(c, isNew, action) then
        && r.ctx == Ctx(Auto, None, c.lastID, c.log + Ending(t.id, t.readOnly, throws, outcome))
        && (r.thrown.Nothing? <==> !throws && Reported(t.readOnly, outcome))
      else r == Step(c, Nothing)
  {
    var id := c.active.value.id;
    assert c.log + [Committed(id)] + [RolledBack(id)] == c.log + [Committed(id), RolledBack(id)];
  }

  /** The analysis in a transaction of its own, which only reads. */
  lemma AnalysisInAuto(c: Ctx, e: Env)
    requires ModeOK(c) && c.mode.Auto?
    ensures var a, r := c.lastID + 1, Analyze(c, e);
      && r.ctx == Ctx(Auto, None, a, c.log + [Began(a)] + Ending(a, true, e.analysisThrows, e.analysisCommit))
      && (r.thrown.Nothing? <==> Analyzes(c, e))
  {
    GuardedWork(BeginInternal(c, true, e.busy).ctx, e.analysisThrows, true, COMMIT_IF_NEW, e.analysisCommit);
  }

  // ---- Preparing. ----

  predicate Analyzes(c: Ctx, e: Env) {
    !e.analysisThrows && (c.mode.Auto? ==> !e.analysisCommit.CommitFailed?)
  }

  /** A write needs a writable database and, in manual mode, a transaction that may write. */
  predicate Allowed(c: Ctx, s: Statement, e: Env)
    requires ModeOK(c)
  {
    && (e.canWrite || s.readOnly)
    && (s.func.Work? && c.mode.Manual? ==> !c.active.value.readOnly || s.readOnly)
  }

  /** Binding gets the transaction it needs, does not throw, and its commit, if one is due, is reported as done. */
  predicate Binds(c: Ctx, s: Statement, commitNew: bool, e: Env) {
    && !e.bindThrows
    && (s.func.Work? && c.mode.Auto? ==> (s.readOnly || !e.busy) && (commitNew ==> Reported(s.readOnly, e.bindCommit)))
  }

  /** When preparing succeeds, from the inputs alone. */
  lemma PrepareSucceedsIff(c: Ctx, s: Statement, commitNew: bool, e: Env)
    requires ModeOK(c)
    ensures Prepare(c, s, commitNew, e).success <==> Analyzes(c, e) && Allowed(c, s, e) && Binds(c, s, commitNew, e)
  {
    if c.mode.Auto? {
      PrepareInAuto(c, s, commitNew, e);
    } else {
      PrepareInManual(c, s, commitNew, e);
    }
  }

  /** The context of a connection that ended its transactions up to `id`. */
  function Idle(id: nat, log: seq<Event>): Ctx {
    Ctx(Auto, None, id, log)
  }

  /** The log after an analysis in auto mode that went through. */
  function AnalyzedLog(c: Ctx): seq<Event> {
    c.log + [Began(c.lastID + 1), Committed(c.lastID + 1)]
  }

  lemma AnalyzedInAuto(c: Ctx, e: Env)
    requires ModeOK(c) && c.mode.Auto?
    ensures var a := c.lastID + 1;
      Analyze(c, e).ctx == if Analyzes(c, e) then Idle(a, AnalyzedLog(c)) else Idle(a, c.log + [Began(a), RolledBack(a)])
    ensures Analyze(c, e).thrown.Nothing? <==> Analyzes(c, e)
  {
    var a := c.lastID + 1;
    AnalysisInAuto(c, e);
    assert c.log + [Began(a)] + [RolledBack(a)] == c.log + [Began(a), RolledBack(a)];
    assert c.log + [Began(a)] + [Committed(a)] == AnalyzedLog(c);
  }

  lemma BindInAuto(c: Ctx, s: Statement, commitNew: bool, e: Env)
    requires ModeOK(c) && c.mode.Auto?
    ensures var b, r := c.lastID + 1, Bind(c, s, commitNew, e);
      && (r.thrown.Nothing? <==> Binds(c, s, commitNew, e))
      && r.ctx ==
         if s.func.Transact? || (!s.readOnly && e.busy) then c
         else if e.bindThrows || commitNew then Idle(b, c.log + [Began(b)] + Ending(b, s.readOnly, e.bindThrows, e.bindCommit))
         else Ctx(Auto, Some(Txn(b, s.readOnly)), b, c.log + [Began(b)])
  {
    if s.func.Work? && (s.readOnly || !e.busy) {
      GuardedWork(BeginInternal(c, s.readOnly, e.busy).ctx, e.bindThrows, true, GetAction(commitNew, false), e.bindCommit);
    }
  }

  /** What preparing in auto mode leaves behind: the analysis in one transaction, binding in the next. */
  lemma PrepareInAuto(c: Ctx, s: Statement, commitNew: bool, e: Env)
    requires ModeOK(c) && c.mode.Auto?
    ensures var a, b, p := c.lastID + 1, c.lastID + 2, Prepare(c, s, commitNew, e);
      && (p.success <==> Analyzes(c, e) && Allowed(c, s, e) && Binds(c, s, commitNew, e))
      && p.ctx ==
         if !Analyzes(c, e) then Idle(a, c.log + [Began(a), RolledBack(a)])
         else if !Allowed(c, s, e) || s.func.Transact? || (!s.readOnly && e.busy) then Idle(a, AnalyzedLog(c))
         else if e.bindThrows || commitNew then
           Idle(b, AnalyzedLog(c) + [Began(b)] + Ending(b, s.readOnly, e.bindThrows, e.bindCommit))
         else Ctx(Auto, Some(Txn(b, s.readOnly)), b, AnalyzedLog(c) + [Began(b)])
  {
    hide Analyze, Bind, AnalyzedLog, Ending;
    AnalyzeKeepsModeOK(c, e);
    AnalyzedInAuto(c, e);
    BindInAuto(Analyze(c, e).ctx, s, commitNew, e);
  }

  /** The context after the manual transaction was rolled back. */
  function Aborted(c: Ctx): Ctx
    requires c.active.Some?
  {
    Idle(c.lastID, c.log + [RolledBack(c.active.value.id)])
  }

  /**
   Preparing in manual mode begins nothing. A statement that is not allowed leaves the transaction open; an analysis
   or a binding that throws rolls it back.
  */
  lemma PrepareInManual(c: Ctx, s: Statement, commitNew: bool, e: Env)
    requires ModeOK(c) && c.mode.Manual?
    ensures var p := Prepare(c, s, commitNew, e);
      && (p.success <==> !e.analysisThrows && Allowed(c, s, e) && !e.bindThrows)
      && p.ctx == if e.analysisThrows || (Allowed(c, s, e) && e.bindThrows) then Aborted(c) else c
  {
    GuardedWork(c, e.analysisThrows, false, COMMIT_IF_NEW, e.analysisCommit);
    GuardedWork(c, e.bindThrows, false, GetAction(commitNew, false), e.bindCommit);
  }

  // ---- Statements that do ordinary work. ----

  /**
   In auto mode a prepared statement ends in the way its work and its commit say, and succeeds exactly if the work
   does not throw and the commit is reported as done.
  */
  lemma WorkInAuto(c: Ctx, s: Statement, e: Env)
    requires ModeOK(c) && c.mode.Auto? && s.func.Work? && Prepare(c, s, false, e).success
    ensures var b, r := c.lastID + 2, RunStatement(c, s, e);
      && r.ctx == Idle(b, AnalyzedLog(c) + [Began(b)] + Ending(b, s.readOnly, s.func.throws, e.commit))
      && (r.success <==> !s.func.throws && Reported(s.readOnly, e.commit))
  {
    hide Prepare, AnalyzedLog, Ending;
    PrepareInAuto(c, s, false, e);
    PreparedMode(c, s, e);
    GuardedWork(Prepare(c, s, false, e).ctx, s.func.throws, false, GetAction(true, true), e.commit);
  }

  /** Which way the statement's own transaction ends. */
  lemma WorkEnds(c: Ctx, s: Statement, e: Env)
    requires Inv(c) && c.mode.Auto? && s.func.Work? && Prepare(c, s, false, e).success
    ensures var b, log := c.lastID + 2, RunStatement(c, s, e).ctx.log;
      && (Committed(b) in log <==> !s.func.throws && !e.commit.CommitFailed?)
      && (RolledBack(b) in log <==> s.func.throws || e.commit.CommitFailed? || (e.commit.CleanupFailed? && !s.readOnly))
  {
    var a, b := c.lastID + 1, c.lastID + 2;
    hide Prepare, RunStatement, Open, Newest, Ending;
    WorkInAuto(c, s, e);
    var front, end := AnalyzedLog(c) + [Began(b)], Ending(b, s.readOnly, s.func.throws, e.commit);
    if Committed(b) in c.log {
      OldIds(c.log, Committed(b));
    }
    if RolledBack(b) in c.log {
      OldIds(c.log, RolledBack(b));
    }
    EndingHas(b, s.readOnly, s.func.throws, e.commit);
  }

  lemma EndingHas(id: nat, readOnly: bool, throws: bool, outcome: CommitOutcome)
    ensures var end := Ending(id, readOnly, throws, outcome);
      && (Committed(id) in end <==> !throws && !outcome.CommitFailed?)
      && (RolledBack(id) in end <==> throws || outcome.CommitFailed? || (outcome.CleanupFailed? && !readOnly))
  {
  }

  /**
   In manual mode a statement goes through in the open transaction and leaves it open; one that is not allowed leaves
   it open too; one whose analysis, binding or work throws rolls it back and leaves auto mode.
  */
  lemma WorkInManual(c: Ctx, s: Statement, e: Env)
    requires ModeOK(c) && c.mode.Manual? && s.func.Work?
    ensures RunStatement(c, s, e) ==
      if e.analysisThrows || (Allowed(c, s, e) && (e.bindThrows || s.func.throws)) then Prepared(Aborted(c), false)
      else Prepared(c, Allowed(c, s, e))
  {
    PrepareInManual(c, s, false, e);
    PreparedMode(c, s, e);
    GuardedWork(c, s.func.throws, false, GetAction(true, true), e.commit);
  }

  // ---- Transaction statements. ----

  /** COMMIT ends the transaction as its commit says; ROLLBACK rolls it back; BEGIN and CHECKPOINT fail and roll it back. */
  lemma TransactInManual(c: Ctx, s: Statement, e: Env)
    requires ModeOK(c) && c.mode.Manual? && s.func.Transact? && Prepare(c, s, false, e).success
    ensures var t, r := c.active.value, RunStatement(c, s, e);
      match s.func.action
      case Commit =>
        r == Prepared(Idle(c.lastID, c.log + Ending(t.id, t.readOnly, false, s.func.commit)), Reported(t.readOnly, s.func.commit))
      case Rollback => r == Prepared(Aborted(c), true)
      case BeginRead => r == Prepared(Aborted(c), false)
      case BeginWrite => r == Prepared(Aborted(c), false)
      case DoCheckpoint => r == Prepared(Aborted(c), false)
  {
    PrepareInManual(c, s, false, e);
    PreparedMode(c, s, e);
    var id := c.active.value.id;
    assert c.log + [Committed(id)] + [RolledBack(id)] == c.log + [Committed(id), RolledBack(id)];
  }

  /**
   BEGIN opens a transaction of its kind in manual mode, and a refused one only sets manual mode; CHECKPOINT succeeds
   exactly if the checkpoint does; COMMIT and ROLLBACK fail.
  */
  lemma TransactInAuto(c: Ctx, s: Statement, e: Env)
    requires ModeOK(c) && c.mode.Auto? && s.func.Transact? && Prepare(c, s, false, e).success
    ensures var d, b, r := Idle(c.lastID + 1, AnalyzedLog(c)), c.lastID + 2, RunStatement(c, s, e);
      match s.func.action
      case BeginRead => r == Prepared(Ctx(Manual, Some(Txn(b, true)), b, d.log + [Began(b)]), true)
      case BeginWrite =>
        r == if s.func.busy then Prepared(d.(mode := Manual), false)
             else Prepared(Ctx(Manual, Some(Txn(b, false)), b, d.log + [Began(b)]), true)
      case DoCheckpoint => r == Prepared(d, s.func.checkpoint.Nothing?)
      case Commit => r == Prepared(d, false)
      case Rollback => r == Prepared(d, false)
  {
    hide Prepare, AnalyzedLog;
    PrepareInAuto(c, s, false, e);
    PreparedMode(c, s, e);
  }

  // ---- Queries, calls and runs. ----

  /** The contexts between the statements of a query, which runs until one fails. */
  ghost predicate QueryTrace(c: Ctx, statements: seq<(Statement, Env)>, cs: seq<Ctx>) {
    && 1 <= |cs| <= |statements| + 1 && cs[0] == c
    && (forall i :: 0 <= i < |cs| - 1 ==> Ran(cs[i], statements[i], cs[i + 1]))
    && (forall i :: 0 <= i < |cs| - 2 ==> Succeeds(cs[i], statements[i]))
    && (|cs| <= |statements| ==> |cs| > 1 && !Succeeds(cs[|cs| - 2], statements[|cs| - 2]))
  }

  ghost predicate Ran(c: Ctx, statement: (Statement, Env), d: Ctx) {
    ModeOK(c) && d == RunStatement(c, statement.0, statement.1).ctx
  }

  ghost predicate Succeeds(c: Ctx, statement: (Statement, Env)) {
    ModeOK(c) && RunStatement(c, statement.0, statement.1).success
  }

  /** A query runs its statements in order, each in the context the one before left, up to the first that fails. */
  lemma {:induction false} QueryRuns(c: Ctx, statements: seq<(Statement, Env)>) returns (cs: seq<Ctx>)
    requires ModeOK(c) && QueryUnrefused(c, statements)
    ensures QueryTrace(c, statements, cs) && RunQuery(c, statements) == cs[|cs| - 1]
    decreases |statements|
  {
    hide RunStatement;
    cs := [c];
    if statements != [] {
      var (s, e) := statements[0];
      StatementKeepsMode(c, s, e);
      var ran := RunStatement(c, s, e);
      assert Ran(c, statements[0], ran.ctx);
      if ran.success {
        var rest := QueryRuns(ran.ctx, statements[1..]);
        cs := [c] + rest;
        TraceGrows(c, statements, rest);
      } else {
        cs := [c, ran.ctx];
        assert !Succeeds(c, statements[0]);
      }
    }
  }

  lemma TraceGrows(c: Ctx, statements: seq<(Statement, Env)>, rest: seq<Ctx>)
    requires statements != [] && ModeOK(c) && Succeeds(c, statements[0])
    requires QueryTrace(RunStatement(c, statements[0].0, statements[0].1).ctx, statements[1..], rest)
    ensures QueryTrace(c, statements, [c] + rest)
  {
    hide RunStatement;
    var cs := [c] + rest;
    forall i | 0 <= i < |cs| - 1
      ensures Ran(cs[i], statements[i], cs[i + 1])
    {
      assert i > 0 ==> statements[i] == statements[1..][i - 1] && Ran(rest[i - 1], statements[1..][i - 1], rest[i]);
    }
    forall i | 0 <= i < |cs| - 2
      ensures Succeeds(cs[i], statements[i])
    {
      assert i > 0 ==> Succeeds(rest[i - 1], statements[1..][i - 1]);
    }
  }

  lemma TraceShrinks(c: Ctx, statements: seq<(Statement, Env)>, cs: seq<Ctx>)
    requires QueryTrace(c, statements, cs) && |cs| > 1 && Succeeds(c, statements[0])
    ensures QueryTrace(cs[1], statements[1..], cs[1..])
  {
    hide RunStatement;
    var rest := cs[1..];
    forall i | 0 <= i < |rest| - 1
      ensures Ran(rest[i], statements[1..][i], rest[i + 1])
    {
      assert Ran(cs[i + 1], statements[i + 1], cs[i + 2]);
    }
    forall i | 0 <= i < |rest| - 2
      ensures Succeeds(rest[i], statements[1..][i])
    {
      assert Succeeds(cs[i + 1], statements[i + 1]);
    }
  }

  /** There is no other way to run it: whatever contexts fit, the last of them is the query's. */
  lemma {:induction false} TraceDecides(c: Ctx, statements: seq<(Statement, Env)>, cs: seq<Ctx>)
    requires ModeOK(c) && QueryUnrefused(c, statements) && QueryTrace(c, statements, cs)
    ensures cs[|cs| - 1] == RunQuery(c, statements)
    decreases |statements|
  {
    hide RunStatement;
    if statements != [] {
      var (s, e) := statements[0];
      StatementKeepsMode(c, s, e);
      assert Ran(c, statements[0], cs[1]);
      if RunStatement(c, s, e).success {
        TraceShrinks(c, statements, cs);
        TraceDecides(cs[1], statements[1..], cs[1..]);
      } else {
        assert |cs| > 2 ==> Succeeds(cs[0], statements[0]);
      }
    }
  }

  /** What one call does: a query runs its statements, a prepare commits what it began, an execution runs its statement. */
  ghost predicate Called(c: Ctx, call: Call, d: Ctx) {
    && ModeOK(c)
    && match call
       case Query(statements) => exists cs :: QueryTrace(c, statements, cs) && cs[|cs| - 1] == d
       case PrepareOnly(s, e) => d == Prepare(c, s, true, e).ctx
       case ExecutePrepared(s, e) => d == RunStatement(c, s, e).ctx
  }

  lemma CallRuns(c: Ctx, call: Call, d: Ctx)
    requires ModeOK(c) && CallUnrefused(c, call)
    ensures Called(c, call, d) <==> d == RunCall(c, call)
  {
    hide RunStatement, Prepare, QueryTrace;
    if call.Query? {
      var cs := QueryRuns(c, call.statements);
      forall cs | QueryTrace(c, call.statements, cs)
        ensures |cs| > 0 && cs[|cs| - 1] == RunQuery(c, call.statements)
      {
        TraceIsLong(c, call.statements, cs);
        TraceDecides(c, call.statements, cs);
      }
    }
  }

  lemma TraceIsLong(c: Ctx, statements: seq<(Statement, Env)>, cs: seq<Ctx>)
    requires QueryTrace(c, statements, cs)
    ensures |cs| > 0
  {
  }

  /** The contexts between the calls of a run. */
  ghost predicate RunTrace(c: Ctx, calls: seq<Call>, cs: seq<Ctx>) {
    && |cs| == |calls| + 1 && cs[0] == c
    && forall i :: 0 <= i < |calls| ==> Called(cs[i], calls[i], cs[i + 1])
  }

  /** A run makes all its calls in order, each in the context the one before left, whether that one failed or not. */
  lemma {:induction false} RunRuns(c: Ctx, calls: seq<Call>) returns (cs: seq<Ctx>)
    requires ModeOK(c) && RunUnrefused(c, calls)
    ensures RunTrace(c, calls, cs) && Run(c, calls) == cs[|calls|]
    decreases |calls|
  {
    hide Called, RunCall;
    cs := [c];
    if calls != [] {
      var d := RunCall(c, calls[0]);
      CallRuns(c, calls[0], d);
      var rest := RunRuns(d, calls[1..]);
      cs := [c] + rest;
      forall i | 0 <= i < |calls|
        ensures Called(cs[i], calls[i], cs[i + 1])
      {
        assert i > 0 ==> Called(rest[i - 1], calls[1..][i - 1], rest[i]);
      }
    }
  }

  lemma {:induction false} RunDecides(c: Ctx, calls: seq<Call>, cs: seq<Ctx>)
    requires ModeOK(c) && RunUnrefused(c, calls) && RunTrace(c, calls, cs)
    ensures cs[|calls|] == Run(c, calls)
    decreases |calls|
  {
    hide Called, RunCall;
    if calls != [] {
      CallRuns(c, calls[0], cs[1]);
      assert Called(cs[0], calls[0], cs[1]);
      forall i | 0 <= i < |calls| - 1
        ensures Called(cs[1..][i], calls[1..][i], cs[1..][i + 1])
      {
        assert Called(cs[i + 1], calls[i + 1], cs[i + 2]);
      }
      RunDecides(cs[1], calls[1..], cs[1..]);
    }
  }

  // ---- Counting the transactions of a run in auto mode. ----

  /** Nothing goes wrong with the statement in auto mode. */
  predicate GoesThrough(s: Statement, e: Env) {
    && !e.analysisThrows && !e.analysisCommit.CommitFailed?
    && (e.canWrite || s.readOnly) && !e.bindThrows && (s.readOnly || !e.busy)
    && s.func == Work(false) && Reported(s.readOnly, e.commit)
  }

  /** In auto mode ordinary work succeeds exactly if nothing goes wrong with it. */
  lemma AutoSucceedsIff(c: Ctx, s: Statement, e: Env)
    requires ModeOK(c) && c.mode.Auto? && s.func.Work?
    ensures RunStatement(c, s, e).success <==> GoesThrough(s, e)
    ensures GoesThrough(s, e) ==>
      RunStatement(c, s, e).ctx == Idle(c.lastID + 2, c.log + TwoCommits(c.lastID))
  {
    hide Prepare;
    PrepareInAuto(c, s, false, e);
    if Prepare(c, s, false, e).success {
      WorkInAuto(c, s, e);
    }
    var b := c.lastID + 2;
    assert AnalyzedLog(c) + [Began(b)] + [Committed(b)] == c.log + TwoCommits(c.lastID);
  }

  /** The events of a statement in auto mode that goes through. */
  function TwoCommits(id: nat): seq<Event> {
    [Began(id + 1), Committed(id + 1), Began(id + 2), Committed(id + 2)]
  }

  /** The events of n of them. */
  function PairsCommitted(id: nat, n: nat): seq<Event>
    decreases n
  {
    if n == 0 then [] else TwoCommits(id) + PairsCommitted(id + 2, n - 1)
  }

  /** A query of n statements with which nothing goes wrong begins and commits exactly 2n transactions. */
  lemma {:induction false} QueryCounts(c: Ctx, statements: seq<(Statement, Env)>)
    requires ModeOK(c) && c.mode.Auto?
    requires forall i :: 0 <= i < |statements| ==> GoesThrough(statements[i].0, statements[i].1)
    ensures QueryUnrefused(c, statements)
    ensures RunQuery(c, statements) == Idle(c.lastID + 2 * |statements|, c.log + PairsCommitted(c.lastID, |statements|))
    decreases |statements|
  {
    hide RunStatement, TwoCommits;
    if statements == [] {
      assert c.log + [] == c.log;
    } else {
      var (s, e) := statements[0];
      StatementKeepsMode(c, s, e);
      AutoSucceedsIff(c, s, e);
      QueryCounts(RunStatement(c, s, e).ctx, statements[1..]);
      assert c.log + (TwoCommits(c.lastID) + PairsCommitted(c.lastID + 2, |statements| - 1)) ==
        c.log + TwoCommits(c.lastID) + PairsCommitted(c.lastID + 2, |statements| - 1);
    }
  }

  /** Nothing goes wrong with the call in auto mode. */
  ghost predicate CallGoesThrough(call: Call) {
    match call
    case Query(statements) => forall i :: 0 <= i < |statements| ==> GoesThrough(statements[i].0, statements[i].1)
    case PrepareOnly(s, e) => GoesThrough(s, e) && Reported(s.readOnly, e.bindCommit)
    case ExecutePrepared(s, e) => GoesThrough(s, e)
  }

  /** The statements the call prepares or runs. */
  function Count(call: Call): nat {
    if call.Query? then |call.statements| else 1
  }

  function CountAll(calls: seq<Call>): nat {
    if calls == [] then 0 else Count(calls[0]) + CountAll(calls[1..])
  }

  lemma CallCounts(c: Ctx, call: Call)
    requires ModeOK(c) && c.mode.Auto? && CallGoesThrough(call)
    ensures CallUnrefused(c, call)
    ensures RunCall(c, call) == Idle(c.lastID + 2 * Count(call), c.log + PairsCommitted(c.lastID, Count(call)))
  {
    hide RunStatement, Prepare;
    assert PairsCommitted(c.lastID, 1) == TwoCommits(c.lastID) + PairsCommitted(c.lastID + 2, 0) == TwoCommits(c.lastID);
    match call
    case Query(statements) => QueryCounts(c, statements);
    case PrepareOnly(s, e) =>
      PrepareInAuto(c, s, true, e);
      var b := c.lastID + 2;
      assert AnalyzedLog(c) + [Began(b)] + [Committed(b)] == c.log + TwoCommits(c.lastID);
    case ExecutePrepared(s, e) => AutoSucceedsIff(c, s, e);
  }

  lemma {:induction false} CommitsJoin(id: nat, m: nat, n: nat)
    ensures PairsCommitted(id, m) + PairsCommitted(id + 2 * m, n) == PairsCommitted(id, m + n)
    decreases m
  {
    if m == 0 {
      assert [] + PairsCommitted(id, n) == PairsCommitted(id, n);
    } else {
      CommitsJoin(id + 2, m - 1, n);
      assert TwoCommits(id) + PairsCommitted(id + 2, m - 1) + PairsCommitted(id + 2 * m, n) ==
        TwoCommits(id) + (PairsCommitted(id + 2, m - 1) + PairsCommitted(id + 2 * m, n));
    }
  }

  /** A run with which nothing goes wrong begins and commits exactly two transactions for every statement of it. */
  lemma {:induction false} RunCounts(c: Ctx, calls: seq<Call>)
    requires ModeOK(c) && c.mode.Auto? && forall i :: 0 <= i < |calls| ==> CallGoesThrough(calls[i])
    ensures RunUnrefused(c, calls)
    ensures Run(c, calls) == Idle(c.lastID + 2 * CountAll(calls), c.log + PairsCommitted(c.lastID, CountAll(calls)))
    decreases |calls|
  {
    hide RunCall, CallUnrefused, CallGoesThrough, PairsCommitted, Count;
    if calls == [] {
      NoCommits(c);
    } else {
      CallCounts(c, calls[0]);
      var d := RunCall(c, calls[0]);
      RunCounts(d, calls[1..]);
      CommitsJoin(c.lastID, Count(calls[0]), CountAll(calls[1..]));
      assert c.log + PairsCommitted(c.lastID, Count(calls[0])) + PairsCommitted(d.lastID, CountAll(calls[1..])) ==
        c.log + (PairsCommitted(c.lastID, Count(calls[0])) + PairsCommitted(d.lastID, CountAll(calls[1..])));
    }
  }

  lemma NoCommits(c: Ctx)
    ensures c.log + PairsCommitted(c.lastID, 0) == c.log
  {
  }
}
