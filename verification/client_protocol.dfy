/**
 The statement and transaction protocol of one connection. In auto mode a statement
 is bound and executed in a transaction of its own; in manual mode, between BEGIN and
 COMMIT or ROLLBACK, all statements share one. What the parts the protocol calls
 (analysis, binding, execution, the transaction manager) do is given by an
 environment; exceptions are values.
*/
module ClientProtocol {

  datatype Option<T> = None | Some(value: T)

  datatype Mode = Auto | Manual

  datatype Txn = Txn(id: nat, readOnly: bool)

  /** What the transaction manager was asked to do, in order. */
  datatype Event = Began(id: nat) | Committed(id: nat) | RolledBack(id: nat)

  datatype Ctx = Ctx(mode: Mode, active: Option<Txn>, lastID: nat, log: seq<Event>)

  datatype Thrown = Nothing | Checkpoint | Other

  datatype Step = Step(ctx: Ctx, thrown: Thrown)

  /**
   A commit goes through; goes through but the checkpoint behind it fails with a checkpoint
   exception, or outside the part that wraps its exceptions; or fails. Only a transaction that
   may write is followed by a checkpoint.
  */
  datatype CommitOutcome = Done | CheckpointFailed | CleanupFailed | CommitFailed

  datatype Action = BeginRead | BeginWrite | Commit | Rollback | DoCheckpoint

  /** The function run in a transaction: ordinary work, which may throw, or a transaction statement. */
  datatype Func =
    | Work(throws: bool)
    | Transact(action: Action, busy: bool, commit: CommitOutcome, checkpoint: Thrown)

  datatype CommitAction = COMMIT_IF_NEW | COMMIT_IF_AUTO | COMMIT_NEW_OR_AUTO | NOT_COMMIT

  // ---- The transaction context. ----

  // The manager refuses a write transaction while another connection has one.
  function BeginInternal(c: Ctx, readOnly: bool, busy: bool): Step
    requires c.active.None?
  {
    if !readOnly && busy then Step(c, Other)
    else
      var id := c.lastID + 1;
      Step(c.(active := Some(Txn(id, readOnly)), lastID := id, log := c.log + [Began(id)]), Nothing)
  }

  function BeginManual(c: Ctx, readOnly: bool, busy: bool): Step
    requires c.active.None?
  {
    BeginInternal(c.(mode := Manual), readOnly, busy)
  }

  function Clear(c: Ctx): Ctx {
    c.(active := None, mode := Auto)
  }

  function CommitActive(c: Ctx, outcome: CommitOutcome): Step {
    if c.active.None? then Step(c, Nothing)
    else
      var ended := c.(log := c.log + [Committed(c.active.value.id)]);
      if outcome.CommitFailed? then Step(c, Other)
      else if outcome.Done? || c.active.value.readOnly then Step(Clear(ended), Nothing)
      else if outcome.CheckpointFailed? then Step(ended, Checkpoint)
      else Step(ended, Other)
  }

  function RollbackActive(c: Ctx): Ctx {
    if c.active.None? then c else Clear(c.(log := c.log + [RolledBack(c.active.value.id)]))
  }

  /** A transaction statement checks that it fits, then acts. */
  function RunTransact(c: Ctx, f: Func): Step
    requires f.Transact?
  {
    match f.action
    case BeginRead => if c.active.Some? then Step(c, Other) else BeginManual(c, true, f.busy)
    case BeginWrite => if c.active.Some? then Step(c, Other) else BeginManual(c, false, f.busy)
    case Commit => if c.active.None? then Step(c, Other) else CommitActive(c, f.commit)
    case Rollback => if c.active.None? then Step(c, Other) else Step(RollbackActive(c), Nothing)
    case DoCheckpoint => if c.active.Some? then Step(c, Other) else Step(c, f.checkpoint)
  }

  function RunFunc(c: Ctx, f: Func): Step {
    match f
    case Work(throws) => Step(c, if throws then Other else Nothing)
    case Transact(_, _, _, _) => RunTransact(c, f)
  }

  // ---- Running a function in a transaction. ----

  predicate CommitIfNew(a: CommitAction) { a == COMMIT_IF_NEW || a == COMMIT_NEW_OR_AUTO }

  predicate CommitIfAuto(a: CommitAction) { a == COMMIT_IF_AUTO || a == COMMIT_NEW_OR_AUTO }

  function GetAction(commitIfNew: bool, commitIfAuto: bool): (a: CommitAction)
    ensures CommitIfNew(a) == commitIfNew && CommitIfAuto(a) == commitIfAuto
  {
    if commitIfNew && commitIfAuto then COMMIT_NEW_OR_AUTO
    else if commitIfNew then COMMIT_IF_NEW
    else if commitIfAuto then COMMIT_IF_AUTO
    else NOT_COMMIT
  }

  /** The first assertion of the code: a connection in manual mode has a transaction. */
  predicate Runnable(c: Ctx) {
    c.mode.Auto? || c.active.Some?
  }

  predicate NeedsNew(c: Ctx, isTransactionStatement: bool) {
    c.mode.Auto? && c.active.None? && !isTransactionStatement
  }

  function Caught(s: Step): Step {
    match s.thrown
    case Nothing => s
    case Checkpoint => Step(Clear(s.ctx), Checkpoint)
    case Other => Step(RollbackActive(s.ctx), Other)
  }

  function Guarded(c: Ctx, f: Func, isNew: bool, action: CommitAction, outcome: CommitOutcome): Step {
    var done := RunFunc(c, f);
    if done.thrown.Nothing? && ((isNew && CommitIfNew(action)) || (done.ctx.mode.Auto? && CommitIfAuto(action)))
    then Caught(CommitActive(done.ctx, outcome))
    else Caught(done)
  }

  function RunInTransaction(c: Ctx, f: Func, readOnly: bool, isTransactionStatement: bool, action: CommitAction, busy: bool,
                            outcome: CommitOutcome): Step
    requires Runnable(c)
  {
    if NeedsNew(c, isTransactionStatement) then
      var begun := BeginInternal(c, readOnly, busy);
      if !begun.thrown.Nothing? then begun else Guarded(begun.ctx, f, true, action, outcome)
    else Guarded(c, f, false, action, outcome)
  }

  // ---- Statements. ----

  datatype Statement = Statement(func: Func, readOnly: bool)

  predicate IsTransactionStatement(s: Statement) {
    s.func.Transact?
  }

  predicate RequireTransaction(s: Statement) {
    !IsTransactionStatement(s)
  }

  /** What goes wrong around one statement, besides its own execution. */
  datatype Env = Env(analysisThrows: bool, bindThrows: bool, canWrite: bool, busy: bool, analysisCommit: CommitOutcome,
                     bindCommit: CommitOutcome, commit: CommitOutcome)

  /** The second assertion of the code: an active transaction found here is a manual one. */
  predicate Checkable(c: Ctx, requireTransaction: bool) {
    requireTransaction && c.active.Some? ==> c.mode.Manual?
  }

  /** Whether the statement may run: writes need a writable database and a transaction that is not read-only. */
  predicate Validated(c: Ctx, readOnly: bool, requireTransaction: bool, canWrite: bool)
    requires Checkable(c, requireTransaction)
  {
    && (canWrite || readOnly)
    && !(requireTransaction && c.active.Some? && c.active.value.readOnly && !readOnly)
  }

  function Analyze(c: Ctx, e: Env): Step
    requires Runnable(c)
  {
    RunInTransaction(c, Work(e.analysisThrows), true, false, COMMIT_IF_NEW, e.busy, e.analysisCommit)
  }

  function Bind(c: Ctx, s: Statement, commitNew: bool, e: Env): Step
    requires Runnable(c)
  {
    RunInTransaction(c, Work(e.bindThrows), s.readOnly, IsTransactionStatement(s), GetAction(commitNew, false), e.busy,
                     e.bindCommit)
  }

  datatype Prepared = Prepared(ctx: Ctx, success: bool)

  function Prepare(c: Ctx, s: Statement, commitNew: bool, e: Env): Prepared
    requires ModeOK(c)
  {
    var analyzed := Analyze(c, e);
    AnalyzeKeepsModeOK(c, e);
    if !analyzed.thrown.Nothing? || !Validated(analyzed.ctx, s.readOnly, RequireTransaction(s), e.canWrite)
    then Prepared(analyzed.ctx, false)
    else
      var bound := Bind(analyzed.ctx, s, commitNew, e);
      Prepared(bound.ctx, bound.thrown.Nothing?)
  }

  function Execute(c: Ctx, s: Statement, e: Env): Step
    requires Runnable(c)
  {
    RunInTransaction(c, s.func, s.readOnly, IsTransactionStatement(s), GetAction(true, !IsTransactionStatement(s)), e.busy,
                     e.commit)
  }

  /** Preparing and executing one statement. */
  function RunStatement(c: Ctx, s: Statement, e: Env): Prepared
    requires ModeOK(c)
  {
    var p := Prepare(c, s, false, e);
    PreparedMode(c, s, e);
    if !p.success then p else var x := Execute(p.ctx, s, e); Prepared(x.ctx, x.thrown.Nothing?)
  }

  // ---- The mode between calls. ----

  /** In auto mode there is no active transaction, in manual mode there is one. */
  predicate ModeOK(c: Ctx) {
    c.mode.Auto? <==> c.active.None?
  }

  lemma WorkMode(c: Ctx, throws: bool, isNew: bool, action: CommitAction, outcome: CommitOutcome)
    requires c.active.Some?
    ensures var r := Guarded(c, Work(throws), isNew, action, outcome);
      && (r.ctx == c || (r.ctx.active.None? && r.ctx.mode.Auto?))
      && (r.ctx == c ==> r.thrown.Nothing?)
      && (throws || Commits(c, isNew, action) ==> r.ctx.active.None?)
  {
  }

  lemma AnalyzeKeepsModeOK(c: Ctx, e: Env)
    requires ModeOK(c)
    ensures ModeOK(Analyze(c, e).ctx) && (Analyze(c, e).thrown.Nothing? ==> Analyze(c, e).ctx.mode == c.mode)
    ensures Analyze(c, e).thrown.Nothing? && c.active.Some? ==> Analyze(c, e).ctx == c
  {
    if c.mode.Auto? {
      WorkMode(BeginInternal(c, true, e.busy).ctx, e.analysisThrows, true, COMMIT_IF_NEW, e.analysisCommit);
    } else {
      WorkMode(c, e.analysisThrows, false, COMMIT_IF_NEW, e.analysisCommit);
    }
  }

  /** After binding: as between calls, or in auto mode with the statement's own transaction open. */
  predicate BoundMode(c: Ctx, s: Statement) {
    ModeOK(c) || (c.mode.Auto? && c.active.Some? && !IsTransactionStatement(s))
  }

  lemma BindMode(c: Ctx, s: Statement, commitNew: bool, e: Env)
    requires ModeOK(c)
    ensures var r := Bind(c, s, commitNew, e);
      && BoundMode(r.ctx, s) && (!r.thrown.Nothing? || commitNew ==> ModeOK(r.ctx))
      && (r.thrown.Nothing? ==> r.ctx.mode == c.mode)
      && (r.thrown.Nothing? && IsTransactionStatement(s) ==> r.ctx == c)
  {
    var a := GetAction(commitNew, false);
    if NeedsNew(c, IsTransactionStatement(s)) {
      var begun := BeginInternal(c, s.readOnly, e.busy);
      if begun.thrown.Nothing? {
        WorkMode(begun.ctx, e.bindThrows, true, a, e.bindCommit);
      }
    } else if c.active.Some? {
      WorkMode(c, e.bindThrows, false, a, e.bindCommit);
    }
  }

  lemma PreparedMode(c: Ctx, s: Statement, e: Env)
    requires ModeOK(c)
    ensures var p := Prepare(c, s, false, e);
      && Runnable(p.ctx) && BoundMode(p.ctx, s) && (!p.success ==> ModeOK(p.ctx))
      && (p.success && IsTransactionStatement(s) ==> ModeOK(p.ctx) && p.ctx.active.Some? == c.active.Some?)
  {
    AnalyzeKeepsModeOK(c, e);
    var a := Analyze(c, e);
    if a.thrown.Nothing? {
      BindMode(a.ctx, s, false, e);
    }
  }

  lemma ExecuteWorkMode(c: Ctx, s: Statement, e: Env)
    requires BoundMode(c, s) && s.func.Work?
    ensures ModeOK(Execute(c, s, e).ctx)
  {
    var a := GetAction(true, true);
    if c.active.None? {
      var begun := BeginInternal(c, s.readOnly, e.busy);
      if begun.thrown.Nothing? {
        WorkMode(begun.ctx, s.func.throws, true, a, e.commit);
      }
    } else {
      WorkMode(c, s.func.throws, false, a, e.commit);
    }
  }

  lemma ExecuteTransactMode(c: Ctx, s: Statement, e: Env)
    requires ModeOK(c) && s.func.Transact?
    ensures ModeOK(Execute(c, s, e).ctx) <==> !RefusedBegin(c, s.func)
  {
  }

  /** The statement is not a BEGIN TRANSACTION for writing that gets to execution and is refused there. */
  ghost predicate Unrefused(c: Ctx, s: Statement, e: Env)
    requires ModeOK(c)
  {
    !(RefusedBegin(c, s.func) && Prepare(c, s, false, e).success)
  }

  /**
   Whatever is thrown, and also when a commit throws after it went through, one statement keeps mode and active
   transaction in step exactly unless it is a BEGIN TRANSACTION that is refused.
  */
  lemma StatementKeepsMode(c: Ctx, s: Statement, e: Env)
    requires ModeOK(c)
    ensures ModeOK(RunStatement(c, s, e).ctx) <==> Unrefused(c, s, e)
  {
    hide Execute;
    var p := Prepare(c, s, false, e);
    PreparedMode(c, s, e);
    if p.success {
      if s.func.Work? {
        ExecuteWorkMode(p.ctx, s, e);
      } else {
        ExecuteTransactMode(p.ctx, s, e);
      }
    }
  }

  lemma PrepareKeepsMode(c: Ctx, s: Statement, e: Env)
    requires ModeOK(c)
    ensures ModeOK(Prepare(c, s, true, e).ctx)
  {
    AnalyzeKeepsModeOK(c, e);
    var a := Analyze(c, e);
    if a.thrown.Nothing? {
      BindMode(a.ctx, s, true, e);
    }
  }

  // ---- The invariant between calls. ----

  /** The newest id begun. */
  function Newest(log: seq<Event>): nat {
    if log == [] then 0
    else
      var before := Newest(log[..|log| - 1]);
      if log[|log| - 1].Began? && log[|log| - 1].id > before then log[|log| - 1].id else before
  }

  /** Reads a log: transactions are begun under new ids, not while another is open, and only the open one is ended. */
  function Open(log: seq<Event>): Option<Option<nat>> {
    if log == [] then Some(None)
    else
      var before := Open(log[..|log| - 1]);
      match log[|log| - 1]
      case Began(id) => if before == Some(None) && id > Newest(log[..|log| - 1]) then Some(Some(id)) else None
      case Committed(id) => if before == Some(Some(id)) then Some(None) else None
      case RolledBack(id) => if before == Some(Some(id)) then Some(None) else None
  }

  predicate Logged(c: Ctx) {
    Open(c.log) == Some(if c.active.Some? then Some(c.active.value.id) else None) && Newest(c.log) <= c.lastID
  }

  ghost predicate Inv(c: Ctx) {
    ModeOK(c) && Logged(c)
  }

  lemma OpenGrows(log: seq<Event>, e: Event)
    ensures Open(log + [e]) ==
      match e
      case Began(id) => if Open(log) == Some(None) && id > Newest(log) then Some(Some(id)) else None
      case Committed(id) => if Open(log) == Some(Some(id)) then Some(None) else None
      case RolledBack(id) => if Open(log) == Some(Some(id)) then Some(None) else None
    ensures Newest(log + [e]) == if e.Began? && e.id > Newest(log) then e.id else Newest(log)
  {
    assert (log + [e])[..|log|] == log;
  }

  lemma BeginLogged(c: Ctx, readOnly: bool, busy: bool)
    requires c.active.None? && Logged(c)
    ensures Logged(BeginInternal(c, readOnly, busy).ctx)
  {
    OpenGrows(c.log, Began(c.lastID + 1));
  }

  lemma RollbackLogged(c: Ctx)
    requires Logged(c)
    ensures Logged(RollbackActive(c)) && RollbackActive(c).active.None?
    ensures c.active.Some? ==> RollbackActive(c).mode.Auto?
  {
    if c.active.Some? {
      OpenGrows(c.log, RolledBack(c.active.value.id));
    }
  }

  /** The commit would go through and then throw as if it had not. */
  predicate Late(c: Ctx, outcome: CommitOutcome) {
    c.active.Some? && !c.active.value.readOnly && outcome.CleanupFailed?
  }

  // A commit that throws leaves the transaction to the handler; after the handler it is over, and over
  // once unless it had gone through and the handler does not know.
  lemma CommitLogged(c: Ctx, outcome: CommitOutcome)
    requires Logged(c)
    ensures var s := Caught(CommitActive(c, outcome)); s.ctx.active.None? && (Logged(s.ctx) <==> !Late(c, outcome))
    ensures c.active.Some? ==> Caught(CommitActive(c, outcome)).ctx.mode.Auto?
  {
    if c.active.Some? {
      var id := c.active.value.id;
      OpenGrows(c.log, Committed(id));
      OpenGrows(c.log + [Committed(id)], RolledBack(id));
      RollbackLogged(c);
    }
  }

  /** Work that ends well is followed by a commit. */
  predicate Commits(c: Ctx, isNew: bool, action: CommitAction) {
    (isNew && CommitIfNew(action)) || (c.mode.Auto? && CommitIfAuto(action))
  }

  // Ordinary work in a transaction.
  lemma WorkGuarded(c: Ctx, throws: bool, isNew: bool, action: CommitAction, outcome: CommitOutcome)
    requires Logged(c) && c.active.Some?
    ensures var s := Guarded(c, Work(throws), isNew, action, outcome).ctx;
      && (Logged(s) <==> throws || !Commits(c, isNew, action) || !Late(c, outcome))
      && (s == c || (s.active.None? && s.mode.Auto?))
      && (throws || Commits(c, isNew, action) ==> s.active.None?)
  {
    RollbackLogged(c);
    CommitLogged(c, outcome);
  }

  lemma AnalyzeKeepsInv(c: Ctx, e: Env)
    requires Inv(c)
    ensures Inv(Analyze(c, e).ctx)
  {
    if c.mode.Auto? {
      BeginLogged(c, true, e.busy);
      WorkGuarded(BeginInternal(c, true, e.busy).ctx, e.analysisThrows, true, COMMIT_IF_NEW, e.analysisCommit);
    } else {
      WorkGuarded(c, e.analysisThrows, false, COMMIT_IF_NEW, e.analysisCommit);
    }
  }

  /** After binding without commit: as between calls, or in auto mode with the statement's own transaction open. */
  ghost predicate Bound(c: Ctx, s: Statement) {
    Logged(c) && (Inv(c) || (c.mode.Auto? && c.active.Some? && !IsTransactionStatement(s)))
  }

  // Without commit.
  lemma BindLeaves(c: Ctx, s: Statement, e: Env)
    requires Inv(c)
    ensures var r := Bind(c, s, false, e); Bound(r.ctx, s) && (!r.thrown.Nothing? ==> Inv(r.ctx))
  {
    var a := GetAction(false, false);
    if NeedsNew(c, IsTransactionStatement(s)) {
      BeginLogged(c, s.readOnly, e.busy);
      var begun := BeginInternal(c, s.readOnly, e.busy);
      if begun.thrown.Nothing? {
        WorkGuarded(begun.ctx, e.bindThrows, true, a, e.bindCommit);
      }
    } else if c.active.Some? {
      WorkGuarded(c, e.bindThrows, false, a, e.bindCommit);
    }
  }

  lemma PreparedIsRunnable(c: Ctx, s: Statement, e: Env)
    requires Inv(c)
    ensures var p := Prepare(c, s, false, e); Runnable(p.ctx) && Bound(p.ctx, s) && (!p.success ==> Inv(p.ctx))
  {
    AnalyzeKeepsInv(c, e);
    BindLeaves(Analyze(c, e).ctx, s, e);
  }

  /** A prepare of its own in auto mode begins a writing transaction and its commit goes through and throws. */
  predicate LateBind(c: Ctx, s: Statement, e: Env) {
    c.mode.Auto? && s.func.Work? && !s.readOnly && e.bindCommit.CleanupFailed?
  }

  // With commit.
  lemma BindCommits(c: Ctx, s: Statement, e: Env)
    requires Inv(c)
    ensures Inv(Bind(c, s, true, e).ctx) <==> !(LateBind(c, s, e) && Bind(c, s, false, e).thrown.Nothing?)
  {
    var a := GetAction(true, false);
    if NeedsNew(c, IsTransactionStatement(s)) {
      BeginLogged(c, s.readOnly, e.busy);
      var begun := BeginInternal(c, s.readOnly, e.busy);
      if begun.thrown.Nothing? {
        WorkGuarded(begun.ctx, e.bindThrows, true, a, e.bindCommit);
      }
    } else if c.active.Some? {
      WorkGuarded(c, e.bindThrows, false, a, e.bindCommit);
    }
  }

  ghost predicate PrepareFits(c: Ctx, s: Statement, e: Env)
    requires ModeOK(c)
  {
    !(LateBind(c, s, e) && Prepare(c, s, false, e).success)
  }

  // The analysis leaves the mode as it is, unless it throws.
  lemma AnalyzeKeepsMode(c: Ctx, e: Env)
    requires Inv(c) && Analyze(c, e).thrown.Nothing?
    ensures Analyze(c, e).ctx.mode == c.mode
  {
  }

  /** Preparing alone, which commits what it began, keeps the invariant exactly when its commit does not throw late. */
  lemma PrepareKeepsInv(c: Ctx, s: Statement, e: Env)
    requires Inv(c)
    ensures Inv(Prepare(c, s, true, e).ctx) <==> PrepareFits(c, s, e)
  {
    AnalyzeKeepsInv(c, e);
    var a := Analyze(c, e);
    if a.thrown.Nothing? {
      AnalyzeKeepsMode(c, e);
      BindCommits(a.ctx, s, e);
    }
  }

  // ---- Executing. ----

  /** The commit behind the statement's work goes through and then throws as if it had not. */
  predicate LateWork(c: Ctx, s: Statement, e: Env)
    requires s.func.Work?
  {
    && !s.func.throws && e.commit.CleanupFailed?
    && if c.active.None? then !s.readOnly && !e.busy else c.mode.Auto? && !c.active.value.readOnly
  }

  // The statement's own transaction is over, whether the work or the commit threw or not, and over once
  // unless the commit threw late.
  lemma ExecuteWork(c: Ctx, s: Statement, e: Env)
    requires Bound(c, s) && s.func.Work?
    ensures Inv(Execute(c, s, e).ctx) <==> !LateWork(c, s, e)
  {
    var a := GetAction(true, true);
    if c.active.None? {
      BeginLogged(c, s.readOnly, e.busy);
      var begun := BeginInternal(c, s.readOnly, e.busy);
      if begun.thrown.Nothing? {
        WorkGuarded(begun.ctx, s.func.throws, true, a, e.commit);
      }
    } else {
      WorkGuarded(c, s.func.throws, false, a, e.commit);
    }
  }

  /** A BEGIN TRANSACTION that the manager refuses: the mode is already manual then. */
  predicate RefusedBegin(c: Ctx, f: Func) {
    f.Transact? && f.action.BeginWrite? && f.busy && c.active.None?
  }

  /** A COMMIT that goes through and then throws as if it had not. */
  predicate LateCommit(c: Ctx, f: Func) {
    f.Transact? && f.action.Commit? && Late(c, f.commit)
  }

  lemma ExecuteTransact(c: Ctx, s: Statement, e: Env)
    requires Inv(c) && s.func.Transact?
    ensures Inv(Execute(c, s, e).ctx) <==> !RefusedBegin(c, s.func) && !LateCommit(c, s.func)
  {
    var f := s.func;
    match f.action
    case BeginRead => BeginCase(c, true, f.busy);
    case BeginWrite => BeginCase(c, false, f.busy);
    case Commit => CommitCase(c, f.commit);
    case Rollback => RollbackLogged(c);
    case DoCheckpoint => RollbackLogged(c);
  }

  lemma BeginCase(c: Ctx, readOnly: bool, busy: bool)
    requires Inv(c)
    ensures Inv(RollbackActive(c))
    ensures c.active.None? ==> (Inv(Caught(BeginManual(c, readOnly, busy)).ctx) <==> readOnly || !busy)
  {
    RollbackLogged(c);
    if c.active.None? {
      BeginLogged(c.(mode := Manual), readOnly, busy);
    }
  }

  lemma CommitCase(c: Ctx, outcome: CommitOutcome)
    requires Inv(c)
    ensures Inv(RollbackActive(c)) && (Inv(Caught(CommitActive(c, outcome)).ctx) <==> !Late(c, outcome))
  {
    RollbackLogged(c);
    CommitLogged(c, outcome);
  }

  lemma BoundTransact(c: Ctx, s: Statement)
    requires Bound(c, s) && IsTransactionStatement(s)
    ensures Inv(c)
  {
  }

  // Preparing a transaction statement leaves the active transaction as it is.
  lemma PreparedTransact(c: Ctx, s: Statement, e: Env)
    requires Inv(c) && IsTransactionStatement(s) && Prepare(c, s, false, e).success
    ensures Prepare(c, s, false, e).ctx.active == c.active
  {
    if c.mode.Auto? {
      BeginLogged(c, true, e.busy);
      WorkGuarded(BeginInternal(c, true, e.busy).ctx, e.analysisThrows, true, COMMIT_IF_NEW, e.analysisCommit);
    }
  }

  // Preparing ordinary work in auto mode opens a transaction for it; in manual mode it leaves the context alone.
  lemma PreparedWork(c: Ctx, s: Statement, e: Env)
    requires Inv(c) && s.func.Work? && Prepare(c, s, false, e).success
    ensures var p := Prepare(c, s, false, e).ctx;
      p.mode == c.mode && p.active.Some? && (c.mode.Auto? ==> p.active.value.readOnly == s.readOnly)
  {
    AnalyzeKeepsInv(c, e);
    AnalyzeKeepsMode(c, e);
  }

  /**
   The two ways a statement breaks the protocol, both known before it runs: a BEGIN TRANSACTION for
   writing that is refused, and a commit (of the statement's own transaction in auto mode, or by COMMIT)
   that goes through and whose checkpoint then throws outside the part that wraps its exceptions.
  */
  predicate Breaks(c: Ctx, s: Statement, e: Env) {
    match s.func
    case Work(throws) => c.mode.Auto? && !s.readOnly && !throws && e.commit.CleanupFailed?
    case Transact(_, _, _, _) => RefusedBegin(c, s.func) || LateCommit(c, s.func)
  }

  /** The statement does not get as far as breaking the protocol. */
  ghost predicate Fits(c: Ctx, s: Statement, e: Env)
    requires ModeOK(c)
  {
    !(Breaks(c, s, e) && Prepare(c, s, false, e).success)
  }

  /** One statement, with every way it can fail, keeps the invariant exactly when it fits. */
  lemma StatementKeepsInv(c: Ctx, s: Statement, e: Env)
    requires Inv(c)
    ensures Inv(RunStatement(c, s, e).ctx) <==> Fits(c, s, e)
  {
    var p := Prepare(c, s, false, e);
    PreparedIsRunnable(c, s, e);
    if p.success {
      if s.func.Work? {
        PreparedWork(c, s, e);
        ExecuteWork(p.ctx, s, e);
      } else {
        PreparedTransact(c, s, e);
        BoundTransact(p.ctx, s);
        ExecuteTransact(p.ctx, s, e);
      }
    }
  }

  // A refused BEGIN leaves manual mode without a transaction: the next call's first assertion fails.
  lemma RefusedBeginStrands(c: Ctx, s: Statement, e: Env)
    requires Inv(c) && RefusedBegin(c, s.func) && Prepare(c, s, false, e).success
    ensures !Runnable(RunStatement(c, s, e).ctx)
  {
    PreparedIsRunnable(c, s, e);
    PreparedTransact(c, s, e);
  }

  lemma RefusedBeginHappens()
    ensures exists c: Ctx, s: Statement, e: Env :: Inv(c) && !Runnable(RunStatement(c, s, e).ctx)
  {
    var s := Statement(Transact(BeginWrite, true, Done, Nothing), true);
    var e := Env(false, false, true, true, Done, Done, Done);
    assert Inv(FRESH);
    AnalyzeKeepsInv(FRESH, e);
    RefusedBeginStrands(FRESH, s, e);
  }

  lemma EndsGrow(log: seq<Event>, e: Event, id: nat)
    ensures Ends(log + [e], id) == Ends(log, id) + if e == Committed(id) || e == RolledBack(id) then 1 else 0
  {
    assert (log + [e])[..|log|] == log;
  }

  // A writing statement in auto mode whose commit throws late: its transaction is committed and then rolled back.
  lemma LateCommitEndsTwice(c: Ctx, s: Statement, e: Env)
    requires Inv(c) && c.mode.Auto? && s.func == Work(false) && !s.readOnly && e.commit.CleanupFailed?
    requires Prepare(c, s, false, e).success
    ensures var p := Prepare(c, s, false, e).ctx;
      p.active.Some? && Ends(RunStatement(c, s, e).ctx.log, p.active.value.id) == 2
  {
    PreparedIsRunnable(c, s, e);
    PreparedWork(c, s, e);
    hide Prepare;
    hide Execute;
    hide Open;
    hide Newest;
    hide Ends;
    var p := Prepare(c, s, false, e).ctx;
    var b := p.active.value.id;
    EndedOnce(p.log, b);
    BegunOnce(p.log, b);
    EndsGrow(p.log, Committed(b), b);
    EndsGrow(p.log + [Committed(b)], RolledBack(b), b);
    ExecuteLate(p, s, e);
  }

  lemma ExecuteLate(c: Ctx, s: Statement, e: Env)
    requires c.mode.Auto? && c.active.Some? && !c.active.value.readOnly && s.func == Work(false) && e.commit.CleanupFailed?
    ensures Execute(c, s, e).ctx.log == c.log + [Committed(c.active.value.id)] + [RolledBack(c.active.value.id)]
  {
  }

  lemma LateCommitHappens()
    ensures exists c: Ctx, s: Statement, e: Env ::
      Inv(c) && s.func.Work? && Prepare(c, s, false, e).success && !Inv(RunStatement(c, s, e).ctx)
  {
    var s := Statement(Work(false), false);
    var e := Env(false, false, true, false, Done, Done, CleanupFailed);
    assert Inv(FRESH);
    AnalyzeKeepsInv(FRESH, e);
    assert Prepare(FRESH, s, false, e).success;
    StatementKeepsInv(FRESH, s, e);
  }

  // ---- What the statement's transaction is. ----

  /** A statement that writes is executed in a transaction that may write, on a writable database. */
  lemma WritesInWriteTransaction(c: Ctx, s: Statement, e: Env)
    requires Inv(c) && s.func.Work? && !s.readOnly && Prepare(c, s, false, e).success
    ensures var p := Prepare(c, s, false, e).ctx; e.canWrite && p.active.Some? && !p.active.value.readOnly
  {
    AnalyzeKeepsInv(c, e);
  }

  /** In manual mode a statement that goes through leaves the transaction open and begins no other. */
  lemma ManualStatement(c: Ctx, s: Statement, e: Env)
    requires Inv(c) && c.mode.Manual? && s.func.Work? && RunStatement(c, s, e).success
    ensures RunStatement(c, s, e).ctx == c
  {
    PreparedIsRunnable(c, s, e);
  }

  // Work in a new transaction that is committed at the end.
  lemma NewAndCommitted(c: Ctx, readOnly: bool, busy: bool, outcome: CommitOutcome)
    requires Inv(c) && c.mode.Auto?
    ensures var s := RunInTransaction(c, Work(false), readOnly, false, COMMIT_IF_NEW, busy, outcome);
      s.thrown.Nothing? ==> s.ctx == Ctx(Auto, None, c.lastID + 1, c.log + [Began(c.lastID + 1), Committed(c.lastID + 1)])
  {
    assert c.log + [Began(c.lastID + 1), Committed(c.lastID + 1)] == c.log + [Began(c.lastID + 1)] + [Committed(c.lastID + 1)];
  }

  /**
   In auto mode a statement that goes through runs two transactions, one for its analysis and one
   for binding and execution together, and commits both.
  */
  lemma AutoStatement(c: Ctx, s: Statement, e: Env)
    requires Inv(c) && c.mode.Auto? && s.func.Work? && RunStatement(c, s, e).success
    ensures var a, b := c.lastID + 1, c.lastID + 2;
      RunStatement(c, s, e).ctx == Ctx(Auto, None, b, c.log + [Began(a), Committed(a)] + [Began(b), Committed(b)])
  {
    AnalyzeKeepsInv(c, e);
    PreparedIsRunnable(c, s, e);
    AnalysisDone(c, e);
    hide Analyze;
    hide Bind;
    hide Execute;
    var mid := Analyze(c, e).ctx;
    BindOpens(mid, s, e);
    ExecuteCommits(Bind(mid, s, false, e).ctx, s, e);
    var b := c.lastID + 2;
    assert mid.log + [Began(b)] + [Committed(b)] == mid.log + [Began(b), Committed(b)];
  }

  lemma AnalysisDone(c: Ctx, e: Env)
    requires Inv(c) && c.mode.Auto?
    ensures Analyze(c, e).thrown.Nothing? ==>
      Analyze(c, e).ctx == Ctx(Auto, None, c.lastID + 1, c.log + [Began(c.lastID + 1), Committed(c.lastID + 1)])
  {
    if !e.analysisThrows {
      NewAndCommitted(c, true, e.busy, e.analysisCommit);
    }
  }

  lemma BindOpens(c: Ctx, s: Statement, e: Env)
    requires Inv(c) && c.mode.Auto? && s.func.Work?
    ensures Bind(c, s, false, e).thrown.Nothing? ==>
      Bind(c, s, false, e).ctx == Ctx(Auto, Some(Txn(c.lastID + 1, s.readOnly)), c.lastID + 1, c.log + [Began(c.lastID + 1)])
  {
  }

  lemma ExecuteCommits(c: Ctx, s: Statement, e: Env)
    requires c.mode.Auto? && c.active.Some? && s.func.Work?
    ensures Execute(c, s, e).thrown.Nothing? ==>
      Execute(c, s, e).ctx == Ctx(Auto, None, c.lastID, c.log + [Committed(c.active.value.id)])
  {
  }

  // ---- Whole runs. ----

  datatype Call =
    | Query(statements: seq<(Statement, Env)>)
    | PrepareOnly(statement: Statement, env: Env)
    | ExecutePrepared(statement: Statement, env: Env)

  /** The statements of a query run until one fails; none that runs is a BEGIN TRANSACTION that is refused. */
  ghost predicate QueryUnrefused(c: Ctx, statements: seq<(Statement, Env)>)
    requires ModeOK(c)
    decreases |statements|
  {
    statements == [] ||
    (var (s, e) := statements[0];
     StatementKeepsMode(c, s, e);
     var r := RunStatement(c, s, e);
     Unrefused(c, s, e) && (r.success ==> QueryUnrefused(r.ctx, statements[1..])))
  }

  function RunQuery(c: Ctx, statements: seq<(Statement, Env)>): (r: Ctx)
    requires ModeOK(c) && QueryUnrefused(c, statements)
    ensures ModeOK(r)
    decreases |statements|
  {
    if statements == [] then c
    else
      var (s, e) := statements[0];
      StatementKeepsMode(c, s, e);
      var ran := RunStatement(c, s, e);
      if ran.success then RunQuery(ran.ctx, statements[1..]) else ran.ctx
  }

  ghost predicate CallUnrefused(c: Ctx, call: Call)
    requires ModeOK(c)
  {
    match call
    case Query(statements) => QueryUnrefused(c, statements)
    case PrepareOnly(s, e) => true
    case ExecutePrepared(s, e) => Unrefused(c, s, e)
  }

  function RunCall(c: Ctx, call: Call): (r: Ctx)
    requires ModeOK(c) && CallUnrefused(c, call)
    ensures ModeOK(r)
  {
    match call
    case Query(statements) => RunQuery(c, statements)
    case PrepareOnly(s, e) => PrepareKeepsMode(c, s, e); Prepare(c, s, true, e).ctx
    case ExecutePrepared(s, e) => StatementKeepsMode(c, s, e); RunStatement(c, s, e).ctx
  }

  /** No BEGIN TRANSACTION is refused on the run. */
  ghost predicate RunUnrefused(c: Ctx, calls: seq<Call>)
    requires ModeOK(c)
    decreases |calls|
  {
    calls == [] || (CallUnrefused(c, calls[0]) && RunUnrefused(RunCall(c, calls[0]), calls[1..]))
  }

  /**
   Over every run of query, prepare and execute calls, with any exceptions, in which no BEGIN TRANSACTION is
   refused, between calls auto mode means no active transaction and manual mode means one.
  */
  function Run(c: Ctx, calls: seq<Call>): (r: Ctx)
    requires ModeOK(c) && RunUnrefused(c, calls)
    ensures ModeOK(r)
    decreases |calls|
  {
    if calls == [] then c else Run(RunCall(c, calls[0]), calls[1..])
  }

  // ---- Runs that fit. ----

  /** All statements of the query that run fit. */
  ghost predicate QueryFits(c: Ctx, statements: seq<(Statement, Env)>)
    requires ModeOK(c) && QueryUnrefused(c, statements)
    decreases |statements|
  {
    statements == [] ||
    (var (s, e) := statements[0];
     StatementKeepsMode(c, s, e);
     var r := RunStatement(c, s, e);
     Fits(c, s, e) && (r.success ==> QueryFits(r.ctx, statements[1..])))
  }

  lemma {:induction false} QueryKeepsInv(c: Ctx, statements: seq<(Statement, Env)>)
    requires Inv(c) && QueryUnrefused(c, statements) && QueryFits(c, statements)
    ensures Inv(RunQuery(c, statements))
    decreases |statements|
  {
    if statements != [] {
      var (s, e) := statements[0];
      StatementKeepsInv(c, s, e);
      var r := RunStatement(c, s, e);
      if r.success {
        QueryKeepsInv(r.ctx, statements[1..]);
      }
    }
  }

  ghost predicate CallFits(c: Ctx, call: Call)
    requires ModeOK(c) && CallUnrefused(c, call)
  {
    match call
    case Query(statements) => QueryFits(c, statements)
    case PrepareOnly(s, e) => PrepareFits(c, s, e)
    case ExecutePrepared(s, e) => Fits(c, s, e)
  }

  lemma CallKeepsInv(c: Ctx, call: Call)
    requires Inv(c) && CallUnrefused(c, call) && CallFits(c, call)
    ensures Inv(RunCall(c, call))
  {
    match call
    case Query(statements) => QueryKeepsInv(c, statements);
    case PrepareOnly(s, e) => PrepareKeepsInv(c, s, e);
    case ExecutePrepared(s, e) => StatementKeepsInv(c, s, e);
  }

  ghost predicate AllFit(c: Ctx, calls: seq<Call>)
    requires ModeOK(c) && RunUnrefused(c, calls)
    decreases |calls|
  {
    calls == [] || (CallFits(c, calls[0]) && AllFit(RunCall(c, calls[0]), calls[1..]))
  }

  /** On the run no BEGIN TRANSACTION is refused and no commit throws after it went through. */
  ghost predicate RunFits(c: Ctx, calls: seq<Call>)
    requires ModeOK(c)
  {
    RunUnrefused(c, calls) && AllFit(c, calls)
  }

  const FRESH: Ctx := Ctx(Auto, None, 0, [])

  /**
   Over every run of query, prepare and execute calls, with any exceptions, in which no BEGIN
   TRANSACTION is refused and no commit throws after it went through: between calls auto mode
   means no active transaction and manual mode means one, and the log is well-formed.
  */
  lemma {:induction false} RunKeepsInv(c: Ctx, calls: seq<Call>)
    requires Inv(c) && RunFits(c, calls)
    ensures Inv(Run(c, calls))
    decreases |calls|
  {
    if calls != [] {
      CallKeepsInv(c, calls[0]);
      RunKeepsInv(RunCall(c, calls[0]), calls[1..]);
    }
  }

  // ---- Every transaction is ended exactly once. ----

  function Begins(log: seq<Event>, id: nat): nat {
    if log == [] then 0
    else Begins(log[..|log| - 1], id) + if log[|log| - 1] == Began(id) then 1 else 0
  }

  function Ends(log: seq<Event>, id: nat): nat {
    if log == [] then 0
    else
      Ends(log[..|log| - 1], id) +
      if log[|log| - 1] == Committed(id) || log[|log| - 1] == RolledBack(id) then 1 else 0
  }

  lemma {:induction false} EndedOnce(log: seq<Event>, id: nat)
    requires Open(log).Some?
    ensures Begins(log, id) == Ends(log, id) + if Open(log) == Some(Some(id)) then 1 else 0
  {
    if log != [] {
      EndedOnce(log[..|log| - 1], id);
    }
  }

  lemma {:induction false} BegunOnce(log: seq<Event>, id: nat)
    requires Open(log).Some?
    ensures Begins(log, id) <= if id <= Newest(log) then 1 else 0
  {
    if log != [] {
      BegunOnce(log[..|log| - 1], id);
    }
  }

  /**
   Between calls each transaction was begun at most once, and has been ended exactly once unless it is the
   active one, which has not been ended.
  */
  lemma TransactionsEnd(calls: seq<Call>, id: nat)
    requires RunFits(FRESH, calls)
    ensures var c := Run(FRESH, calls);
      && Begins(c.log, id) <= 1
      && Ends(c.log, id) == if c.active.Some? && c.active.value.id == id then 0 else Begins(c.log, id)
  {
    RunKeepsInv(FRESH, calls);
    EndedOnce(Run(FRESH, calls).log, id);
    BegunOnce(Run(FRESH, calls).log, id);
  }

  // ---- How often transactions end when commits may throw after they went through. ----

  /** Reads a log like Open, and lets a rollback follow right behind the commit of the same transaction. */
  function LooseOpen(log: seq<Event>): Option<Option<nat>> {
    if log == [] then Some(None)
    else
      var before := LooseOpen(log[..|log| - 1]);
      match log[|log| - 1]
      case Began(id) => if before == Some(None) && id > Newest(log[..|log| - 1]) then Some(Some(id)) else None
      case Committed(id) => if before == Some(Some(id)) then Some(None) else None
      case RolledBack(id) =>
        if before == Some(Some(id)) || (before == Some(None) && JustCommitted(log[..|log| - 1], id)) then Some(None) else None
  }

  predicate JustCommitted(log: seq<Event>, id: nat) {
    log != [] && log[|log| - 1] == Committed(id)
  }

  lemma LooseGrows(log: seq<Event>, e: Event)
    ensures e.Began? && LooseOpen(log) == Some(None) && e.id > Newest(log) ==> LooseOpen(log + [e]) == Some(Some(e.id))
    ensures !e.Began? && LooseOpen(log) == Some(Some(e.id)) ==> LooseOpen(log + [e]) == Some(None)
    ensures e.RolledBack? && LooseOpen(log) == Some(None) && JustCommitted(log, e.id) ==> LooseOpen(log + [e]) == Some(None)
    ensures Newest(log + [e]) == if e.Began? && e.id > Newest(log) then e.id else Newest(log)
  {
    assert (log + [e])[..|log|] == log;
  }

  predicate LooseLogged(c: Ctx) {
    LooseOpen(c.log) == Some(if c.active.Some? then Some(c.active.value.id) else None) && Newest(c.log) <= c.lastID
  }

  lemma BeginLoose(c: Ctx, readOnly: bool, busy: bool)
    requires c.active.None? && LooseLogged(c)
    ensures LooseLogged(BeginInternal(c, readOnly, busy).ctx)
  {
    hide LooseOpen, Newest;
    LooseGrows(c.log, Began(c.lastID + 1));
  }

  lemma RollbackLoose(c: Ctx)
    requires LooseLogged(c)
    ensures LooseLogged(RollbackActive(c)) && LooseLogged(Clear(RollbackActive(c)))
  {
    hide LooseOpen, Newest;
    if c.active.Some? {
      LooseGrows(c.log, RolledBack(c.active.value.id));
    }
  }

  lemma CommitLoose(c: Ctx, outcome: CommitOutcome)
    requires LooseLogged(c)
    ensures LooseLogged(Caught(CommitActive(c, outcome)).ctx)
  {
    hide LooseOpen, Newest;
    if c.active.Some? {
      var id := c.active.value.id;
      LooseGrows(c.log, Committed(id));
      LooseGrows(c.log + [Committed(id)], RolledBack(id));
      RollbackLoose(c);
    }
  }

  lemma TransactLoose(c: Ctx, f: Func)
    requires LooseLogged(c) && f.Transact?
    ensures LooseLogged(Caught(RunTransact(c, f)).ctx)
    ensures RunTransact(c, f).thrown.Nothing? ==> LooseLogged(RunTransact(c, f).ctx)
  {
    hide LooseOpen, Newest;
    RollbackLoose(c);
    CommitLoose(c, f.commit);
    if c.active.None? {
      BeginLoose(c.(mode := Manual), true, f.busy);
      BeginLoose(c.(mode := Manual), false, f.busy);
    }
  }

  lemma GuardedLoose(c: Ctx, f: Func, isNew: bool, action: CommitAction, outcome: CommitOutcome)
    requires LooseLogged(c)
    ensures LooseLogged(Guarded(c, f, isNew, action, outcome).ctx)
  {
    hide LooseLogged, CommitActive, RunTransact;
    var done := RunFunc(c, f);
    if f.Transact? {
      TransactLoose(c, f);
    } else {
      RollbackLoose(c);
    }
    if done.thrown.Nothing? {
      CommitLoose(done.ctx, outcome);
    }
  }

  lemma RunLoose(c: Ctx, f: Func, readOnly: bool, isTransactionStatement: bool, action: CommitAction, busy: bool,
                 outcome: CommitOutcome)
    requires LooseLogged(c) && Runnable(c)
    ensures LooseLogged(RunInTransaction(c, f, readOnly, isTransactionStatement, action, busy, outcome).ctx)
  {
    hide LooseLogged, Guarded;
    if NeedsNew(c, isTransactionStatement) {
      BeginLoose(c, readOnly, busy);
      GuardedLoose(BeginInternal(c, readOnly, busy).ctx, f, true, action, outcome);
    } else {
      GuardedLoose(c, f, false, action, outcome);
    }
  }

  lemma PrepareLoose(c: Ctx, s: Statement, commitNew: bool, e: Env)
    requires ModeOK(c) && LooseLogged(c)
    ensures LooseLogged(Prepare(c, s, commitNew, e).ctx)
  {
    hide LooseLogged, RunInTransaction;
    AnalyzeKeepsModeOK(c, e);
    RunLoose(c, Work(e.analysisThrows), true, false, COMMIT_IF_NEW, e.busy, e.analysisCommit);
    RunLoose(Analyze(c, e).ctx, Work(e.bindThrows), s.readOnly, IsTransactionStatement(s), GetAction(commitNew, false),
             e.busy, e.bindCommit);
  }

  lemma StatementLoose(c: Ctx, s: Statement, e: Env)
    requires ModeOK(c) && LooseLogged(c)
    ensures LooseLogged(RunStatement(c, s, e).ctx)
  {
    hide LooseLogged, RunInTransaction, Prepare;
    PrepareLoose(c, s, false, e);
    PreparedMode(c, s, e);
    RunLoose(Prepare(c, s, false, e).ctx, s.func, s.readOnly, IsTransactionStatement(s),
             GetAction(true, !IsTransactionStatement(s)), e.busy, e.commit);
  }

  lemma {:induction false} QueryLoose(c: Ctx, statements: seq<(Statement, Env)>)
    requires ModeOK(c) && QueryUnrefused(c, statements) && LooseLogged(c)
    ensures LooseLogged(RunQuery(c, statements))
    decreases |statements|
  {
    hide LooseLogged, RunStatement;
    if statements != [] {
      var (s, e) := statements[0];
      StatementLoose(c, s, e);
      StatementKeepsMode(c, s, e);
      var r := RunStatement(c, s, e);
      if r.success {
        QueryLoose(r.ctx, statements[1..]);
      }
    }
  }

  lemma {:induction false} RunsLoose(c: Ctx, calls: seq<Call>)
    requires ModeOK(c) && RunUnrefused(c, calls) && LooseLogged(c)
    ensures LooseLogged(Run(c, calls))
    decreases |calls|
  {
    hide LooseLogged, Prepare, RunStatement, RunQuery;
    if calls != [] {
      match calls[0] {
        case Query(statements) => QueryLoose(c, statements);
        case PrepareOnly(s, e) => PrepareLoose(c, s, true, e);
        case ExecutePrepared(s, e) => StatementLoose(c, s, e);
      }
      RunsLoose(RunCall(c, calls[0]), calls[1..]);
    }
  }

  /** The transaction was committed and right behind that rolled back. */
  ghost predicate EndedTwice(log: seq<Event>, id: nat) {
    exists i :: 0 < i < |log| && log[i] == RolledBack(id) && log[i - 1] == Committed(id)
  }

  lemma EndedTwiceGrows(log: seq<Event>, id: nat)
    requires log != []
    ensures var before := log[..|log| - 1];
      EndedTwice(log, id) <==> EndedTwice(before, id) || (log[|log| - 1] == RolledBack(id) && JustCommitted(before, id))
  {
    var before := log[..|log| - 1];
    if i :| 0 < i < |before| && before[i] == RolledBack(id) && before[i - 1] == Committed(id) {
      assert log[i] == RolledBack(id) && log[i - 1] == Committed(id);
    }
    if i :| 0 < i < |log| && log[i] == RolledBack(id) && log[i - 1] == Committed(id) {
      assert i < |before| ==> before[i] == RolledBack(id) && before[i - 1] == Committed(id);
    }
  }

  /** In such a log an id is begun at most once; what was begun and is not open has been ended once, or twice. */
  lemma {:induction false} LooseEnds(log: seq<Event>, id: nat)
    requires LooseOpen(log).Some?
    ensures Begins(log, id) <= if id <= Newest(log) then 1 else 0
    ensures LooseOpen(log) == Some(Some(id)) ==> Begins(log, id) == 1 && Ends(log, id) == 0 && !EndedTwice(log, id)
    ensures LooseOpen(log) != Some(Some(id)) ==> Ends(log, id) == Begins(log, id) + if EndedTwice(log, id) then 1 else 0
    ensures EndedTwice(log, id) ==> Begins(log, id) == 1
    ensures JustCommitted(log, id) ==> Begins(log, id) == 1 && !EndedTwice(log, id)
  {
    if log != [] {
      hide EndedTwice;
      LooseEnds(log[..|log| - 1], id);
      EndedTwiceGrows(log, id);
    }
  }

  /**
   Over every run in which no BEGIN TRANSACTION is refused each transaction is begun at most once, and one that was
   begun and is not active has been ended: once, or twice exactly if it was committed and then rolled back.
  */
  lemma RunEnds(calls: seq<Call>, id: nat)
    requires RunUnrefused(FRESH, calls)
    ensures var c := Run(FRESH, calls);
      && Begins(c.log, id) <= 1
      && Ends(c.log, id) == if c.active.Some? && c.active.value.id == id then 0
                            else Begins(c.log, id) + if EndedTwice(c.log, id) then 1 else 0
  {
    RunsLoose(FRESH, calls);
    LooseEnds(Run(FRESH, calls).log, id);
  }

  // ---- The connection object. ----

  class ClientContext {
    var mode: Mode
    var active: Option<Txn>
    var lastID: nat
    var log: seq<Event>

    function State(): Ctx
      reads this
    {
      Ctx(mode, active, lastID, log)
    }

    constructor ()
      ensures State() == FRESH && Inv(State())
    {
      mode, active, lastID, log := Auto, None, 0, [];
    }

    method BeginTransactionInternal(readOnly: bool, busy: bool) returns (thrown: Thrown)
      requires active.None?
      modifies this
      ensures Step(State(), thrown) == BeginInternal(old(State()), readOnly, busy)
    {
      if !readOnly && busy {
        return Other;
      }
      lastID := lastID + 1;
      log := log + [Began(lastID)];
      active := Some(Txn(lastID, readOnly));
      return Nothing;
    }

    method BeginManualTransaction(readOnly: bool, busy: bool) returns (thrown: Thrown)
      requires active.None?
      modifies this
      ensures Step(State(), thrown) == BeginManual(old(State()), readOnly, busy)
    {
      mode := Manual;
      thrown := BeginTransactionInternal(readOnly, busy);
    }

    method ClearTransaction()
      modifies this
      ensures State() == Clear(old(State()))
    {
      active := None;
      mode := Auto;
    }

    method CommitTransaction(outcome: CommitOutcome) returns (thrown: Thrown)
      modifies this
      ensures Step(State(), thrown) == CommitActive(old(State()), outcome)
    {
      if active.None? {
        return Nothing;
      }
      if outcome.CommitFailed? {
        return Other;
      }
      log := log + [Committed(active.value.id)];
      if outcome.CheckpointFailed? && !active.value.readOnly {
        return Checkpoint;
      }
      if outcome.CleanupFailed? && !active.value.readOnly {
        return Other;
      }
      ClearTransaction();
      return Nothing;
    }

    method RollbackTransaction()
      modifies this
      ensures State() == RollbackActive(old(State()))
    {
      if active.None? {
        return;
      }
      log := log + [RolledBack(active.value.id)];
      ClearTransaction();
    }

    method RunFunction(f: Func) returns (thrown: Thrown)
      modifies this
      ensures Step(State(), thrown) == RunFunc(old(State()), f)
    {
      match f
      case Work(throws) => thrown := if throws then Other else Nothing;
      case Transact(action, busy, commit, checkpoint) =>
        match action {
          case BeginRead =>
            if active.Some? {
              return Other;
            }
            thrown := BeginManualTransaction(true, busy);
          case BeginWrite =>
            if active.Some? {
              return Other;
            }
            thrown := BeginManualTransaction(false, busy);
          case Commit =>
            if active.None? {
              return Other;
            }
            thrown := CommitTransaction(commit);
          case Rollback =>
            if active.None? {
              return Other;
            }
            RollbackTransaction();
            thrown := Nothing;
          case DoCheckpoint =>
            if active.Some? {
              return Other;
            }
            thrown := checkpoint;
        }
    }

    // The exception handlers.
    method Handle(thrown: Thrown)
      modifies this
      ensures Step(State(), thrown) == Caught(Step(old(State()), thrown))
    {
      match thrown
      case Nothing =>
      case Checkpoint => ClearTransaction();
      case Other => RollbackTransaction();
    }

    // The guarded part: the function, and the commit if there is one.
    method Protected(f: Func, isNew: bool, action: CommitAction, outcome: CommitOutcome) returns (thrown: Thrown)
      modifies this
      ensures Step(State(), thrown) == Guarded(old(State()), f, isNew, action, outcome)
    {
      hide RunFunc;
      hide CommitActive;
      hide Caught;
      thrown := RunFunction(f);
      if thrown.Nothing? && ((isNew && CommitIfNew(action)) || (mode.Auto? && CommitIfAuto(action))) {
        thrown := CommitTransaction(outcome);
      }
      Handle(thrown);
    }

    method RunFuncInTransaction(f: Func, readOnly: bool, isTransactionStatement: bool, action: CommitAction, busy: bool,
                                outcome: CommitOutcome) returns (thrown: Thrown)
      requires Runnable(State())
      modifies this
      ensures Step(State(), thrown) ==
        RunInTransaction(old(State()), f, readOnly, isTransactionStatement, action, busy, outcome)
    {
      hide Guarded;
      hide BeginInternal;
      var requireNewTransaction := mode.Auto? && active.None? && !isTransactionStatement;
      if requireNewTransaction {
        thrown := BeginTransactionInternal(readOnly, busy);
        if !thrown.Nothing? {
          return;
        }
      }
      thrown := Protected(f, requireNewTransaction, action, outcome);
    }

    method PrepareNoLock(s: Statement, shouldCommitNewTransaction: bool, e: Env) returns (success: bool)
      requires ModeOK(State())
      modifies this
      ensures Prepared(State(), success) == Prepare(old(State()), s, shouldCommitNewTransaction, e)
    {
      hide RunInTransaction;
      ghost var before := State();
      AnalyzeKeepsModeOK(before, e);
      var thrown := RunFuncInTransaction(Work(e.analysisThrows), true, false, COMMIT_IF_NEW, e.busy, e.analysisCommit);
      if !thrown.Nothing? {
        return false;
      }
      if !e.canWrite && !s.readOnly {
        return false;
      }
      if RequireTransaction(s) && active.Some? {
        assert !mode.Auto?;
        if active.value.readOnly && !s.readOnly {
          return false;
        }
      }
      thrown := RunFuncInTransaction(Work(e.bindThrows), s.readOnly, IsTransactionStatement(s),
                                     GetAction(shouldCommitNewTransaction, false), e.busy, e.bindCommit);
      return thrown.Nothing?;
    }

    method ExecuteNoLock(s: Statement, success: bool, e: Env) returns (done: bool)
      requires Runnable(State())
      modifies this
      ensures if success then State() == Execute(old(State()), s, e).ctx && done == Execute(old(State()), s, e).thrown.Nothing?
              else State() == old(State()) && !done
    {
      if !success {
        return false;
      }
      var thrown := RunFuncInTransaction(s.func, s.readOnly, IsTransactionStatement(s),
                                         GetAction(true, !IsTransactionStatement(s)), e.busy, e.commit);
      return thrown.Nothing?;
    }

    // Statements run one after the other until one fails.
    method QueryNoLock(statements: seq<(Statement, Env)>)
      requires ModeOK(State()) && QueryUnrefused(State(), statements)
      modifies this
      ensures ModeOK(State()) && State() == RunQuery(old(State()), statements)
    {
      assert statements[0..] == statements;
      for i := 0 to |statements|
        invariant ModeOK(State()) && QueryUnrefused(State(), statements[i..])
        invariant RunQuery(State(), statements[i..]) == RunQuery(old(State()), statements)
      {
        var (s, e) := statements[i];
        ghost var c := State();
        assert statements[i..][1..] == statements[i + 1..];
        StatementKeepsMode(c, s, e);
        PreparedMode(c, s, e);
        var success := PrepareNoLock(s, false, e);
        var done := ExecuteNoLock(s, success, e);
        assert Prepared(State(), done) == RunStatement(c, s, e);
        if !done {
          return;
        }
      }
    }
  }
}
