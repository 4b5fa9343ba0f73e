# Verified core of Ladybug

Ladybug is an embedded graph database. This project models two parts of it in which
a stateful form is meant to agree with a much simpler one, and proves how far it does:

- the statement and transaction protocol of a connection (`client_protocol.dfy`),
  and how its statements, calls and runs end (`client_outcomes.dfy`);
- CASE over vectors (`case_evaluator.dfy`).

Code that changes state is a class or a method with loops, proved against
functions and predicates on values; the properties of whole runs are lemmas about
those. What the protocol calls (analysis, binding, execution, the transaction manager)
is given by an environment. Exceptions are result values.

Where a property the code seems to promise does not hold for all inputs, the
model keeps the code as it is and states exactly when it holds:

- a BEGIN TRANSACTION that is refused because another connection is writing sets
  manual mode before it fails, and leaves the connection in manual mode without a
  transaction; and a commit that goes through, with a checkpoint behind it that
  throws outside the part that wraps its exceptions, is followed by a rollback of
  the transaction that has already ended (`ClientProtocol.StatementKeepsInv`);
- a CASE whose WHEN is a bare column, another CASE, or on a single row a function
  without a select of its own fills the wrong rows
  (`CaseEvaluator.EvaluateRightIff`), and a bare column in it can change which rows
  are selected (`CaseEvaluator.SelectionStaysIff`).

`dafny verify dfyconfig.toml` checks the whole project.

## Model

| member | source | states |
|---|---|---|
| ClientProtocol.RunKeepsInv | lbug-src/src/main/client_context.cpp:363-619 | over every run of query, prepare and execute calls, with any exceptions, in which no BEGIN TRANSACTION is refused and no commit throws after it went through, between calls auto mode means no active transaction and manual mode means one, and every transaction was begun and ended in order |
| ClientProtocol.Run | lbug-src/src/main/client_context.cpp:363-619 | over every run in which no BEGIN TRANSACTION is refused, with any exceptions and also with commits that throw after they went through, between calls auto mode means no active transaction and manual mode means one |
| ClientProtocol.StatementKeepsMode | lbug-src/src/main/client_context.cpp:464-619 | one statement keeps mode and active transaction in step if and only if it is not a BEGIN TRANSACTION that gets to execution and is refused |
| ClientProtocol.StatementKeepsInv | lbug-src/src/main/client_context.cpp:464-619 | one statement keeps this exactly when it is neither a BEGIN TRANSACTION for writing that gets to execution while the manager refuses writers nor one whose writing transaction is committed with a checkpoint that then throws outside the part that wraps its exceptions; both assertions of the code hold on the way |
| ClientProtocol.RefusedBeginStrands | lbug-src/src/transaction/transaction_context.cpp:24-28 | a refused BEGIN leaves manual mode without a transaction, so that the next call's assertion fails |
| ClientProtocol.RefusedBeginHappens | lbug-src/src/transaction/transaction_context.cpp:24-28 | an input on which this happens |
| ClientProtocol.LateCommitEndsTwice | lbug-src/src/transaction/transaction_manager.cpp:204-256 | a writing statement in auto mode with such a commit ends its transaction twice: it is committed (lbug-src/src/transaction/transaction_manager.cpp:60-91) and then rolled back |
| ClientProtocol.LateCommitHappens | lbug-src/src/transaction/transaction_manager.cpp:204-256 | an input on which this breaks the invariant |
| ClientProtocol.TransactionsEnd | lbug-src/src/main/client_context.cpp:597-619 | over such runs every transaction is begun at most once and ended exactly once, but for an active one, which has not been ended |
| ClientProtocol.RunEnds | lbug-src/src/main/client_context.cpp:597-619 | over all those runs each transaction is begun at most once, and one that is not active has been ended once, or twice exactly if it was committed and right behind that rolled back |
| ClientProtocol.LooseEnds | lbug-src/src/main/client_context.cpp:597-619 | the same of every log in which a rollback may follow right behind the commit of the same transaction |
| ClientProtocol.EndedOnce | lbug-src/src/main/client_context.cpp:597-619 | in a well-formed log each begin has its one end, but for the open one |
| ClientProtocol.BegunOnce | lbug-src/src/transaction/transaction_manager.cpp:31-49 | no id is begun twice |
| ClientProtocol.PrepareKeepsInv | lbug-src/src/main/client_context.cpp:464-511 | preparing alone commits what it began, and keeps the invariant exactly when that commit does not throw after it went through |
| ClientProtocol.BindLeaves | lbug-src/src/main/client_context.cpp:482-502 | binding without commit leaves the statement's own transaction open in auto mode, and nothing else |
| ClientProtocol.ExecuteWork | lbug-src/src/main/client_context.cpp:513-569 | executing ends the statement's own transaction whether the work or the commit throws or not, and once exactly if the commit does not throw after it went through |
| ClientProtocol.ExecuteTransact | lbug-src/src/processor/operator/transaction.cpp:21-80 | transaction statements keep the invariant exactly if no begin is refused and no commit throws after it went through |
| ClientProtocol.WritesInWriteTransaction | lbug-src/src/main/client_context.cpp:454-462 | a writing statement that is prepared runs in a transaction that may write, on a writable database |
| ClientProtocol.ManualStatement | lbug-src/src/main/client_context.cpp:595-619 | in manual mode a statement that goes through neither ends the transaction nor begins one |
| ClientProtocol.AutoStatement | lbug-src/src/main/client_context.cpp:464-569 | in auto mode a statement that goes through begins and commits exactly two transactions, the second for binding and execution together |
| ClientProtocol.GetAction | lbug-src/src/main/client_context.cpp:581-593 | the action says when to commit |
| ClientProtocol.ClientContext.RunFuncInTransaction | lbug-src/src/main/client_context.cpp:597-619 | new transaction if needed, function, commit, handlers |
| ClientProtocol.ClientContext.RunFunction | lbug-src/src/processor/operator/transaction.cpp:21-80 | ordinary work, or a transaction statement with its checks |
| ClientProtocol.ClientContext.PrepareNoLock | lbug-src/src/main/client_context.cpp:464-511 | analysis, validation, binding |
| ClientProtocol.ClientContext.ExecuteNoLock | lbug-src/src/main/client_context.cpp:513-569 | execution of a prepared statement |
| ClientProtocol.ClientContext.QueryNoLock | lbug-src/src/main/client_context.cpp:369-415 | statements one after the other until one fails |
| ClientProtocol.ClientContext.CommitTransaction | lbug-src/src/transaction/transaction_context.cpp:55-61 | ends the transaction, with a checkpoint behind it that may fail in two ways, or throws and leaves it to the handler |
| ClientProtocol.ClientContext.RollbackTransaction | lbug-src/src/transaction/transaction_context.cpp:63-70 | ends the transaction if there is one |
| ClientProtocol.ClientContext.BeginManualTransaction | lbug-src/src/transaction/transaction_context.cpp:18-28 | sets manual mode first, then begins |
| ClientOutcomes.PrepareSucceedsIff | lbug-src/src/main/client_context.cpp:464-511 | preparing succeeds if and only if the analysis does not throw and, in auto mode, its commit does not fail; the statement reads or the database is writable; a write in manual mode has a transaction that may write; and binding does not throw, meets no busy manager when it begins a writing transaction, and has its commit, if one is due, reported as done |
| ClientOutcomes.PrepareInAuto | lbug-src/src/main/client_context.cpp:464-511 | the whole state preparing leaves in auto mode, for every way it can fail: the analysis in one transaction, binding in the next, and how each ended |
| ClientOutcomes.PrepareInManual | lbug-src/src/main/client_context.cpp:454-502 | in manual mode preparing begins nothing; a statement that is not allowed leaves the transaction open, an analysis or a binding that throws rolls it back |
| ClientOutcomes.WorkInAuto | lbug-src/src/main/client_context.cpp:513-619 | a prepared statement in auto mode: the exact log, and success exactly if the work does not throw and the commit is done, or does not fail and only read |
| ClientOutcomes.WorkEnds | lbug-src/src/main/client_context.cpp:605-618 | the statement's own transaction is committed if and only if the work does not throw and the commit does not fail, and rolled back if and only if the work throws, the commit fails, or it goes through and throws late |
| ClientOutcomes.WorkInManual | lbug-src/src/main/client_context.cpp:597-619 | in manual mode a statement goes through and leaves the transaction open, is refused and leaves it open, or throws in analysis, binding or work, which rolls it back and leaves auto mode |
| ClientOutcomes.TransactInManual | lbug-src/src/processor/operator/transaction.cpp:21-80 | inside a transaction: COMMIT appends its commit, also when the checkpoint behind it fails and the statement with it, or rolls back if the commit fails; ROLLBACK appends exactly a rollback; BEGIN and CHECKPOINT fail, which rolls the transaction back |
| ClientOutcomes.TransactInAuto | lbug-src/src/processor/operator/transaction.cpp:21-80 | outside a transaction: BEGIN opens a reading or a writing transaction in manual mode, CHECKPOINT succeeds exactly if the checkpoint does, COMMIT and ROLLBACK fail |
| ClientOutcomes.AutoSucceedsIff | lbug-src/src/main/client_context.cpp:369-569 | in auto mode ordinary work succeeds if and only if none of the things that can go wrong does, and then leaves two committed transactions |
| ClientOutcomes.QueryRuns | lbug-src/src/main/client_context.cpp:380-392 | a query runs its statements in order, each in the context the one before left, up to the first that fails |
| ClientOutcomes.TraceDecides | lbug-src/src/main/client_context.cpp:380-392 | no other sequence of contexts fits a query |
| ClientOutcomes.QueryCounts | lbug-src/src/main/client_context.cpp:380-392 | n statements with which nothing goes wrong begin and commit exactly 2n transactions, in order |
| ClientOutcomes.CallRuns | lbug-src/src/main/client_context.cpp:363-415 | a call leaves exactly what its query, its prepare or its statement leaves |
| ClientOutcomes.RunRuns | lbug-src/src/main/client_context.cpp:363-415 | a run makes all its calls in order, each in the context the one before left, whether that one failed or not |
| ClientOutcomes.RunDecides | lbug-src/src/main/client_context.cpp:363-415 | no other sequence of contexts fits a run |
| ClientOutcomes.RunCounts | lbug-src/src/main/client_context.cpp:363-415 | a run with which nothing goes wrong begins and commits exactly two transactions for each of its statements, in order |
| CaseEvaluator.EvaluateRightIff | lbug-src/src/expression_evaluator/case_evaluator.cpp:27-49 | every selected row gets the THEN of the first alternative whose WHEN is a non-null true, else the ELSE, for all contents of columns and selection vectors, if and only if every WHEN is exact, which shows before the call: it is not an unflat bare column unless row 0 is all that is selected, not an unflat function without a select of its own on a single row, and not a CASE |
| CaseEvaluator.BareColumn | lbug-src/src/expression_evaluator/reference_evaluator.cpp:14-32 | a WHEN that is a bare column, true for the second of two rows: the first row takes the THEN and the second the ELSE; lbug-src/src/processor/map/expression_mapper.cpp:57-58 makes such a WHEN |
| CaseEvaluator.BareColumnFiltered | lbug-src/src/expression_evaluator/reference_evaluator.cpp:23-29 | on a filtered batch such a WHEN also overwrites the shared selection, so that a selected row is left out |
| CaseEvaluator.LeftoverRow | lbug-src/src/expression_evaluator/function_evaluator.cpp:46-58 | one row and a function without a select: its vector is left over from an earlier batch, so that a true row has the rows listed there take the THEN, and itself keeps its old value if exactly one is listed |
| CaseEvaluator.SelectionStaysIff | lbug-src/src/expression_evaluator/reference_evaluator.cpp:14-32 | selecting by a WHEN, also a nested CASE of any depth, leaves the selected rows as they were for all contents if and only if the selection is not filtered, has at most one row, or no unflat bare column occurs in the WHEN |
| CaseEvaluator.AllLeaveSelected | lbug-src/src/expression_evaluator/case_evaluator.cpp:27-49 | evaluating a CASE never selects a row that was not selected |
| CaseEvaluator.CaseExpressionEvaluator.Evaluate | lbug-src/src/expression_evaluator/case_evaluator.cpp:27-49 | the loop leaves result, filled rows, selection and the WHENs' own vectors as the reference evaluation does; with exact WHENs every selected row has its CASE value and, if any is selected, no other row changes |
| CaseEvaluator.CaseExpressionEvaluator.Turn | lbug-src/src/expression_evaluator/case_evaluator.cpp:29-46 | one alternative, with the early return, is one step of the reference evaluation |
| CaseEvaluator.CaseExpressionEvaluator.FillRows | lbug-src/src/expression_evaluator/case_evaluator.cpp:82-96 | the listed rows still open take their value |
| CaseEvaluator.CaseExpressionEvaluator.FillEntry | lbug-src/src/expression_evaluator/case_evaluator.cpp:98-105 | a filled row is left alone |
| CaseEvaluator.AllFilled | lbug-src/src/expression_evaluator/case_evaluator.cpp:43-45 | as many filled rows as selected ones means none is left |
| CaseEvaluator.FirstHolds | lbug-src/src/expression_evaluator/case_evaluator.cpp:29-48 | the row-wise value is that of the first alternative that holds, or the ELSE |
| CaseEvaluator.EvaluateExact | lbug-src/src/expression_evaluator/case_evaluator.cpp:27-49 | with exact WHENs open selected rows take their CASE value, filled rows and rows not selected stay, at any point of the evaluation |
| CaseEvaluator.PickExact | lbug-src/src/expression_evaluator/case_evaluator.cpp:32-42 | an exact WHEN has exactly the selected rows filled for which it holds, and leaves the selection as it was |
| CaseEvaluator.MissesRow | lbug-src/src/expression_evaluator/case_evaluator.cpp:32-42 | an unflat column fills no row but row 0, an untouched vector none, and a CASE never fires |
| CaseEvaluator.StaysAt | lbug-src/src/expression_evaluator/case_evaluator.cpp:27-49 | a row keeps its value if no alternative that can fill it has another one |
| CaseEvaluator.Select | lbug-src/src/expression_evaluator/expression_evaluator.cpp:50-57 | selecting by kind of evaluator: literal, function with and without select (lbug-src/src/expression_evaluator/function_evaluator.cpp:46-58), column, nested CASE |
| CaseEvaluator.CompactTrue | lbug-src/src/include/expression_evaluator/expression_evaluator.h:85-97 | the loop leaves the selected positions of true rows at the front of the vector, in order |
| CaseEvaluator.CompactInPlace | lbug-src/src/expression_evaluator/reference_evaluator.cpp:14-32 | the same into the vector that is being read: writing never overtakes reading |
| CaseEvaluator.SelectInternal | lbug-src/src/expression_evaluator/case_evaluator.cpp:51-68 | as a filter, for a vector of any size up to the result's: the positions are kept at whose number the result holds a true row; with exact WHENs exactly those whose row-wise CASE is a non-null true |
| CaseEvaluator.KeepNumbers | lbug-src/src/expression_evaluator/case_evaluator.cpp:56-66 | the compacting loop of the filter |
| CaseEvaluator.ChosenIs | lbug-src/src/expression_evaluator/case_evaluator.cpp:58-66 | a position is kept exactly if it occurs with its flag set |

## Left out

- CaseEvaluator.EvaluateRightIff: operands, THEN and ELSE are columns; what evaluating them does to the selection when they hold a CASE of their own is not modelled.
- CaseEvaluator.CaseExpressionEvaluator.Evaluate: assertions of debug builds are not modelled; there a CASE in a WHEN throws.
- CaseEvaluator.SelectInternal: the vector passed in and the selection of the result are separate values.
- CaseEvaluator.Select: a function's own select leaves entries behind the selected ones, and on a null flat operand the size, as they were; here they are overwritten as the other loops do.
- ClientProtocol.StatementKeepsInv: a rollback that itself throws is not modelled.
- The multi-version catalog with its undo buffer and its snapshots.
- Null masks, nested-literal readers and printers, MD5, order and hash of nested values, substring search.
- List slices, decimal arithmetic and the overflow-buffer allocator.
- Floating point, dates, regular expressions and everything that calls foreign libraries.
- Function registration and type dispatch, storage, the write-ahead log, checkpoints, the planner and the bindings for other languages: plumbing, or code these properties do not need.
