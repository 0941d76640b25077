/**
 application/transaction.go: the function to run goes to a goroutine of its own, which reports over a
 buffered channel of capacity one, while the caller waits for the report or for a timer and then commits or
 rolls back. Every interleaving of caller, worker and timer is a run of the transition system below.
 */
module Transactions {
  import opened Prelude

  // What the caller, and the function it runs, return: nil or an error.
  datatype Report = Nil | Error

  datatype Caller = Begin | Waiting | Committing | RollingBack | Returned(report: Report)

  // `Unborn` before the goroutine starts, `Running` inside the function, `Sending` when it has returned,
  // `Recovering` when it has panicked and the deferred function is about to send the recovered error.
  datatype Worker = Unborn | Running | Sending(report: Report) | Recovering | Ended

  datatype Timer = Unset | Armed | Fired

  // gormapplication/application.go: finishing a transaction clears its handle, so that any further call on
  // it dereferences nil.
  datatype Handle = Absent | Live | Cleared

  // `begun` counts the transactions begun in the database, whether or not a handle to them was given out.
  datatype Tx = Tx(handle: Handle, begun: nat, commits: nat, rollbacks: nat, crashed: bool)

  datatype Sys = Sys(caller: Caller, worker: Worker, timer: Timer, channel: seq<Report>, sent: nat, tx: Tx)

  const CAPACITY := 1

  const START := Sys(Begin, Unborn, Unset, [], 0, Tx(Absent, 0, 0, 0, false))

  function Commit(tx: Tx): Tx {
    if tx.handle != Live then tx.(crashed := true)
    else tx.(handle := Cleared, commits := tx.commits + 1)
  }

  function Rollback(tx: Tx): Tx {
    if tx.handle != Live then tx.(crashed := true)
    else tx.(handle := Cleared, rollbacks := tx.rollbacks + 1)
  }

  datatype Step =
    | BeginFails | IsolationFails | BeginSucceeds
    | TodoReturns(report: Report) | TodoPanics
    | WorkerSends | WorkerSendsRecovered
    | TimerFires
    | CallerReceives | CallerTimesOut | CallerCommits | CallerRollsBack

  predicate Enabled(s: Sys, step: Step) {
    match step
    case BeginFails => s.caller == Begin
    case IsolationFails => s.caller == Begin
    case BeginSucceeds => s.caller == Begin
    case TodoReturns(_) => s.worker == Running
    case TodoPanics => s.worker == Running
    // a send on a full channel blocks
    case WorkerSends => s.worker.Sending? && |s.channel| < CAPACITY
    case WorkerSendsRecovered => s.worker == Recovering && |s.channel| < CAPACITY
    case TimerFires => s.timer == Armed
    case CallerReceives => s.caller == Waiting && s.channel != []
    case CallerTimesOut => s.caller == Waiting && s.timer == Fired
    case CallerCommits => s.caller == Committing
    case CallerRollsBack => s.caller == RollingBack
  }

  function Next(s: Sys, step: Step): Sys
    requires Enabled(s, step)
  {
    match step
    case BeginFails => s.(caller := Returned(Error))
    // the transaction has begun, but setting its isolation level fails: an error and no handle is returned
    case IsolationFails => s.(caller := Returned(Error), tx := s.tx.(begun := s.tx.begun + 1))
    case BeginSucceeds =>
      s.(caller := Waiting, worker := Running, timer := Armed, tx := s.tx.(handle := Live, begun := s.tx.begun + 1))
    case TodoReturns(report) => s.(worker := Sending(report))
    case TodoPanics => s.(worker := Recovering)
    case WorkerSends => s.(worker := Ended, channel := s.channel + [s.worker.report], sent := s.sent + 1)
    case WorkerSendsRecovered => s.(worker := Ended, channel := s.channel + [Error], sent := s.sent + 1)
    case TimerFires => s.(timer := Fired)
    case CallerReceives => s.(caller := if s.channel[0].Nil? then Committing else RollingBack, channel := s.channel[1..])
    case CallerTimesOut => s.(caller := RollingBack)
    case CallerCommits => s.(caller := Returned(Nil), tx := Commit(s.tx))
    case CallerRollsBack => s.(caller := Returned(Error), tx := Rollback(s.tx))
  }

  // ---- The invariant ----

  // A transaction has begun that nobody has a handle to.
  predicate Abandoned(s: Sys) {
    s.caller == Returned(Error) && s.tx == Tx(Absent, 1, 0, 0, false)
  }

  predicate TxInv(s: Sys) {
    && !s.tx.crashed
    && (s.caller == Begin ==> s == START)
    && (s.caller.Waiting? || s.caller.Committing? || s.caller.RollingBack? ==> s.tx == Tx(Live, 1, 0, 0, false))
    && (s.caller == Returned(Nil) ==> s.tx == Tx(Cleared, 1, 1, 0, false))
    && (s.caller == Returned(Error) ==>
          s.tx == Tx(Cleared, 1, 0, 1, false) || (s.worker == Unborn && (s.tx == START.tx || Abandoned(s))))
    && (s.worker == Unborn ==> (s.tx == START.tx || Abandoned(s)) && (s.caller == Begin || s.caller == Returned(Error)))
  }

  predicate ChannelInv(s: Sys) {
    && s.sent == (if s.worker == Ended then 1 else 0)
    && |s.channel| <= s.sent
    && (s.caller == Waiting ==> |s.channel| == s.sent)
    && (s.worker == Unborn <==> s.timer == Unset)
  }

  predicate Inv(s: Sys) {
    TxInv(s) && ChannelInv(s)
  }

  lemma NextKeepsInv(s: Sys, step: Step)
    requires Inv(s) && Enabled(s, step)
    ensures Inv(Next(s, step))
  {
  }

  // ---- Runs, their length and how they end ----

  function Rank(s: Sys): nat {
    (match s.caller
     case Begin => 6
     case Waiting => 2
     case Committing => 1
     case RollingBack => 1
     case Returned(_) => 0)
    +
    (match s.worker
     case Unborn => 0
     case Running => 2
     case Sending(_) => 1
     case Recovering => 1
     case Ended => 0)
    +
    (match s.timer case Unset => 0 case Armed => 1 case Fired => 0)
  }

  predicate CanRun(s: Sys, steps: seq<Step>)
    decreases |steps|
  {
    steps == [] || (Enabled(s, steps[0]) && CanRun(Next(s, steps[0]), steps[1..]))
  }

  function After(s: Sys, steps: seq<Step>): Sys
    requires CanRun(s, steps)
    decreases |steps|
  {
    if steps == [] then s else After(Next(s, steps[0]), steps[1..])
  }

  // Every step uses up rank, so no run is longer than the rank it starts with.
  lemma {:induction false} RunsKeepInvAndEnd(s: Sys, steps: seq<Step>)
    requires Inv(s) && CanRun(s, steps)
    ensures Inv(After(s, steps))
    ensures Rank(After(s, steps)) + |steps| <= Rank(s)
    decreases |steps|
  {
    if steps != [] {
      NextKeepsInv(s, steps[0]);
      RunsKeepInvAndEnd(Next(s, steps[0]), steps[1..]);
    }
  }

  ghost predicate Stuck(s: Sys) {
    forall step :: !Enabled(s, step)
  }

  // Nothing ever waits forever: what can no longer move has ended.
  lemma StuckMeansDone(s: Sys)
    requires Inv(s) && Stuck(s)
    ensures s.caller.Returned? && (s.worker == Ended || s.worker == Unborn)
  {
    assert !Enabled(s, BeginFails) && !Enabled(s, TodoPanics) && !Enabled(s, WorkerSends) && !Enabled(s, WorkerSendsRecovered);
    assert !Enabled(s, TimerFires) && !Enabled(s, CallerTimesOut) && !Enabled(s, CallerCommits) && !Enabled(s, CallerRollsBack);
  }

  // The caller does not depend on the worker: even if the function never returns, the timer gets it out.
  lemma CallerNeedsNoWorker(s: Sys)
    requires Inv(s) && !s.caller.Returned?
    ensures exists step :: Enabled(s, step) &&
              (step.BeginFails? || step.TimerFires? || step.CallerTimesOut? || step.CallerCommits? || step.CallerRollsBack?)
  {
    match s.caller
    case Begin => assert Enabled(s, BeginFails);
    case Waiting => assert if s.timer == Armed then Enabled(s, TimerFires) else Enabled(s, CallerTimesOut);
    case Committing => assert Enabled(s, CallerCommits);
    case RollingBack => assert Enabled(s, CallerRollsBack);
  }

  lemma {:induction false} AbandonedIff(s: Sys, steps: seq<Step>)
    requires Inv(s) && CanRun(s, steps)
    ensures Abandoned(After(s, steps)) <==> Abandoned(s) || IsolationFails in steps
    decreases |steps|
  {
    if steps != [] {
      NextKeepsInv(s, steps[0]);
      AbandonedIff(Next(s, steps[0]), steps[1..]);
      assert IsolationFails in steps <==> steps[0] == IsolationFails || IsolationFails in steps[1..];
    }
  }

  // Every transaction that began in the database is finished, unless its isolation level could not be set.
  lemma FinishedUnlessIsolationFails(steps: seq<Step>)
    requires CanRun(START, steps) && After(START, steps).caller.Returned?
    ensures var tx := After(START, steps).tx;
            tx.commits + tx.rollbacks == tx.begun <==> IsolationFails !in steps
  {
    RunsKeepInvAndEnd(START, steps);
    AbandonedIff(START, steps);
    match After(START, steps).caller
    case Returned(Nil) =>
    case Returned(Error) =>
  }

  // If it could not, the transaction stays open: the run of that one step has ended.
  lemma IsolationFailureAbandons()
    ensures CanRun(START, [IsolationFails]) && Stuck(After(START, [IsolationFails]))
    ensures After(START, [IsolationFails]).tx == Tx(Absent, 1, 0, 0, false)
  {
    assert [IsolationFails][1..] == [];
  }

  // In every run: the handle is never used after it was cleared, Commit is called exactly when nil is
  // returned, a transaction handed out is finished by exactly one call, and the worker sends at most once
  // and is never blocked by the channel.
  lemma EveryRunFinishesOnce(steps: seq<Step>)
    requires CanRun(START, steps)
    ensures var s := After(START, steps);
            && |steps| <= 6
            && !s.tx.crashed
            && s.tx.commits + s.tx.rollbacks <= 1
            && (s.tx.commits == 1 <==> s.caller == Returned(Nil))
            && (s.caller.Returned? ==> (s.tx.commits + s.tx.rollbacks == 1 <==> s.tx.handle != Absent))
            && (s.caller.Returned? ==> s.tx.handle != Live)
            && s.sent <= 1
            && (s.worker.Sending? || s.worker.Recovering? ==> |s.channel| < CAPACITY)
  {
    RunsKeepInvAndEnd(START, steps);
    var s := After(START, steps);
    match s.caller
    case Returned(Nil) =>
    case Returned(Error) =>
    case _ =>
  }

  // ---- What becomes of the report ----

  // The report of the worker on its way to the caller, and what the caller has made of it. `nil` tells whether the
  // function has returned nil, `heard` whether the caller has received.
  predicate Carries(s: Sys, nil: bool, heard: bool) {
    && (s.worker == Unborn || s.worker == Running ==> !nil)
    && (s.worker.Sending? ==> (s.worker.report == Nil <==> nil))
    && (s.worker == Recovering ==> !nil)
    && (heard ==> s.worker == Ended && s.channel == [] && s.caller != Waiting && s.caller != Begin)
    && (!heard && s.worker == Ended ==> s.channel == [if nil then Nil else Error])
    && (!heard && s.worker != Ended ==> s.channel == [])
    && (s.caller == Committing ==> heard && nil)
    && (s.caller == RollingBack ==> heard ==> !nil)
    && (s.caller == Returned(Nil) ==> heard && nil)
    && (s.caller == Returned(Error) ==> heard ==> !nil)
  }

  lemma NextCarries(s: Sys, step: Step, nil: bool, heard: bool)
    requires Inv(s) && Carries(s, nil, heard) && Enabled(s, step)
    ensures Carries(Next(s, step), nil || step == TodoReturns(Nil), heard || step == CallerReceives)
  {
  }

  lemma {:induction false} RunCarries(s: Sys, steps: seq<Step>, nil: bool, heard: bool)
    requires Inv(s) && Carries(s, nil, heard) && CanRun(s, steps)
    ensures Inv(After(s, steps))
    ensures Carries(After(s, steps), nil || TodoReturns(Nil) in steps, heard || CallerReceives in steps)
    decreases |steps|
  {
    if steps != [] {
      var step, rest := steps[0], steps[1..];
      NextKeepsInv(s, step);
      NextCarries(s, step, nil, heard);
      RunCarries(Next(s, step), rest, nil || step == TodoReturns(Nil), heard || step == CallerReceives);
      InParts(steps, TodoReturns(Nil));
      InParts(steps, CallerReceives);
    }
  }

  lemma InParts(steps: seq<Step>, step: Step)
    requires steps != []
    ensures step in steps <==> steps[0] == step || step in steps[1..]
  {
  }

  // The caller commits exactly when it has received the report of a function that returned nil. An error, a panic
  // and a timeout all end in a rollback and an error.
  lemma ReportDecides(steps: seq<Step>)
    requires CanRun(START, steps)
    ensures var s := After(START, steps);
            && (s.tx.commits == 1 ==> CallerReceives in steps && TodoReturns(Nil) in steps)
            && (s.caller.Returned? && CallerReceives in steps ==>
                  && (s.tx.commits == 1 <==> TodoReturns(Nil) in steps)
                  && (s.tx.rollbacks == 1 <==> TodoReturns(Nil) !in steps)
                  && (s.caller == Returned(Nil) <==> TodoReturns(Nil) in steps))
            && (s.caller.Returned? && CallerReceives !in steps ==> s.tx.commits == 0 && s.caller == Returned(Error))
  {
    RunCarries(START, steps, false, false);
    match After(START, steps).caller
    case Returned(Nil) =>
    case Returned(Error) =>
    case _ =>
  }

  // Without a timeout the report does arrive: whatever the function returns has its run.
  lemma ReportArrives(report: Report)
    ensures var steps := [BeginSucceeds, TodoReturns(report), WorkerSends, CallerReceives,
                          if report == Nil then CallerCommits else CallerRollsBack];
            CanRun(START, steps) && After(START, steps).caller == Returned(report)
  {
    var steps := [BeginSucceeds, TodoReturns(report), WorkerSends, CallerReceives,
                  if report == Nil then CallerCommits else CallerRollsBack];
    var s1 := Next(START, steps[0]);
    var s2 := Next(s1, steps[1]);
    var s3 := Next(s2, steps[2]);
    var s4 := Next(s3, steps[3]);
    FirstStep(s4, steps[4..]);
    FirstStep(s3, steps[3..]);
    FirstStep(s2, steps[2..]);
    FirstStep(s1, steps[1..]);
    FirstStep(START, steps);
  }

  lemma FirstStep(s: Sys, steps: seq<Step>)
    requires steps != [] && Enabled(s, steps[0]) && CanRun(Next(s, steps[0]), steps[1..])
    ensures CanRun(s, steps) && After(s, steps) == After(Next(s, steps[0]), steps[1..])
  {
  }
}
