/**
 controller/work_item_comments.go, workItemIncludeCommentsAndTotal: a goroutine counts comments inside
 Transactional and hands the number to the request over an unbuffered channel, which it closes when
 Transactional has returned. The worker of Transactional may still be sending at that moment.
 */
module CommentCount {
  import opened Prelude
  import T = Transactions

  // Inside the function given to Transactional: `Counting` runs the query, `Handing` is blocked in the send
  // on the count channel, and returns `report` once the value is taken.
  datatype Todo = NotStarted | Counting | Handing(value: nat, report: T.Report) | Left

  // The outer goroutine: inside Transactional, about to run its deferred close, and gone.
  datatype Outer = Inside | Closing | Gone

  // `wanted` is how many more receives the request will make (none if it never asks), `received` what it got,
  // `closes` how often the channel has been closed.
  datatype Sys = Sys(tr: T.Sys, todo: Todo, outer: Outer, wanted: nat, received: seq<nat>, handed: nat, closes: nat, panics: nat)

  function Start(wanted: nat): Sys {
    Sys(T.START, NotStarted, Inside, wanted, [], 0, 0, 0)
  }

  datatype Step =
    | Runner(step: T.Step)          // a step of Transactional outside the function
    | CountSucceeds | CountFails | CountPanics
    | HandOver                      // send and receive meet
    | SendOnClosed                  // the send panics
    | RunnerReturns                 // the outer goroutine gets the result of Transactional
    | CloseCount                    // its deferred close
    | ReceiveClosed                 // a receive on the closed channel yields zero

  predicate RunnerOwn(step: T.Step) {
    !step.TodoReturns? && !step.TodoPanics?
  }

  predicate Enabled(s: Sys, step: Step) {
    match step
    case Runner(t) => RunnerOwn(t) && T.Enabled(s.tr, t)
    case CountSucceeds => s.todo == Counting
    case CountFails => s.todo == Counting
    case CountPanics => s.todo == Counting
    case HandOver => s.todo.Handing? && s.closes == 0 && s.wanted > 0
    case SendOnClosed => s.todo.Handing? && s.closes > 0
    case RunnerReturns => s.outer == Inside && s.tr.caller.Returned?
    case CloseCount => s.outer == Closing
    case ReceiveClosed => s.closes > 0 && s.wanted > 0
  }

  // `count` is the number the query yields.
  function Next(s: Sys, step: Step, count: nat): Sys
    requires Enabled(s, step)
  {
    match step
    case Runner(t) => s.(tr := T.Next(s.tr, t), todo := if t.BeginSucceeds? then Counting else s.todo)
    case CountSucceeds => s.(todo := Handing(count, T.Nil))
    case CountFails => s.(todo := Handing(0, T.Error))
    case CountPanics => s.(todo := Left, tr := s.tr.(worker := T.Recovering), panics := s.panics + 1)
    case HandOver => s.(todo := Left, tr := s.tr.(worker := T.Sending(s.todo.report)),
                        wanted := s.wanted - 1, received := s.received + [s.todo.value], handed := s.handed + 1)
    case SendOnClosed => s.(todo := Left, tr := s.tr.(worker := T.Recovering), panics := s.panics + 1)
    case RunnerReturns => s.(outer := Closing)
    case CloseCount => s.(outer := Gone, closes := s.closes + 1)
    case ReceiveClosed => s.(wanted := s.wanted - 1, received := s.received + [0])
  }

  // ---- Refinement: seen from Transactional, this is one particular function to run ----

  // The step of Transactional that a step amounts to, if any.
  function Shadow(s: Sys, step: Step): Option<T.Step>
    requires Enabled(s, step)
  {
    match step
    case Runner(t) => Some(t)
    case CountPanics => Some(T.TodoPanics)
    case SendOnClosed => Some(T.TodoPanics)
    case HandOver => Some(T.TodoReturns(s.todo.report))
    case _ => None
  }

  predicate TodoInv(s: Sys) {
    s.todo == Counting || s.todo.Handing? <==> s.tr.worker == T.Running
  }

  lemma StepRefines(s: Sys, step: Step, count: nat)
    requires T.Inv(s.tr) && TodoInv(s) && Enabled(s, step)
    ensures match Shadow(s, step)
            case None => Next(s, step, count).tr == s.tr
            case Some(t) => T.Enabled(s.tr, t) && Next(s, step, count).tr == T.Next(s.tr, t)
  {
  }

  // ---- The invariant ----

  predicate Inv(s: Sys, total: nat, count: nat) {
    && T.Inv(s.tr)
    && TodoInv(s)
    && (s.todo == NotStarted <==> s.tr.worker == T.Unborn)
    && (s.todo.Handing? ==> s.todo.value == count || s.todo.value == 0)
    && |s.received| + s.wanted == total
    && (forall v :: v in s.received ==> v == count || v == 0)
    // only one receive can meet the send; all others find the channel closed
    && s.handed <= 1
    && (s.handed == 1 ==> s.todo == Left && s.panics == 0)
    && (s.closes == 0 ==> |s.received| == s.handed)
    && s.closes == (if s.outer == Gone then 1 else 0)
    && (s.outer != Inside ==> s.tr.caller.Returned?)
    // every panic was caught and turned into the report of the worker
    && s.panics <= 1
    && (s.panics == 1 ==> s.todo == Left && (s.tr.worker == T.Recovering || s.tr.worker == T.Ended))
  }

  lemma NextKeepsInv(s: Sys, step: Step, total: nat, count: nat)
    requires Inv(s, total, count) && Enabled(s, step)
    ensures Inv(Next(s, step, count), total, count)
  {
    StepRefines(s, step, count);
    if Shadow(s, step).Some? {
      T.NextKeepsInv(s.tr, Shadow(s, step).value);
    }
  }

  // ---- Runs ----

  function TodoRank(todo: Todo): nat {
    match todo case NotStarted => 1 case Counting => 1 case Handing(_, _) => 0 case Left => 0
  }

  function Rank(s: Sys): nat {
    T.Rank(s.tr) + TodoRank(s.todo) + s.wanted + (match s.outer case Inside => 2 case Closing => 1 case Gone => 0)
  }

  lemma NextLowersRank(s: Sys, step: Step, total: nat, count: nat)
    requires Inv(s, total, count) && Enabled(s, step)
    ensures Rank(Next(s, step, count)) < Rank(s)
  {
    StepRefines(s, step, count);
  }

  predicate CanRun(s: Sys, steps: seq<Step>, count: nat)
    decreases |steps|
  {
    steps == [] || (Enabled(s, steps[0]) && CanRun(Next(s, steps[0], count), steps[1..], count))
  }

  function After(s: Sys, steps: seq<Step>, count: nat): Sys
    requires CanRun(s, steps, count)
    decreases |steps|
  {
    if steps == [] then s else After(Next(s, steps[0], count), steps[1..], count)
  }

  lemma {:induction false} RunsKeepInvAndEnd(s: Sys, steps: seq<Step>, total: nat, count: nat)
    requires Inv(s, total, count) && CanRun(s, steps, count)
    ensures Inv(After(s, steps, count), total, count)
    ensures Rank(After(s, steps, count)) + |steps| <= Rank(s)
    decreases |steps|
  {
    if steps != [] {
      NextKeepsInv(s, steps[0], total, count);
      NextLowersRank(s, steps[0], total, count);
      RunsKeepInvAndEnd(Next(s, steps[0], count), steps[1..], total, count);
    }
  }

  ghost predicate Stuck(s: Sys) {
    forall step :: !Enabled(s, step)
  }

  // The run of Transactional inside a run of this system.
  function Project(s: Sys, steps: seq<Step>, count: nat): seq<T.Step>
    requires CanRun(s, steps, count)
    decreases |steps|
  {
    if steps == [] then []
    else
      var rest := Project(Next(s, steps[0], count), steps[1..], count);
      match Shadow(s, steps[0])
      case None => rest
      case Some(t) => [t] + rest
  }

  // Whatever holds of every run of Transactional therefore holds here too.
  lemma {:induction false} RunRefines(s: Sys, steps: seq<Step>, total: nat, count: nat)
    requires Inv(s, total, count) && CanRun(s, steps, count)
    ensures T.CanRun(s.tr, Project(s, steps, count))
    ensures T.After(s.tr, Project(s, steps, count)) == After(s, steps, count).tr
    decreases |steps|
  {
    if steps != [] {
      NextKeepsInv(s, steps[0], total, count);
      StepRefines(s, steps[0], count);
      RunRefines(Next(s, steps[0], count), steps[1..], total, count);
    }
  }

  // In every interleaving: a run is at most 9 steps and one per receive long, the channel is closed at most once
  // and only after Transactional returned, every value received is the real count or zero, at most one of them
  // came from a send, a panic is never left uncaught, and the transaction is finished at most once.
  lemma EveryRunIsSafe(wanted: nat, steps: seq<Step>, count: nat)
    requires CanRun(Start(wanted), steps, count)
    ensures var s := After(Start(wanted), steps, count);
            && |steps| <= 9 + wanted
            && s.closes <= 1
            && (s.closes == 1 ==> s.tr.caller.Returned?)
            && |s.received| <= wanted
            && (forall v :: v in s.received ==> v == count || v == 0)
            && s.handed <= 1
            && (s.panics > 0 ==> s.tr.worker == T.Recovering || s.tr.worker == T.Ended)
            && !s.tr.tx.crashed
            && s.tr.tx.commits + s.tr.tx.rollbacks <= 1
            && (s.tr.tx.commits == 1 <==> s.tr.caller == T.Returned(T.Nil))
  {
    RunsKeepInvAndEnd(Start(wanted), steps, wanted, count);
    RunRefines(Start(wanted), steps, wanted, count);
    T.EveryRunFinishesOnce(Project(Start(wanted), steps, count));
  }

  // A run that can go no further has ended for good: Transactional returned, both goroutines are gone, the channel
  // is closed, and every receive of the request was answered, even if the request never received at all.
  lemma EveryMaximalRunEnds(wanted: nat, steps: seq<Step>, count: nat)
    requires CanRun(Start(wanted), steps, count)
    requires Stuck(After(Start(wanted), steps, count))
    ensures var s := After(Start(wanted), steps, count);
            && s.tr.caller.Returned?
            && (s.tr.worker == T.Ended || s.tr.worker == T.Unborn)
            && s.outer == Gone && s.closes == 1
            && |s.received| == wanted
  {
    RunsKeepInvAndEnd(Start(wanted), steps, wanted, count);
    StuckIsDone(After(Start(wanted), steps, count), wanted, count);
  }

  lemma StuckIsDone(s: Sys, total: nat, count: nat)
    requires Inv(s, total, count) && Stuck(s)
    ensures s.tr.caller.Returned? && (s.tr.worker == T.Ended || s.tr.worker == T.Unborn) && s.outer == Gone && s.closes == 1 && s.wanted == 0
  {
    forall t | RunnerOwn(t)
      ensures !T.Enabled(s.tr, t)
    {
      assert !Enabled(s, Runner(t));
    }
    assert !Enabled(s, RunnerReturns) && !Enabled(s, CloseCount) && !Enabled(s, CountPanics) && !Enabled(s, SendOnClosed) && !Enabled(s, ReceiveClosed);
    assert s.tr.worker != T.Running ==> T.Stuck(s.tr);
    assert !T.Enabled(s.tr, T.TimerFires) && !T.Enabled(s.tr, T.BeginFails) && !T.Enabled(s.tr, T.CallerTimesOut);
    assert !T.Enabled(s.tr, T.CallerCommits) && !T.Enabled(s.tr, T.CallerRollsBack);
    assert s.tr.worker != T.Running;
    T.StuckMeansDone(s.tr);
  }

  // The timeout case does occur: nobody receives, the timer fires, and the blocked send panics on the closed
  // channel after the transaction was rolled back.
  lemma NobodyReceives(count: nat)
    ensures var steps := [Runner(T.BeginSucceeds), CountSucceeds, Runner(T.TimerFires), Runner(T.CallerTimesOut),
                          Runner(T.CallerRollsBack), RunnerReturns, CloseCount, SendOnClosed, Runner(T.WorkerSendsRecovered)];
            && CanRun(Start(0), steps, count)
            && After(Start(0), steps, count).panics == 1
            && After(Start(0), steps, count).tr.tx.rollbacks == 1
            && After(Start(0), steps, count).tr.worker == T.Ended
  {
    var first := [Runner(T.BeginSucceeds), CountSucceeds, Runner(T.TimerFires), Runner(T.CallerTimesOut), Runner(T.CallerRollsBack)];
    var rest := [RunnerReturns, CloseCount, SendOnClosed, Runner(T.WorkerSendsRecovered)];
    UntilRollback(count);
    AfterRollback(After(Start(0), first, count), count);
    RunJoined(Start(0), first, rest, count);
    assert first + rest == [Runner(T.BeginSucceeds), CountSucceeds, Runner(T.TimerFires), Runner(T.CallerTimesOut),
                            Runner(T.CallerRollsBack), RunnerReturns, CloseCount, SendOnClosed, Runner(T.WorkerSendsRecovered)];
  }

  lemma UntilRollback(count: nat)
    ensures var first := [Runner(T.BeginSucceeds), CountSucceeds, Runner(T.TimerFires), Runner(T.CallerTimesOut), Runner(T.CallerRollsBack)];
            && CanRun(Start(0), first, count)
            && (var s := After(Start(0), first, count);
                && s.tr.caller.Returned? && s.tr.channel == [] && s.todo.Handing?
                && s.outer == Inside && s.panics == 0 && s.tr.tx.rollbacks == 1)
  {
    var first := [Runner(T.BeginSucceeds), CountSucceeds, Runner(T.TimerFires), Runner(T.CallerTimesOut), Runner(T.CallerRollsBack)];
    var s1 := Next(Start(0), first[0], count);
    var s2 := Next(s1, first[1], count);
    var s3 := Next(s2, first[2], count);
    var s4 := Next(s3, first[3], count);
    RunOf(s4, first[4..], count);
    RunOf(s3, first[3..], count);
    RunOf(s2, first[2..], count);
    RunOf(s1, first[1..], count);
    RunOf(Start(0), first, count);
  }

  lemma {:induction false} RunJoined(s: Sys, a: seq<Step>, b: seq<Step>, count: nat)
    requires CanRun(s, a, count) && CanRun(After(s, a, count), b, count)
    ensures CanRun(s, a + b, count) && After(s, a + b, count) == After(After(s, a, count), b, count)
    decreases |a|
  {
    if a == [] {
      assert a + b == b;
    } else {
      RunJoined(Next(s, a[0], count), a[1..], b, count);
      assert (a + b)[0] == a[0] && (a + b)[1..] == a[1..] + b;
    }
  }

  lemma AfterRollback(s: Sys, count: nat)
    requires s.tr.caller.Returned? && s.tr.channel == [] && s.todo.Handing?
    requires s.outer == Inside && s.panics == 0 && s.tr.tx.rollbacks == 1
    ensures var rest := [RunnerReturns, CloseCount, SendOnClosed, Runner(T.WorkerSendsRecovered)];
            && CanRun(s, rest, count)
            && (var t := After(s, rest, count); t.panics == 1 && t.tr.tx.rollbacks == 1 && t.tr.worker == T.Ended)
  {
    var rest := [RunnerReturns, CloseCount, SendOnClosed, Runner(T.WorkerSendsRecovered)];
    var s1 := Next(s, rest[0], count);
    var s2 := Next(s1, rest[1], count);
    var s3 := Next(s2, rest[2], count);
    RunOf(s3, rest[3..], count);
    RunOf(s2, rest[2..], count);
    RunOf(s1, rest[1..], count);
    RunOf(s, rest, count);
  }

  lemma RunOf(s: Sys, steps: seq<Step>, count: nat)
    requires steps != [] && Enabled(s, steps[0]) && CanRun(Next(s, steps[0], count), steps[1..], count)
    ensures CanRun(s, steps, count) && After(s, steps, count) == After(Next(s, steps[0], count), steps[1..], count)
  {
  }

  // ---- Which values the request receives ----

  function Zeros(n: nat): seq<nat> {
    seq(n, i => 0)
  }

  // What has been received when the value handed over, if any, came first and everything else from a closed channel.
  function Answers(handed: bool, counted: bool, count: nat, n: nat): seq<nat> {
    if handed && n > 0 then [if counted then count else 0] + Zeros(n - 1) else Zeros(n)
  }

  lemma AnswersGrow(handed: bool, counted: bool, count: nat, n: nat)
    ensures handed ==> n > 0 ==> Answers(handed, counted, count, n) + [0] == Answers(handed, counted, count, n + 1)
    ensures !handed ==> Answers(handed, counted, count, n) + [0] == Answers(handed, counted, count, n + 1)
  {
  }

  // `counted` tells whether the query has succeeded.
  predicate Tells(s: Sys, counted: bool, count: nat) {
    && (s.todo == NotStarted || s.todo == Counting ==> !counted)
    && (s.todo.Handing? ==> s.todo == (if counted then Handing(count, T.Nil) else Handing(0, T.Error)))
    && (s.handed == 1 ==> s.received != [])
    && s.received == Answers(s.handed == 1, counted, count, |s.received|)
  }

  lemma NextTells(s: Sys, step: Step, counted: bool, total: nat, count: nat)
    requires Inv(s, total, count) && Tells(s, counted, count) && Enabled(s, step)
    ensures Tells(Next(s, step, count), counted || step == CountSucceeds, count)
  {
    AnswersGrow(s.handed == 1, counted, count, |s.received|);
    match step
    case HandOver => assert s.received == [];
    case _ =>
  }

  lemma {:induction false} RunTells(s: Sys, steps: seq<Step>, counted: bool, total: nat, count: nat)
    requires Inv(s, total, count) && Tells(s, counted, count) && CanRun(s, steps, count)
    ensures Tells(After(s, steps, count), counted || CountSucceeds in steps, count)
    decreases |steps|
  {
    if steps != [] {
      NextKeepsInv(s, steps[0], total, count);
      NextTells(s, steps[0], counted, total, count);
      RunTells(Next(s, steps[0], count), steps[1..], counted || steps[0] == CountSucceeds, total, count);
      assert CountSucceeds in steps <==> steps[0] == CountSucceeds || CountSucceeds in steps[1..];
    }
  }

  // Transactional gets nil from the function exactly when the query succeeded and its value was taken.
  lemma {:induction false} NilIffTaken(s: Sys, steps: seq<Step>, counted: bool, total: nat, count: nat)
    requires Inv(s, total, count) && Tells(s, counted, count) && CanRun(s, steps, count)
    ensures T.TodoReturns(T.Nil) in Project(s, steps, count) <==>
            s.handed == 0 && After(s, steps, count).handed == 1 && (counted || CountSucceeds in steps)
    decreases |steps|
  {
    if steps != [] {
      var t := Next(s, steps[0], count);
      NextKeepsInv(s, steps[0], total, count);
      NextTells(s, steps[0], counted, total, count);
      RunsKeepInvAndEnd(t, steps[1..], total, count);
      HandedStays(t, steps[1..], total, count);
      NoLateCount(t, steps[1..], total, count);
      NilIffTaken(t, steps[1..], counted || steps[0] == CountSucceeds, total, count);
      assert CountSucceeds in steps <==> steps[0] == CountSucceeds || CountSucceeds in steps[1..];
      ProjectedFirst(s, steps, count, T.TodoReturns(T.Nil));
    }
  }

  lemma ProjectedFirst(s: Sys, steps: seq<Step>, count: nat, t: T.Step)
    requires steps != [] && CanRun(s, steps, count)
    ensures t in Project(s, steps, count) <==>
            Shadow(s, steps[0]) == Some(t) || t in Project(Next(s, steps[0], count), steps[1..], count)
  {
  }

  lemma {:induction false} HandedStays(s: Sys, steps: seq<Step>, total: nat, count: nat)
    requires Inv(s, total, count) && CanRun(s, steps, count)
    ensures s.handed == 1 ==> After(s, steps, count).handed == 1
    decreases |steps|
  {
    if steps != [] {
      NextKeepsInv(s, steps[0], total, count);
      HandedStays(Next(s, steps[0], count), steps[1..], total, count);
    }
  }

  // Once the function is left the query runs no more.
  lemma {:induction false} NoLateCount(s: Sys, steps: seq<Step>, total: nat, count: nat)
    requires Inv(s, total, count) && CanRun(s, steps, count)
    ensures s.todo == Left || s.todo.Handing? ==> CountSucceeds !in steps
    decreases |steps|
  {
    if steps != [] {
      NextKeepsInv(s, steps[0], total, count);
      NoLateCount(Next(s, steps[0], count), steps[1..], total, count);
      assert CountSucceeds in steps <==> steps[0] == CountSucceeds || CountSucceeds in steps[1..];
    }
  }

  // In every run the request receives the true count, if the query succeeded, or else 0, from the send, and 0 from
  // every other receive. The transaction commits only when the query succeeded and its value was taken.
  lemma ReceivesTheCount(wanted: nat, steps: seq<Step>, count: nat)
    requires CanRun(Start(wanted), steps, count)
    ensures var s := After(Start(wanted), steps, count);
            && (s.handed == 1 ==> s.received != [] && s.received[0] == (if CountSucceeds in steps then count else 0))
            && (forall i :: 0 <= i < |s.received| && (i > 0 || s.handed == 0) ==> s.received[i] == 0)
            && (s.tr.tx.commits == 1 ==> s.handed == 1 && CountSucceeds in steps)
  {
    var s := Start(wanted);
    RunTells(s, steps, false, wanted, count);
    NilIffTaken(s, steps, false, wanted, count);
    RunRefines(s, steps, wanted, count);
    T.ReportDecides(Project(s, steps, count));
  }

  // The common case does occur: the request asks once, the query succeeds, and the request receives the count.
  lemma TheCountArrives(count: nat)
    ensures var steps := [Runner(T.BeginSucceeds), CountSucceeds, HandOver, Runner(T.WorkerSends), Runner(T.CallerReceives),
                          Runner(T.CallerCommits), RunnerReturns, CloseCount];
            && CanRun(Start(1), steps, count)
            && After(Start(1), steps, count).received == [count]
            && After(Start(1), steps, count).tr.caller == T.Returned(T.Nil)
            && After(Start(1), steps, count).tr.tx.commits == 1
            && After(Start(1), steps, count).outer == Gone
  {
    var first := [Runner(T.BeginSucceeds), CountSucceeds, HandOver];
    var rest := [Runner(T.WorkerSends), Runner(T.CallerReceives), Runner(T.CallerCommits), RunnerReturns, CloseCount];
    UntilHandOver(count);
    AfterHandOver(After(Start(1), first, count), count);
    RunJoined(Start(1), first, rest, count);
    assert first + rest == [Runner(T.BeginSucceeds), CountSucceeds, HandOver, Runner(T.WorkerSends), Runner(T.CallerReceives),
                            Runner(T.CallerCommits), RunnerReturns, CloseCount];
  }

  lemma UntilHandOver(count: nat)
    ensures var first := [Runner(T.BeginSucceeds), CountSucceeds, HandOver];
            && CanRun(Start(1), first, count)
            && (var s := After(Start(1), first, count);
                && s.received == [count] && s.outer == Inside
                && s.tr.caller == T.Waiting && s.tr.worker == T.Sending(T.Nil) && s.tr.channel == []
                && s.tr.tx == T.Tx(T.Live, 1, 0, 0, false))
  {
    var first := [Runner(T.BeginSucceeds), CountSucceeds, HandOver];
    var s1 := Next(Start(1), first[0], count);
    var s2 := Next(s1, first[1], count);
    RunOf(s2, first[2..], count);
    RunOf(s1, first[1..], count);
    RunOf(Start(1), first, count);
  }

  lemma AfterHandOver(s: Sys, count: nat)
    requires s.tr.caller == T.Waiting && s.tr.worker == T.Sending(T.Nil) && s.tr.channel == []
    requires s.tr.tx == T.Tx(T.Live, 1, 0, 0, false) && s.outer == Inside
    ensures var rest := [Runner(T.WorkerSends), Runner(T.CallerReceives), Runner(T.CallerCommits), RunnerReturns, CloseCount];
            && CanRun(s, rest, count)
            && (var t := After(s, rest, count);
                t.received == s.received && t.tr.caller == T.Returned(T.Nil) && t.tr.tx.commits == 1 && t.outer == Gone)
  {
    var rest := [Runner(T.WorkerSends), Runner(T.CallerReceives), Runner(T.CallerCommits), RunnerReturns, CloseCount];
    var s1 := Next(s, rest[0], count);
    var s2 := Next(s1, rest[1], count);
    var s3 := Next(s2, rest[2], count);
    var s4 := Next(s3, rest[3], count);
    RunOf(s4, rest[4..], count);
    RunOf(s3, rest[3..], count);
    RunOf(s2, rest[2..], count);
    RunOf(s1, rest[1..], count);
    RunOf(s, rest, count);
  }
}
