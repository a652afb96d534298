/** The replay runner: the step loop, the repair loop and what they emit, against arbitrary browsers, clocks and clients. */
module Replay {
  import opened Wrappers
  import opened Text
  import opened Json
  import opened Canonical
  import opened CacheTypes
  import opened Costs
  import opened Runs
  import Params

  type LiveOutcome = o: Outcome | o in {Pass, AssertionFailed, LocatorNotFound, Timeout, PageError} witness Pass

  /** Everything the runner cannot know: the n-th reading, attempt, answer and time stamp. */
  datatype Oracle = Oracle(
    clock: nat -> int,
    live: nat -> (LiveOutcome, nat),
    client: nat -> Move,
    elapsed: nat -> int,
    stamp: nat -> string)

  datatype RunMode = DryRun(outcomes: seq<Outcome>) | NoPage | Live

  datatype Build = Build(id: string, cost: Option<Cost>)

  datatype Options = Options(mode: RunMode, limits: Limits, costFresh: Cost, build: Option<Build>, source: Option<Source>)

  /** A step as an object: the repair client is handed it and may assign its assertion. */
  class CompiledStep {
    const step: PlanStep
    const rowId: Option<string>
    var assertion: Json

    constructor (step: PlanStep, rowId: Option<string>, assertion: Json)
      ensures this.step == step && this.rowId == rowId && this.assertion == assertion
    {
      this.step, this.rowId, this.assertion := step, rowId, assertion;
    }
  }

  datatype LiveProgram = LiveProgram(
    programId: string, siteKey: string, taskKey: string, testbedVersion: string,
    steps: seq<CompiledStep>, declared: Option<seq<string>>)

  function PlanOf(steps: seq<CompiledStep>): (r: seq<PlanStep>)
    ensures |r| == |steps| && forall i | 0 <= i < |steps| :: r[i] == steps[i].step
  {
    seq(|steps|, i requires 0 <= i < |steps| => steps[i].step)
  }

  /** The program as the check before the run reads it. */
  function Snapshot(p: LiveProgram): Params.Program
    reads p.steps
  {
    Params.Program(p.programId, p.siteKey, p.taskKey, p.testbedVersion, Snapshots(p.steps), p.declared)
  }

  function Snapshots(steps: seq<CompiledStep>): seq<Params.ProgramStep>
    reads steps
  {
    if |steps| == 0 then []
    else
      var s := steps[|steps| - 1];
      Snapshots(steps[..|steps| - 1]) + [Params.ProgramStep(s.step.index, s.rowId, s.step.action, s.assertion)]
  }

  /** The steps' assertions as they stand. */
  ghost function Assertions(steps: seq<CompiledStep>): (r: seq<Json>)
    reads steps
    ensures |r| == |steps| && forall i | 0 <= i < |steps| :: r[i] == steps[i].assertion
  {
    seq(|steps|, i requires 0 <= i < |steps| reads steps => steps[i].assertion)
  }

  /** No step object stands at two places of the program. */
  ghost predicate DistinctObjects(steps: seq<CompiledStep>) {
    forall i, j | 0 <= i < j < |steps| :: steps[i] != steps[j]
  }

  datatype RunError = UnboundParams(missing: seq<string>) | AssertionChanged

  // ---- what the oracle says about an event ----

  function DryOutcome(outcomes: seq<Outcome>, index: int, repairing: bool): Outcome {
    var o := if 0 <= index < |outcomes| then outcomes[index] else Pass;
    if repairing && !Success(o) then Pass else o
  }

  function Execute(mode: RunMode, o: Oracle, n: nat, index: int, repairing: bool): (Outcome, Cost) {
    match mode
    case DryRun(outcomes) => (DryOutcome(outcomes, index, repairing), ZERO)
    case NoPage => (PageError, ZERO)
    case Live => (o.live(n).0, Cost(0, 0, o.live(n).1, None))
  }

  function Max0(n: int): nat {
    if n > 0 then n else 0
  }

  /** An event the oracle vouches for, given what came before. */
  predicate GenuineEvent(mode: RunMode, o: Oracle, before: seq<Event>, e: Event) {
    var n := Count(before, KindOf(e));
    match e
    case Clock(t) => t == o.clock(n)
    case Tried(a) => (a.outcome, a.cost) == Execute(mode, o, n, a.index, a.repairing)
    case Asked(m) => m == o.client(n)
    case Timed(ms) => ms == Max0(o.elapsed(n))
  }

  predicate Genuine(mode: RunMode, o: Oracle, log: seq<Event>) {
    |log| > 0 ==> Genuine(mode, o, log[..|log| - 1]) && GenuineEvent(mode, o, log[..|log| - 1], log[|log| - 1])
  }

  lemma GenuineNext(mode: RunMode, o: Oracle, log: seq<Event>, e: Event)
    requires Genuine(mode, o, log) && GenuineEvent(mode, o, log, e)
    ensures Genuine(mode, o, log + [e])
    ensures forall k :: Count(log + [e], k) == Count(log, k) + (if KindOf(e) == k then 1 else 0)
  {
    assert (log + [e])[..|log|] == log;
  }

  // ---- the same of a whole log, by position ----

  /** The attempts of a log, in order. */
  function Attempts(log: seq<Event>): seq<Attempt> {
    if |log| == 0 then []
    else
      var e := log[|log| - 1];
      Attempts(log[..|log| - 1]) + (if e.Tried? then [e.attempt] else [])
  }

  /** The clock readings of a log, in order. */
  function Readings(log: seq<Event>): seq<int> {
    if |log| == 0 then []
    else
      var e := log[|log| - 1];
      Readings(log[..|log| - 1]) + (if e.Clock? then [e.time] else [])
  }

  /** The client's answers, in order. */
  function Answers(log: seq<Event>): seq<Move> {
    if |log| == 0 then []
    else
      var e := log[|log| - 1];
      Answers(log[..|log| - 1]) + (if e.Asked? then [e.move] else [])
  }

  /** The repair times taken, in order. */
  function RepairTimes(log: seq<Event>): seq<nat> {
    if |log| == 0 then []
    else
      var e := log[|log| - 1];
      RepairTimes(log[..|log| - 1]) + (if e.Timed? then [e.elapsed] else [])
  }

  /** The `n`-th attempt ended as the browser, or the list of a dry run, has it. */
  predicate WentAs(mode: RunMode, o: Oracle, n: nat, a: Attempt) {
    match mode
    case Live => a.outcome == o.live(n).0 && a.cost == Cost(0, 0, o.live(n).1, None)
    case NoPage => a.outcome == PageError && a.cost == Cost(0, 0, 0, None)
    case DryRun(listed) =>
      && a.cost == Cost(0, 0, 0, None)
      && (!(0 <= a.index < |listed|) ==> a.outcome == Pass)
      && (0 <= a.index < |listed| && (listed[a.index] in {Pass, RepairedPass} || !a.repairing) ==> a.outcome == listed[a.index])
      && (0 <= a.index < |listed| && listed[a.index] !in {Pass, RepairedPass} && a.repairing ==> a.outcome == Pass)
  }

  /** Everything in the log came from outside in the order it was asked for, and came out unchanged. */
  ghost predicate AsItWent(mode: RunMode, o: Oracle, log: seq<Event>) {
    && (forall n | 0 <= n < |Attempts(log)| :: WentAs(mode, o, n, Attempts(log)[n]))
    && (forall n | 0 <= n < |Readings(log)| :: Readings(log)[n] == o.clock(n))
    && (forall n | 0 <= n < |Answers(log)| :: Answers(log)[n] == o.client(n))
    && (forall n | 0 <= n < |RepairTimes(log)| :: RepairTimes(log)[n] == if o.elapsed(n) < 0 then 0 else o.elapsed(n))
  }

  lemma {:induction false} CountsAreLengths(log: seq<Event>)
    ensures Count(log, Tries) == |Attempts(log)| && Count(log, Reads) == |Readings(log)|
    ensures Count(log, Asks) == |Answers(log)| && Count(log, Timings) == |RepairTimes(log)|
  {
    if |log| > 0 {
      CountsAreLengths(log[..|log| - 1]);
    }
  }

  lemma ExecutedAsWent(mode: RunMode, o: Oracle, n: nat, a: Attempt)
    requires (a.outcome, a.cost) == Execute(mode, o, n, a.index, a.repairing)
    ensures WentAs(mode, o, n, a)
  {
  }

  lemma {:induction false} GenuineWent(mode: RunMode, o: Oracle, log: seq<Event>)
    requires Genuine(mode, o, log)
    ensures AsItWent(mode, o, log)
  {
    if |log| > 0 {
      var front, e := log[..|log| - 1], log[|log| - 1];
      GenuineWent(mode, o, front);
      CountsAreLengths(front);
      if e.Tried? {
        ExecutedAsWent(mode, o, |Attempts(front)|, e.attempt);
      }
    }
  }

  /** Executing a step spends no tokens. */
  lemma {:induction false} AttemptsSpendNoTokens(mode: RunMode, o: Oracle, log: seq<Event>)
    requires Genuine(mode, o, log)
    ensures forall e | e in log && e.Tried? :: TotalTokens(e.attempt.cost) == 0 && e.attempt.cost.model.None?
  {
    if |log| > 0 {
      AttemptsSpendNoTokens(mode, o, log[..|log| - 1]);
      assert log == log[..|log| - 1] + [log[|log| - 1]];
    }
  }

  /** So replaying spends none, and every token of the repair cost was spent on a proposal that came back. */
  lemma TokensComeFromProposals(
    mode: RunMode, oracle: Oracle, o: Limits, started: int, log: seq<Event>, start: seq<Event>, traces: seq<StepTrace>, tail: seq<Event>)
    requires Genuine(mode, oracle, log) && log == start + RunEvents(traces) + tail && EachLegal(o, started, traces)
    ensures TotalTokens(TotalsOf(traces).costReplay) == 0
    ensures TotalsOf(traces).costRepair.tokensIn == SumProposals(RunEvents(traces), TokensIn)
    ensures TotalsOf(traces).costRepair.tokensOut == SumProposals(RunEvents(traces), TokensOut)
    ensures TotalsOf(traces).costReplay.model == None && TotalsOf(traces).costRepair.model == LastModel(RunEvents(traces))
  {
    AttemptsSpendNoTokens(mode, oracle, log);
    forall e | e in RunEvents(traces) && e.Tried?
      ensures e.attempt.cost.tokensIn == 0 && e.attempt.cost.tokensOut == 0 && e.attempt.cost.model.None?
    {
      assert e in log;
    }
    ModelOfRun(traces);
    FreeAttempts(RunEvents(traces), TokensIn);
    FreeAttempts(RunEvents(traces), TokensOut);
    CostsConserved(o, started, traces, TokensIn);
    CostsConserved(o, started, traces, TokensOut);
  }

  /** The assertion in the repair context when the client returns. */
  function InContext(frozen: Json, m: Move): Json {
    if m.Returns? && m.swapped.Some? then m.swapped.value else frozen
  }

  function LineOf(runId: string, version: string, source: Option<Source>, stamp: string, row: StepRow): MetricRow {
    StepLine(StepMetric(runId, row, version, source, stamp))
  }

  function RunLineOf(runId: string, version: string, o: Options, stamp: string, r: Report): MetricRow {
    RunLine(RunMetric(
      runId, version, r.taskSuccess, r.totals.repairCount, r.successWithLe2, r.stepsTotal, Some(r.stepsAttempted),
      r.totals.replayValid, r.totals.selfHealed, Some(r.totals.timeToRepair), o.costFresh,
      if o.build.Some? then o.build.value.cost else None, if o.build.Some? then Some(o.build.value.id) else None,
      r.totals.costReplay, r.totals.costRepair, if r.totals.measured then None else Some(false),
      Some(r.totals.budgetExhausted), stamp))
  }

  /** The step lines of a run, stamped from the `base`-th emission on. */
  function Lines(runId: string, version: string, source: Option<Source>, o: Oracle, base: nat, rows: seq<StepRow>): (r: seq<MetricRow>)
    ensures |r| == |rows|
    ensures forall i | 0 <= i < |rows| :: r[i] == LineOf(runId, version, source, o.stamp(base + i), rows[i])
  {
    seq(|rows|, i requires 0 <= i < |rows| => LineOf(runId, version, source, o.stamp(base + i), rows[i]))
  }

  /** The assertion the last first pass was judged by. */
  function Judge(log: seq<Event>): Option<Json> {
    if |log| == 0 then None
    else
      var e := log[|log| - 1];
      if e.Tried? && !e.attempt.repairing then Some(e.attempt.judgedBy) else Judge(log[..|log| - 1])
  }

  lemma JudgeNext(log: seq<Event>, e: Event)
    ensures Judge(log + [e]) == if e.Tried? && !e.attempt.repairing then Some(e.attempt.judgedBy) else Judge(log)
  {
    assert (log + [e])[..|log|] == log;
  }

  /** The client just returned having changed the assertion that the step is judged by, on the step or in the context. */
  predicate EndsUnfairly(log: seq<Event>) {
    && |log| > 0 && log[|log| - 1].Asked? && Judge(log).Some?
    && Swaps(Judge(log).value, log[|log| - 1].move)
  }

  predicate Swaps(judge: Json, m: Move) {
    && m.Returns?
    && ((m.written.Some? && !AssertionsEqual(judge, m.written.value)) || (m.swapped.Some? && !AssertionsEqual(judge, m.swapped.value)))
  }

  lemma AskEventsSplit(a: Ask, check: Option<int>)
    requires a.check.None?
    ensures AskEvents(a.(check := check)) == Reading(check) + AskEvents(a)
  {
  }

  // ---- the repair loop, between turns ----

  predicate IsFirst(first: Attempt, step: PlanStep, assertion: Json) {
    first.index == step.index && first.action == step.action && !first.repairing && first.judgedBy == assertion
  }

  /** The loop's state: legal turns so far, and, once `leave` is set, the one reason to leave. */
  predicate RepairsSoFar(o: Limits, started: int, before: nat, first: Attempt, asks: seq<Ask>, stop: Option<int>, leave: bool) {
    && (forall i | 0 <= i < |asks| :: AskLegal(o, started, first.index, first.judgedBy, asks[i]))
    && (forall i | 0 <= i < |asks| - 1 :: FailedRetry(asks[i]))
    && (|asks| > 0 ==> before + |asks| <= o.maxRepairs)
    && var open := |asks| > 0 ==> FailedRetry(asks[|asks| - 1]);
      if leave then (if open then before + |asks| < o.maxRepairs && OutOfTime(o, started, stop) else stop.None?)
      else open && stop.None?
  }

  function FirstRow(first: Attempt): StepRow {
    StepRow(first.index, first.outcome, !first.repairing && first.outcome == Pass, Replaying, first.cost, None, None, None)
  }

  /** The provisional row after a turn; `n` is the run's repair count, this turn included. */
  function RowAfter(n: nat, first: Attempt, a: Ask): StepRow {
    if a.retry.None? then
      StepRow(first.index, RepairExhausted, false, Repairing, ProposalCost(a.move), Some(n), None, Some(first.outcome))
    else if a.elapsed.Some? then
      StepRow(first.index, RepairedPass, false, Repairing, AddCost(ProposalCost(a.move), a.retry.value.cost), Some(n), a.elapsed, None)
    else
      StepRow(first.index, a.retry.value.outcome, false, Repairing, a.retry.value.cost, Some(n), None, None)
  }

  function RowSoFar(before: nat, first: Attempt, asks: seq<Ask>, stop: Option<int>): StepRow {
    var n := before + |asks|;
    if stop.Some? then StepRow(first.index, BudgetExhausted, false, Repairing, ZERO, AttemptNumber(n), None, Some(first.outcome))
    else if |asks| == 0 then FirstRow(first)
    else RowAfter(n, first, asks[|asks| - 1])
  }

  function WithAsk(u: Totals, a: Ask): Totals {
    u.(measured := u.measured && Measured(a),
       costRepair := AddAsk(u.costRepair, a),
       selfHealed := u.selfHealed || a.elapsed.Some?,
       timeToRepair := u.timeToRepair + (if a.elapsed.Some? then a.elapsed.value else 0))
  }

  lemma WithRepairsNext(t: Totals, asks: seq<Ask>, a: Ask)
    requires |asks| > 0 ==> asks[|asks| - 1].elapsed.None?
    ensures WithRepairs(t, asks + [a], None)
      == WithAsk(WithRepairs(t, asks, None).(repairCount := t.repairCount + |asks| + 1), a)
  {
    assert (asks + [a])[..|asks|] == asks;
    assert AllMeasured(asks + [a]) <==> AllMeasured(asks) && Measured(a) by {
      assert forall i | 0 <= i < |asks| :: (asks + [a])[i] == asks[i];
      assert (asks + [a])[|asks|] == a;
    }
  }

  lemma EventsNext(l: seq<Event>, asks: seq<Ask>, check: Option<int>, a: Ask)
    requires a.check.None?
    ensures l + AsksEvents(asks) + Reading(None) + Reading(check) + AskEvents(a) == l + AsksEvents(asks + [a.(check := check)]) + Reading(None)
  {
    AskEventsSplit(a, check);
    assert (asks + [a.(check := check)])[..|asks|] == asks;
  }

  lemma LeftNext(before: Json, asks: seq<Ask>, a: Ask)
    ensures LeftBy(before, asks + [a]) == if a.move.written.Some? then a.move.written.value else LeftBy(before, asks)
  {
    assert (asks + [a])[..|asks|] == asks;
  }

  lemma ReadingKeepsJudge(l: seq<Event>, check: Option<int>)
    ensures Judge(l + Reading(check)) == Judge(l)
  {
    if check.Some? {
      JudgeNext(l, Clock(check.value));
    } else {
      assert l + [] == l;
    }
  }

  lemma CheckedAsk(o: Limits, started: int, index: int, judge: Json, a: Ask, check: Option<int>)
    requires AskLegal(Limits(0, None), 0, index, judge, a) && InTime(o, started, check)
    ensures AskLegal(o, started, index, judge, a.(check := check))
    ensures FailedRetry(a.(check := check)) == FailedRetry(a) && a.(check := check).elapsed == a.elapsed
  {
  }

  lemma TurnTaken(o: Limits, started: int, before: nat, first: Attempt, asks: seq<Ask>, a: Ask)
    requires RepairsSoFar(o, started, before, first, asks, None, false) && before + |asks| < o.maxRepairs
    requires AskLegal(o, started, first.index, first.judgedBy, a)
    ensures RepairsSoFar(o, started, before, first, asks + [a], None, !FailedRetry(a))
  {
    var more := asks + [a];
    assert more[|asks|] == a && forall i | 0 <= i < |asks| :: more[i] == asks[i];
  }

  lemma RepairsDone(o: Limits, started: int, t: Totals, step: PlanStep, check: Option<int>, first: Attempt, asks: seq<Ask>, stop: Option<int>, leave: bool)
    requires RepairsSoFar(o, started, t.repairCount, first, asks, stop, leave) && InTime(o, started, check)
    requires !leave ==> t.repairCount + |asks| >= o.maxRepairs
    requires !Success(first.outcome) && IsFirst(first, step, first.judgedBy)
    ensures StepLegal(o, started, t.repairCount, StepTrace(step, check, first, asks, stop))
  {
  }

  /** The row the loop leaves once the allowance is known to be used up. */
  function FinalRow(o: Limits, n: nat, first: Attempt, row: StepRow, closed: bool): StepRow {
    var exhausted := StepRow(first.index, RepairExhausted, false, Repairing, row.cost, AttemptNumber(n), None, Some(first.outcome));
    if o.maxRepairs == 0 then
      exhausted.(mode := Replaying, cost := first.cost, attempt := None)
    else if closed || row.outcome == RepairExhausted then row else exhausted
  }

  lemma FinalRowIsRowOf(o: Limits, started: int, t: Totals, step: PlanStep, check: Option<int>, first: Attempt, asks: seq<Ask>, stop: Option<int>, leave: bool)
    requires RepairsSoFar(o, started, t.repairCount, first, asks, stop, leave)
    requires !leave ==> t.repairCount + |asks| >= o.maxRepairs
    requires !Success(first.outcome) && IsFirst(first, step, first.judgedBy)
    ensures FinalRow(o, t.repairCount + |asks|, first, RowSoFar(t.repairCount, first, asks, stop), leave)
      == RowOf(o, t.repairCount, StepTrace(step, check, first, asks, stop))
  {
    if |asks| > 0 {
      assert AskLegal(o, started, first.index, first.judgedBy, asks[|asks| - 1]);
    }
  }

  /** What the turns logged since `start` make of the totals and the provisional row. */
  ghost predicate LoopFacts(
    o: Limits, started: int, first: Attempt, t: Totals, start: seq<Event>, log: seq<Event>,
    asks: seq<Ask>, stop: Option<int>, leave: bool, u: Totals, row: StepRow)
  {
    && Judge(log) == Some(first.judgedBy)
    && log == start + AsksEvents(asks) + Reading(stop)
    && RepairsSoFar(o, started, t.repairCount, first, asks, stop, leave)
    && u == WithRepairs(t, asks, stop)
    && row == RowSoFar(t.repairCount, first, asks, stop)
  }

  lemma FactsAfterStop(
    o: Limits, started: int, first: Attempt, t: Totals, start: seq<Event>, log: seq<Event>,
    asks: seq<Ask>, check: Option<int>, u: Totals, row: StepRow)
    requires LoopFacts(o, started, first, t, start, log, asks, None, false, u, row)
    requires u.repairCount < o.maxRepairs && OutOfTime(o, started, check)
    ensures LoopFacts(
      o, started, first, t, start, log + Reading(check), asks, check, true, u.(budgetExhausted := true),
      StepRow(first.index, BudgetExhausted, false, Repairing, ZERO, AttemptNumber(u.repairCount), None, Some(first.outcome)))
  {
    ReadingKeepsJudge(log, check);
    assert start + AsksEvents(asks) + Reading(None) == start + AsksEvents(asks);
  }

  /** The reading before a question leaves no mark on the row or the totals. */
  lemma CheckPlaysNoPart(n: nat, first: Attempt, a: Ask, check: Option<int>, u: Totals)
    ensures RowAfter(n, first, a.(check := check)) == RowAfter(n, first, a)
    ensures WithAsk(u, a.(check := check)) == WithAsk(u, a)
  {
  }

  lemma FactsAfterTurn(
    o: Limits, started: int, first: Attempt, t: Totals, start: seq<Event>, log: seq<Event>, after: seq<Event>,
    asks: seq<Ask>, check: Option<int>, a: Ask, u: Totals, row: StepRow)
    requires LoopFacts(o, started, first, t, start, log, asks, None, false, u, row)
    requires u.repairCount < o.maxRepairs && InTime(o, started, check)
    requires a.check.None? && AskLegal(Limits(0, None), 0, first.index, first.judgedBy, a)
    requires after == log + Reading(check) + AskEvents(a) && Judge(after) == Some(first.judgedBy)
    ensures LoopFacts(
      o, started, first, t, start, after, asks + [a.(check := check)], None, !FailedRetry(a),
      WithAsk(u.(repairCount := u.repairCount + 1), a), RowAfter(u.repairCount + 1, first, a))
  {
    var b := a.(check := check);
    EventsNext(start, asks, check, a);
    CheckedAsk(o, started, first.index, first.judgedBy, a, check);
    TurnTaken(o, started, t.repairCount, first, asks, b);
    SoFarNotHealed(o, started, t.repairCount, first, asks);
    WithRepairsNext(t, asks, b);
    CheckPlaysNoPart(u.repairCount + 1, first, a, check, u.(repairCount := u.repairCount + 1));
  }

  lemma SoFarNotHealed(o: Limits, started: int, before: nat, first: Attempt, asks: seq<Ask>)
    requires RepairsSoFar(o, started, before, first, asks, None, false)
    ensures |asks| > 0 ==> asks[|asks| - 1].elapsed.None?
  {
    if |asks| > 0 {
      assert AskLegal(o, started, first.index, first.judgedBy, asks[|asks| - 1]);
    }
  }

  lemma LoopClosed(
    o: Limits, started: int, first: Attempt, t: Totals, start: seq<Event>, log: seq<Event>,
    asks: seq<Ask>, stop: Option<int>, leave: bool, u: Totals, row: StepRow, step: PlanStep, check: Option<int>)
    requires LoopFacts(o, started, first, t, start, log, asks, stop, leave, u, row)
    requires !leave ==> u.repairCount >= o.maxRepairs
    requires InTime(o, started, check) && !Success(first.outcome) && IsFirst(first, step, first.judgedBy)
    ensures var tr := StepTrace(step, check, first, asks, stop);
      StepLegal(o, started, t.repairCount, tr) && FinalRow(o, u.repairCount, first, row, leave) == RowOf(o, t.repairCount, tr)
  {
    RepairsDone(o, started, t, step, check, first, asks, stop, leave);
    FinalRowIsRowOf(o, started, t, step, check, first, asks, stop, leave);
    assert u.repairCount == t.repairCount + |asks|;
  }

  // ---- the step loop, between steps ----

  datatype StepEnd = Settled | TooLate | Unfair

  const NOTHING := Attempt(0, Action(Custom, None, None, None, None, None, []), false, Pass, ZERO, Null)

  ghost predicate RunFacts(
    o: Limits, started: int, plan: seq<PlanStep>, traces: seq<StepTrace>, tick: Option<int>, rows: seq<StepRow>, t: Totals)
  {
    && Underway(o, started, plan, traces) && rows == RowsOf(o, traces)
    && t == TotalsOf(traces).(budgetExhausted := TotalsOf(traces).budgetExhausted || tick.Some?)
  }

  lemma FactsAfterTick(
    o: Limits, started: int, plan: seq<PlanStep>, traces: seq<StepTrace>, tick: Option<int>, rows: seq<StepRow>, t: Totals)
    requires RunFacts(o, started, plan, traces, None, rows, t) && Going(rows) && |traces| < |plan| && OutOfTime(o, started, tick)
    ensures RunFacts(o, started, plan, traces, tick, rows, t.(budgetExhausted := true))
    ensures Runs.Finished(o, started, plan, traces, tick)
  {
  }

  lemma RowsNext(o: Limits, traces: seq<StepTrace>, tr: StepTrace)
    ensures RowsOf(o, traces + [tr]) == RowsOf(o, traces) + [RowOf(o, RepairCount(traces), tr)]
  {
    assert (traces + [tr])[..|traces|] == traces;
  }

  lemma LegalAtKept(o: Limits, started: int, traces: seq<StepTrace>, tr: StepTrace, i: nat)
    requires i < |traces| && LegalAt(o, started, traces, i)
    ensures LegalAt(o, started, traces + [tr], i)
  {
    assert (traces + [tr])[..i] == traces[..i];
  }

  lemma EachLegalNext(o: Limits, started: int, traces: seq<StepTrace>, tr: StepTrace)
    requires EachLegal(o, started, traces) && StepLegal(o, started, RepairCount(traces), tr)
    ensures EachLegal(o, started, traces + [tr])
  {
    var more := traces + [tr];
    assert more[..|traces|] == traces && more[|traces|] == tr;
    forall i | 0 <= i < |more| ensures LegalAt(o, started, more, i) {
      if i < |traces| {
        LegalAtKept(o, started, traces, tr, i);
      }
    }
  }

  lemma GoodNext(rows: seq<StepRow>, row: StepRow)
    requires GoodSoFar(rows) && Going(rows)
    ensures GoodSoFar(rows + [row])
  {
  }

  lemma UnderwayNext(o: Limits, started: int, plan: seq<PlanStep>, traces: seq<StepTrace>, tr: StepTrace)
    requires Underway(o, started, plan, traces) && Going(RowsOf(o, traces)) && |traces| < |plan|
    requires tr.step == plan[|traces|] && StepLegal(o, started, RepairCount(traces), tr)
    ensures Underway(o, started, plan, traces + [tr])
  {
    RowsNext(o, traces, tr);
    EachLegalNext(o, started, traces, tr);
    GoodNext(RowsOf(o, traces), RowOf(o, RepairCount(traces), tr));
  }

  lemma FactsAfterStep(
    o: Limits, started: int, plan: seq<PlanStep>, traces: seq<StepTrace>, tr: StepTrace, rows: seq<StepRow>, t: Totals)
    requires RunFacts(o, started, plan, traces, None, rows, t) && Going(rows) && |traces| < |plan|
    requires tr.step == plan[|traces|] && StepLegal(o, started, t.repairCount, tr)
    ensures RunFacts(o, started, plan, traces + [tr], None, rows + [RowOf(o, t.repairCount, tr)], WithStep(t, tr))
    ensures !Success(RowOf(o, t.repairCount, tr).outcome) ==> Runs.Finished(o, started, plan, traces + [tr], None)
  {
    TotalsCount(traces);
    TotalsNext(traces, tr);
    RowsNext(o, traces, tr);
    UnderwayNext(o, started, plan, traces, tr);
  }

  lemma EventsAfterStep(start: seq<Event>, traces: seq<StepTrace>, tr: StepTrace)
    ensures start + RunEvents(traces) + Reading(None) + StepEvents(tr) == start + RunEvents(traces + [tr]) + Reading(None)
  {
    TotalsNext(traces, tr);
  }

  /** What a run has done between two steps, and where it stands. */
  datatype Journal = Journal(
    plan: seq<PlanStep>, runId: string, version: string, start: seq<Event>, sent: seq<MetricRow>, started: int)

  ghost predicate RunState(
    o: Options, oracle: Oracle, j: Journal, traces: seq<StepTrace>, tick: Option<int>, rows: seq<StepRow>, t: Totals,
    stopped: bool, log: seq<Event>, emitted: seq<MetricRow>)
  {
    && Logged(j.start, j.started, traces, tick, log)
    && Standing(o.limits, j.started, j.plan, traces, tick, rows, t, stopped)
    && Reported(j.sent, emitted, j.runId, j.version, o, oracle, rows)
  }

  lemma NothingYet(o: Options, oracle: Oracle, j: Journal)
    ensures RunState(o, oracle, j, [], None, [], START, false, j.start + [Clock(j.started)], j.sent)
  {
  }

  lemma StateAfterTick(
    o: Options, oracle: Oracle, j: Journal, traces: seq<StepTrace>, tick: Option<int>, rows: seq<StepRow>, t: Totals,
    log: seq<Event>, emitted: seq<MetricRow>)
    requires RunState(o, oracle, j, traces, None, rows, t, false, log, emitted)
    requires |rows| < |j.plan| && OutOfTime(o.limits, j.started, tick)
    ensures RunState(o, oracle, j, traces, tick, rows, t.(budgetExhausted := true), true, log + Reading(tick), emitted)
  {
    StandingAfterTick(o.limits, j.started, j.plan, traces, tick, rows, t);
    LoggedTick(j.start, j.started, traces, log, tick);
  }

  lemma StateAfterStep(
    o: Options, oracle: Oracle, j: Journal, traces: seq<StepTrace>, tr: StepTrace, rows: seq<StepRow>, t: Totals, row: StepRow,
    log: seq<Event>, emitted: seq<MetricRow>)
    requires RunState(o, oracle, j, traces, None, rows, t, false, log, emitted) && |rows| < |j.plan|
    requires tr.step == j.plan[|rows|] && StepLegal(o.limits, j.started, t.repairCount, tr) && row == RowOf(o.limits, t.repairCount, tr)
    ensures RunState(
      o, oracle, j, traces + [tr], None, rows + [row], WithStep(t, tr), !Success(row.outcome), log + StepEvents(tr),
      emitted + [LineOf(j.runId, j.version, o.source, oracle.stamp(|emitted|), row)])
  {
    StandingAfterStep(o.limits, j.started, j.plan, traces, tr, rows, t);
    LoggedStep(j.start, j.started, traces, log, tr);
    ReportedNext(j.sent, emitted, j.runId, j.version, o, oracle, rows, row);
  }

  /** What an answer that changed the assertion leaves of a run: the settled steps, their lines, and a longer log. */
  ghost predicate Interrupted(o: Options, oracle: Oracle, j: Journal, traces: seq<StepTrace>, log: seq<Event>, emitted: seq<MetricRow>) {
    && |traces| < |j.plan| && Underway(o.limits, j.started, j.plan, traces)
    && j.start + [Clock(j.started)] + RunEvents(traces) <= log && EndsUnfairly(log)
    && Reported(j.sent, emitted, j.runId, j.version, o, oracle, RowsOf(o.limits, traces))
  }

  lemma InterruptedNow(
    o: Options, oracle: Oracle, j: Journal, traces: seq<StepTrace>, rows: seq<StepRow>, t: Totals,
    prior: seq<Event>, log: seq<Event>, emitted: seq<MetricRow>)
    requires RunState(o, oracle, j, traces, None, rows, t, false, prior, emitted) && |rows| < |j.plan|
    requires prior <= log && EndsUnfairly(log)
    ensures Interrupted(o, oracle, j, traces, log, emitted)
  {
    assert prior == j.start + [Clock(j.started)] + RunEvents(traces);
  }

  /** Tokens are spent by proposals that came back, and by nothing else. */
  ghost predicate Tokens(t: Totals, traces: seq<StepTrace>) {
    && TotalTokens(t.costReplay) == 0
    && t.costRepair.tokensIn == SumProposals(RunEvents(traces), TokensIn)
    && t.costRepair.tokensOut == SumProposals(RunEvents(traces), TokensOut)
    && t.costReplay.model == None && t.costRepair.model == LastModel(RunEvents(traces))
  }

  lemma TokensOfRun(o: Options, oracle: Oracle, j: Journal, log: seq<Event>, traces: seq<StepTrace>, tick: Option<int>)
    requires Genuine(o.mode, oracle, log) && Logged(j.start, j.started, traces, tick, log)
    requires Runs.Finished(o.limits, j.started, j.plan, traces, tick)
    ensures Tokens(ReportOf(o.limits, j.plan, traces, tick).totals, traces)
  {
    TokensComeFromProposals(o.mode, oracle, o.limits, j.started, log, j.start + [Clock(j.started)], traces, Reading(tick));
  }

  /** Everything a finished run emits: a line per settled step, then the run's own. */
  function RunLines(runId: string, version: string, o: Options, oracle: Oracle, base: nat, r: Report): seq<MetricRow> {
    Lines(runId, version, o.source, oracle, base, r.rows) + [RunLineOf(runId, version, o, oracle.stamp(base + |r.rows|), r)]
  }

  /** What the run's own row carries: each cost in its own field, the counts of the report, nothing assumed measured. */
  predicate RunRowSays(m: RunMetric, runId: string, version: string, o: Options, r: Report, at: string) {
    && m.runId == runId && m.version == version && m.recordedAt == at
    && m.taskSuccess == r.taskSuccess && m.successWithLe2 == (r.taskSuccess && r.totals.repairCount <= 2)
    && m.repairCount == r.totals.repairCount && m.stepsReplayValid == r.totals.replayValid
    && m.stepsTotal == r.stepsTotal && m.stepsAttempted == Some(|r.rows|)
    && m.selfHealed == r.totals.selfHealed && m.timeToRepair == Some(r.totals.timeToRepair)
    && m.costReplay == r.totals.costReplay && m.costRepair == r.totals.costRepair && m.costFresh == o.costFresh
    && m.costBuild == (match o.build case Some(b) => b.cost case None => None)
    && m.buildId == (match o.build case Some(b) => Some(b.id) case None => None)
    && m.repairCostMeasured == (if r.totals.measured then None else Some(false))
    && m.budgetExhausted == Some(r.totals.budgetExhausted)
  }

  /** A run that reached its end: what was logged and emitted since it began, and the report of exactly that. */
  ghost predicate Completed(
    o: Options, oracle: Oracle, j: Journal, traces: seq<StepTrace>, tick: Option<int>, r: Report, log: seq<Event>, emitted: seq<MetricRow>)
  {
    && Runs.Finished(o.limits, j.started, j.plan, traces, tick) && Logged(j.start, j.started, traces, tick, log)
    && r == ReportOf(o.limits, j.plan, traces, tick) && Tokens(r.totals, traces)
    && emitted == j.sent + RunLines(j.runId, j.version, o, oracle, |j.sent|, r)
  }

  /** One line per row, in order, then the run's own; what was emitted before stays. */
  ghost predicate EmittedSays(
    sent: seq<MetricRow>, emitted: seq<MetricRow>, runId: string, version: string, o: Options, oracle: Oracle, r: Report)
  {
    var n := |sent| + |r.rows|;
    && |emitted| == n + 1 && sent <= emitted
    && (forall i | 0 <= i < |r.rows| ::
          emitted[|sent| + i] == StepLine(StepMetric(runId, r.rows[i], version, o.source, oracle.stamp(|sent| + i))))
    && emitted[n].RunLine? && RunRowSays(emitted[n].run, runId, version, o, r, oracle.stamp(n))
  }

  lemma RunLinesSay(sent: seq<MetricRow>, runId: string, version: string, o: Options, oracle: Oracle, r: Report)
    requires r.stepsAttempted == |r.rows| && r.successWithLe2 == (r.taskSuccess && r.totals.repairCount <= 2)
    ensures EmittedSays(sent, sent + RunLines(runId, version, o, oracle, |sent|, r), runId, version, o, oracle, r)
  {
  }

  lemma StepEventsSplit(l: seq<Event>, tr: StepTrace)
    ensures l + Reading(tr.check) + [Tried(tr.first)] + AsksEvents(tr.asks) + Reading(tr.stop) == l + StepEvents(tr)
  {
  }

  ghost predicate Logged(start: seq<Event>, started: int, traces: seq<StepTrace>, tick: Option<int>, log: seq<Event>) {
    log == start + [Clock(started)] + RunEvents(traces) + Reading(tick)
  }

  lemma LoggedTick(start: seq<Event>, started: int, traces: seq<StepTrace>, log: seq<Event>, tick: Option<int>)
    requires Logged(start, started, traces, None, log)
    ensures Logged(start, started, traces, tick, log + Reading(tick))
  {
  }

  lemma LoggedStep(start: seq<Event>, started: int, traces: seq<StepTrace>, log: seq<Event>, tr: StepTrace)
    requires Logged(start, started, traces, None, log)
    ensures Logged(start, started, traces + [tr], None, log + StepEvents(tr))
  {
    EventsAfterStep(start + [Clock(started)], traces, tr);
  }

  /** Where the run stands between steps, and whether it is over. */
  ghost predicate Standing(
    o: Limits, started: int, plan: seq<PlanStep>, traces: seq<StepTrace>, tick: Option<int>,
    rows: seq<StepRow>, t: Totals, stopped: bool)
  {
    && RunFacts(o, started, plan, traces, tick, rows, t)
    && (if stopped then Runs.Finished(o, started, plan, traces, tick) else tick.None? && Going(rows))
  }

  lemma StandingAfterTick(
    o: Limits, started: int, plan: seq<PlanStep>, traces: seq<StepTrace>, tick: Option<int>, rows: seq<StepRow>, t: Totals)
    requires Standing(o, started, plan, traces, None, rows, t, false) && |rows| < |plan| && OutOfTime(o, started, tick)
    ensures Standing(o, started, plan, traces, tick, rows, t.(budgetExhausted := true), true)
  {
    FactsAfterTick(o, started, plan, traces, tick, rows, t);
  }

  lemma StandingAfterStep(
    o: Limits, started: int, plan: seq<PlanStep>, traces: seq<StepTrace>, tr: StepTrace, rows: seq<StepRow>, t: Totals)
    requires Standing(o, started, plan, traces, None, rows, t, false) && |rows| < |plan|
    requires tr.step == plan[|rows|] && StepLegal(o, started, t.repairCount, tr)
    ensures var row := RowOf(o, t.repairCount, tr);
      Standing(o, started, plan, traces + [tr], None, rows + [row], WithStep(t, tr), !Success(row.outcome))
  {
    FactsAfterStep(o, started, plan, traces, tr, rows, t);
  }

  /** What has been emitted since `sent`: exactly the lines of these rows. */
  ghost predicate Reported(
    sent: seq<MetricRow>, emitted: seq<MetricRow>, runId: string, version: string, o: Options, oracle: Oracle, rows: seq<StepRow>)
  {
    emitted == sent + Lines(runId, version, o.source, oracle, |sent|, rows)
  }

  lemma ReportedNext(
    sent: seq<MetricRow>, emitted: seq<MetricRow>, runId: string, version: string, o: Options, oracle: Oracle, rows: seq<StepRow>, row: StepRow)
    requires Reported(sent, emitted, runId, version, o, oracle, rows)
    ensures Reported(sent, emitted + [LineOf(runId, version, o.source, oracle.stamp(|emitted|), row)], runId, version, o, oracle, rows + [row])
  {
    var lines := Lines(runId, version, o.source, oracle, |sent|, rows);
    assert Lines(runId, version, o.source, oracle, |sent|, rows + [row])
      == lines + [LineOf(runId, version, o.source, oracle.stamp(|sent| + |rows|), row)];
  }

  lemma ReportedRun(
    sent: seq<MetricRow>, emitted: seq<MetricRow>, runId: string, version: string, o: Options, oracle: Oracle, r: Report)
    requires Reported(sent, emitted, runId, version, o, oracle, r.rows)
    ensures emitted + [RunLineOf(runId, version, o, oracle.stamp(|emitted|), r)] == sent + RunLines(runId, version, o, oracle, |sent|, r)
  {
  }

  lemma ReportIs(
    o: Limits, started: int, plan: seq<PlanStep>, traces: seq<StepTrace>, tick: Option<int>,
    rows: seq<StepRow>, t: Totals, stopped: bool)
    requires Standing(o, started, plan, traces, tick, rows, t, stopped) && (stopped || |rows| >= |plan|)
    ensures Runs.Finished(o, started, plan, traces, tick) && rows == RowsOf(o, traces)
    ensures var success := AllSucceeded(rows) && |rows| == |plan|;
      Report(success, success && t.repairCount <= 2, |plan|, |rows|, t, rows) == ReportOf(o, plan, traces, tick)
  {
  }

  /** What one step does to the program's assertions: its own is what its trace leaves, the others stay. */
  ghost predicate NthOnly(end: StepEnd, tr: StepTrace, n: nat, before: seq<Json>, after: seq<Json>, judge: Option<Json>)
    requires n < |before| == |after|
  {
    match end
    case TooLate => after == before
    case Settled => tr.first.judgedBy == before[n] && after == before[n := LeftBy(before[n], tr.asks)]
    case Unfair => StoppedAt(n, before, after, judge)
  }

  ghost predicate StoppedAt(n: nat, before: seq<Json>, after: seq<Json>, judge: Option<Json>) {
    n < |before| == |after| && judge == Some(before[n]) && after == before[n := after[n]]
  }

  ghost predicate JournalOf(j: Journal, p: LiveProgram, runId: string, started: int) {
    j.plan == PlanOf(p.steps) && j.runId == runId && j.version == p.testbedVersion && j.started == started
  }

  /** The settled steps, once the latest turn has been taken. */
  function Joined(traces: seq<StepTrace>, end: StepEnd, tr: StepTrace): seq<StepTrace> {
    if end == Settled then traces + [tr] else traces
  }

  /** Where the program's assertions stand against those before the run. */
  ghost predicate Upheld(ok: bool, before: seq<Json>, now: seq<Json>, traces: seq<StepTrace>, judge: Option<Json>) {
    if ok then Anchored(before, now, traces) else AnchoredUpTo(before, now, traces, judge)
  }

  lemma UpheldNext(
    end: StepEnd, tr: StepTrace, before: seq<Json>, mid: seq<Json>, now: seq<Json>, traces: seq<StepTrace>, judge: Option<Json>)
    requires Upheld(true, before, mid, traces, None) && |traces| < |mid| == |now| && NthOnly(end, tr, |traces|, mid, now, judge)
    ensures Upheld(end != Unfair, before, now, Joined(traces, end, tr), judge)
  {
  }

  class ReplayRunner {
    const options: Options
    const oracle: Oracle
    var readings: nat
    var attempts: nat
    var questions: nat
    var timings: nat
    var emitted: seq<MetricRow>
    /** Every reading, attempt, question and timing so far. */
    ghost var log: seq<Event>

    ghost predicate Valid()
      reads this
    {
      && Genuine(options.mode, oracle, log)
      && readings == Count(log, Reads) && attempts == Count(log, Tries) && questions == Count(log, Asks) && timings == Count(log, Timings)
    }

    constructor (options: Options, oracle: Oracle)
      ensures Valid() && this.options == options && this.oracle == oracle && emitted == [] && log == []
    {
      this.options, this.oracle := options, oracle;
      readings, attempts, questions, timings, emitted, log := 0, 0, 0, 0, [], [];
    }

    // ---- the outside world ----

    method Now() returns (t: int)
      requires Valid()
      modifies this`readings, this`log
      ensures Valid() && log == old(log) + [Clock(t)]
    {
      t := oracle.clock(readings);
      GenuineNext(options.mode, oracle, log, Clock(t));
      readings := readings + 1;
      log := log + [Clock(t)];
    }

    method Propose() returns (m: Move)
      requires Valid()
      modifies this`questions, this`log
      ensures Valid() && log == old(log) + [Asked(m)]
    {
      m := oracle.client(questions);
      GenuineNext(options.mode, oracle, log, Asked(m));
      questions := questions + 1;
      log := log + [Asked(m)];
    }

    method TimeToRepair() returns (ms: nat)
      requires Valid()
      modifies this`timings, this`log
      ensures Valid() && log == old(log) + [Timed(ms)]
    {
      ms := Max0(oracle.elapsed(timings));
      GenuineNext(options.mode, oracle, log, Timed(ms));
      timings := timings + 1;
      log := log + [Timed(ms)];
    }

    method AttemptStep(step: CompiledStep, action: Action, repairing: bool) returns (a: Attempt)
      requires Valid()
      modifies this`attempts, this`log
      ensures Valid() && log == old(log) + [Tried(a)]
      ensures a.index == step.step.index && a.action == action && a.repairing == repairing && a.judgedBy == step.assertion
      ensures options.mode.Live? ==> a.outcome == oracle.live(old(attempts)).0 && a.cost == Cost(0, 0, oracle.live(old(attempts)).1, None)
      ensures options.mode.NoPage? ==> a.outcome == PageError && a.cost == Cost(0, 0, 0, None)
      ensures options.mode.DryRun? ==> WentAs(options.mode, oracle, old(attempts), a)
      ensures repairing && (options.mode.DryRun? ==> !Success(DryOutcome(options.mode.outcomes, step.step.index, false))) ==>
        a.outcome !in {RepairExhausted, BudgetExhausted, RepairedPass}
      ensures !repairing && options.mode.DryRun? ==> a.outcome == DryOutcome(options.mode.outcomes, step.step.index, false)
    {
      var result := Execute(options.mode, oracle, attempts, step.step.index, repairing);
      a := Attempt(step.step.index, action, repairing, result.0, result.1, step.assertion);
      GenuineNext(options.mode, oracle, log, Tried(a));
      attempts := attempts + 1;
      log := log + [Tried(a)];
    }

    /** Whether the run's budget is spent. Without a budget the clock is not read. */
    method BudgetSpent(started: int) returns (spent: bool, ghost check: Option<int>)
      requires Valid()
      modifies this`readings, this`log
      ensures Valid() && log == old(log) + Reading(check)
      ensures if spent then OutOfTime(options.limits, started, check) else InTime(options.limits, started, check)
      ensures check.Some? <==> options.limits.budget.Some? && options.limits.budget.value > 0
      ensures spent <==> check.Some? && check.value - started >= options.limits.budget.value
    {
      spent, check := false, None;
      if Enabled(options.limits) {
        var t := Now();
        check := Some(t);
        spent := t - started >= options.limits.budget.value;
      } else {
        assert log + [] == log;
      }
    }

    method Emit(row: MetricRow)
      requires Valid()
      modifies this`emitted
      ensures Valid() && emitted == old(emitted) + [row]
    {
      emitted := emitted + [row];
    }

    // ---- the repair loop ----

    /** Execute the corrected action and, when it passes, take the time. */
    method Retry(step: CompiledStep, frozen: Json, m: Move, ghost before: seq<Event>) returns (a: Ask)
      requires Valid() && AssertionsEqual(frozen, step.assertion) && Judge(log) == Some(frozen) && log == before + [Asked(m)]
      requires m.Returns? && m.proposal.corrected.Some? && Fair(frozen, m)
      requires options.mode.DryRun? ==> !Success(DryOutcome(options.mode.outcomes, step.step.index, false))
      modifies this`attempts, this`timings, this`log
      ensures Valid() && Judge(log) == Some(frozen) && a.move == m && a.check.None? && a.retry.Some?
      ensures log == before + AskEvents(a)
      ensures AskLegal(Limits(0, None), 0, step.step.index, frozen, a)
    {
      var retry := AttemptStep(step, m.proposal.corrected.value, true);
      JudgeNext(old(log), Tried(retry));
      a := Ask(None, m, Some(retry), None);
      assert AskEvents(a) == [Asked(m)] + [Tried(retry)];
      if retry.outcome == Pass {
        ghost var tried := log;
        var ms := TimeToRepair();
        JudgeNext(tried, Timed(ms));
        a := a.(elapsed := Some(ms));
        assert AskEvents(a) == [Asked(m)] + [Tried(retry)] + [Timed(ms)];
      }
    }

    /** Ask, check that the assertion was left alone, and retry if there is something to retry. */
    method RepairOnce(step: CompiledStep, frozen: Json) returns (ok: bool, a: Ask)
      requires Valid() && AssertionsEqual(frozen, step.assertion) && Judge(log) == Some(frozen)
      requires options.mode.DryRun? ==> !Success(DryOutcome(options.mode.outcomes, step.step.index, false))
      modifies this`questions, this`attempts, this`timings, this`log, step
      ensures Valid() && a.check.None? && Judge(log) == Some(frozen)
      ensures step.assertion == if a.move.written.Some? then a.move.written.value else old(step.assertion)
      ensures log == old(log) + AskEvents(a)
      ensures ok ==> AskLegal(Limits(0, None), 0, step.step.index, frozen, a)
      ensures ok && a.retry.Some? ==> AssertionsEqual(frozen, step.assertion)
      ensures !ok ==> EndsUnfairly(log)
    {
      var m := Propose();
      JudgeNext(old(log), Asked(m));
      if m.written.Some? {
        step.assertion := m.written.value;
      }
      ok, a := true, Ask(None, m, None, None);
      assert AskEvents(a) == [Asked(m)];
      if m.Returns? {
        if !AssertionsEqual(frozen, step.assertion) || !AssertionsEqual(frozen, InContext(frozen, m)) {
          ok := false;
        } else if m.proposal.corrected.Some? {
          a := Retry(step, frozen, m, old(log));
        }
      }
    }

    /** What a turn means for the totals and for the step: whether it was repaired, and whether to stop asking. */
    method Settle(first: Attempt, t: Totals, a: Ask) returns (row: StepRow, u: Totals, repaired: bool, leave: bool)
      requires AskLegal(Limits(0, None), 0, first.index, first.judgedBy, a) && t.repairCount > 0
      ensures u == WithAsk(t, a) && row == RowAfter(t.repairCount, first, a)
      ensures repaired == a.elapsed.Some? && leave == !FailedRetry(a)
    {
      var attempt := t.repairCount;
      u := t;
      if a.move.Throws? {
        row := StepRow(first.index, RepairExhausted, false, Repairing, ZERO, Some(attempt), None, Some(first.outcome));
        return row, u, false, true;
      }
      var p := a.move.proposal;
      if !p.measured {
        u := u.(measured := false);
      }
      var proposeCost := Cost(p.tokensIn, p.tokensOut, a.move.ms, p.model);
      u := u.(costRepair := AddCost(u.costRepair, proposeCost));
      if p.corrected.None? {
        row := StepRow(first.index, RepairExhausted, false, Repairing, proposeCost, Some(attempt), None, Some(first.outcome));
        return row, u, false, true;
      }
      var retry := a.retry.value;
      u := u.(costRepair := AddCost(u.costRepair, retry.cost));
      if retry.outcome == Pass {
        u := u.(timeToRepair := u.timeToRepair + a.elapsed.value, selfHealed := true);
        row := StepRow(first.index, RepairedPass, false, Repairing, AddCost(proposeCost, retry.cost), Some(attempt), a.elapsed, None);
        return row, u, true, true;
      }
      row := StepRow(first.index, retry.outcome, false, Repairing, retry.cost, Some(attempt), None, None);
      return row, u, false, false;
    }

    /** Where the repair loop stands. */
    ghost predicate InLoop(
      step: CompiledStep, first: Attempt, t: Totals, started: int, start: seq<Event>,
      asks: seq<Ask>, stop: Option<int>, leave: bool, u: Totals, row: StepRow)
      reads this, step
    {
      && Valid()
      && LoopFacts(options.limits, started, first, t, start, log, asks, stop, leave, u, row)
      && step.assertion == LeftBy(first.judgedBy, asks)
      && (!leave ==> AssertionsEqual(first.judgedBy, step.assertion))
    }

    /** The loop is left for lack of time. */
    method StopForTime(first: Attempt, t: Totals) returns (row: StepRow, u: Totals)
      ensures u == t.(budgetExhausted := true)
      ensures row == StepRow(first.index, BudgetExhausted, false, Repairing, ZERO, AttemptNumber(t.repairCount), None, Some(first.outcome))
    {
      u := t.(budgetExhausted := true);
      row := StepRow(first.index, BudgetExhausted, false, Repairing, ZERO, None, None, Some(first.outcome));
      if t.repairCount > 0 {
        row := row.(attempt := Some(t.repairCount));
      }
    }

    /** One question to the client, with the time checked, and what comes of it. */
    method AskAndSettle(
      step: CompiledStep, first: Attempt, ghost t: Totals, started: int, ghost start: seq<Event>,
      ghost asks: seq<Ask>, u: Totals, row: StepRow, ghost prior: seq<Event>, ghost check: Option<int>)
      returns (fair: bool, v: Totals, now: StepRow, leave: bool, ghost more: seq<Ask>)
      requires Valid() && log == prior + Reading(check) && InTime(options.limits, started, check)
      requires LoopFacts(options.limits, started, first, t, start, prior, asks, None, false, u, row)
      requires step.assertion == LeftBy(first.judgedBy, asks) && AssertionsEqual(first.judgedBy, step.assertion)
      requires u.repairCount < options.limits.maxRepairs
      requires first.index == step.step.index && !Success(first.outcome)
      requires options.mode.DryRun? ==> first.outcome == DryOutcome(options.mode.outcomes, step.step.index, false)
      modifies this`questions, this`attempts, this`timings, this`log, step
      ensures Valid() && (!fair ==> old(log) <= log && EndsUnfairly(log) && Judge(log) == Some(first.judgedBy))
      ensures fair ==> LoopFacts(options.limits, started, first, t, start, log, more, None, leave, v, now)
      ensures fair ==> step.assertion == LeftBy(first.judgedBy, more) && v.repairCount == u.repairCount + 1
      ensures fair && !leave ==> AssertionsEqual(first.judgedBy, step.assertion)
    {
      v := u.(repairCount := u.repairCount + 1);
      ReadingKeepsJudge(prior, check);
      var a;
      fair, a := RepairOnce(step, first.judgedBy);
      more := asks + [a.(check := check)];
      now, leave := row, false;
      if fair {
        FactsAfterTurn(options.limits, started, first, t, start, prior, log, asks, check, a, u, row);
        LeftNext(first.judgedBy, asks, a.(check := check));
        var repaired;
        now, v, repaired, leave := Settle(first, v, a);
      }
    }

    /** One turn: check the time, ask, settle. */
    method RepairTurn(
      step: CompiledStep, first: Attempt, ghost t: Totals, started: int, ghost start: seq<Event>,
      ghost asks: seq<Ask>, u: Totals, row: StepRow)
      returns (fair: bool, v: Totals, now: StepRow, leave: bool, ghost more: seq<Ask>, ghost stop: Option<int>)
      requires InLoop(step, first, t, started, start, asks, None, false, u, row) && u.repairCount < options.limits.maxRepairs
      requires first.index == step.step.index && !Success(first.outcome)
      requires options.mode.DryRun? ==> first.outcome == DryOutcome(options.mode.outcomes, step.step.index, false)
      modifies this`readings, this`questions, this`attempts, this`timings, this`log, step
      ensures Valid() && (!fair ==> old(log) <= log && EndsUnfairly(log) && Judge(log) == Some(first.judgedBy))
      ensures fair ==> InLoop(step, first, t, started, start, more, stop, leave, v, now)
      ensures fair ==> leave || v.repairCount == u.repairCount + 1
    {
      ghost var prior := log;
      var spent, c := BudgetSpent(started);
      if spent {
        FactsAfterStop(options.limits, started, first, t, start, prior, asks, c, u, row);
        now, v := StopForTime(first, u);
        fair, leave, more, stop := true, true, asks, c;
      } else {
        fair, v, now, leave, more := AskAndSettle(step, first, t, started, start, asks, u, row, prior, c);
        stop := None;
      }
    }

    /** After the loop: an allowance that is used up, or was never there, is a failure of its own. */
    method CloseRow(first: Attempt, n: nat, row: StepRow, leave: bool) returns (r: StepRow)
      requires !leave ==> n >= options.limits.maxRepairs
      ensures r == FinalRow(options.limits, n, first, row, leave)
    {
      r := row;
      var max := options.limits.maxRepairs;
      if !leave && row.outcome != RepairExhausted && (n >= max || max == 0) {
        r := StepRow(first.index, RepairExhausted, false, Repairing, row.cost, None, None, Some(first.outcome));
        if n > 0 {
          r := r.(attempt := Some(n));
        }
      }
      if max == 0 {
        r := StepRow(first.index, RepairExhausted, false, Replaying, first.cost, None, None, Some(first.outcome));
      }
    }

    /** All repairs of one failed step. */
    method RepairStep(step: CompiledStep, first: Attempt, t: Totals, started: int, ghost check: Option<int>)
      returns (ok: bool, row: StepRow, u: Totals, ghost asks: seq<Ask>, ghost stop: Option<int>)
      requires Valid() && IsFirst(first, step.step, step.assertion) && !Success(first.outcome) && Judge(log) == Some(step.assertion)
      requires InTime(options.limits, started, check)
      requires options.mode.DryRun? ==> first.outcome == DryOutcome(options.mode.outcomes, step.step.index, false)
      modifies this`readings, this`questions, this`attempts, this`timings, this`log, step
      ensures Valid() && (!ok ==> old(log) <= log && EndsUnfairly(log) && Judge(log) == Some(first.judgedBy))
      ensures ok ==> log == old(log) + AsksEvents(asks) + Reading(stop)
      ensures ok ==> step.assertion == LeftBy(old(step.assertion), asks)
      ensures ok ==> u == WithRepairs(t, asks, stop)
      ensures ok ==> StepLegal(options.limits, started, t.repairCount, StepTrace(step.step, check, first, asks, stop))
      ensures ok ==> row == RowOf(options.limits, t.repairCount, StepTrace(step.step, check, first, asks, stop))
    {
      ghost var start := log;
      var leave := false;
      row := FirstRow(first);
      ok, u, asks, stop := true, t, [], None;
      assert start + AsksEvents([]) + Reading(None) == start;
      while !leave && u.repairCount < options.limits.maxRepairs
        invariant InLoop(step, first, t, started, start, asks, stop, leave, u, row)
        invariant start <= log && (!leave ==> stop.None?)
        decreases if leave then 0 else 1, options.limits.maxRepairs - u.repairCount
      {
        ok, u, row, leave, asks, stop := RepairTurn(step, first, t, started, start, asks, u, row);
        if !ok {
          return ok, row, u, asks, stop;
        }
      }
      LoopClosed(options.limits, started, first, t, start, log, asks, stop, leave, u, row, step.step, check);
      row := CloseRow(first, u.repairCount, row, leave);
    }

    // ---- the step loop ----

    /** From the first pass to the settled row. */
    method FinishStep(step: CompiledStep, first: Attempt, t: Totals, started: int, ghost check: Option<int>)
      returns (ok: bool, row: StepRow, u: Totals, ghost tr: StepTrace)
      requires Valid() && IsFirst(first, step.step, step.assertion) && Judge(log) == Some(step.assertion)
      requires InTime(options.limits, started, check)
      requires options.mode.DryRun? ==> first.outcome == DryOutcome(options.mode.outcomes, step.step.index, false)
      modifies this`readings, this`questions, this`attempts, this`timings, this`log, step
      ensures Valid() && (!ok ==> old(log) <= log && EndsUnfairly(log) && Judge(log) == Some(first.judgedBy))
      ensures tr.check == check && tr.first == first && tr.step == step.step
      ensures ok ==> log == old(log) + AsksEvents(tr.asks) + Reading(tr.stop) && u == WithStep(t, tr)
      ensures ok ==> StepLegal(options.limits, started, t.repairCount, tr)
      ensures ok ==> row == RowOf(options.limits, t.repairCount, tr)
      ensures ok ==> step.assertion == LeftBy(old(step.assertion), tr.asks)
    {
      u := t.(costReplay := AddCost(t.costReplay, first.cost));
      ok, row := true, FirstRow(first);
      tr := StepTrace(step.step, check, first, [], None);
      if first.outcome == Pass {
        u := u.(replayValid := u.replayValid + 1);
      } else if !Success(first.outcome) {
        ghost var asks, stop;
        ok, row, u, asks, stop := RepairStep(step, first, u, started, check);
        tr := StepTrace(step.step, check, first, asks, stop);
      }
      assert Success(first.outcome) ==> old(log) + AsksEvents([]) + Reading(None) == old(log);
    }

    /** One step of the program, unless there is no time left to begin it. */
    method RunStep(step: CompiledStep, t: Totals, started: int)
      returns (end: StepEnd, row: StepRow, u: Totals, ghost tr: StepTrace, ghost tick: Option<int>)
      requires Valid()
      modifies this`readings, this`questions, this`attempts, this`timings, this`log, step
      ensures Valid() && (end == Unfair ==> old(log) <= log && EndsUnfairly(log) && Judge(log) == Some(old(step.assertion)))
      ensures end == TooLate ==> step.assertion == old(step.assertion)
      ensures end == TooLate ==> log == old(log) + Reading(tick) && OutOfTime(options.limits, started, tick) && u == t
      ensures end == Settled ==> log == old(log) + StepEvents(tr) && tr.step == step.step && u == WithStep(t, tr)
      ensures end == Settled ==> StepLegal(options.limits, started, t.repairCount, tr)
      ensures end == Settled ==> row == RowOf(options.limits, t.repairCount, tr)
      ensures end == Settled ==> tr.first.judgedBy == old(step.assertion) && step.assertion == LeftBy(old(step.assertion), tr.asks)
    {
      var spent, check := BudgetSpent(started);
      tick := check;
      if spent {
        row, u, tr := FirstRow(NOTHING), t, StepTrace(step.step, None, NOTHING, [], None);
        return TooLate, row, u, tr, tick;
      }
      ghost var before := log;
      var first := AttemptStep(step, step.step.action, false);
      JudgeNext(before, Tried(first));
      var ok;
      ok, row, u, tr := FinishStep(step, first, t, started, check);
      StepEventsSplit(old(log), tr);
      end := if ok then Settled else Unfair;
    }

    /** One step of the program, and what it does to the assertions of all of them. */
    method RunNth(steps: seq<CompiledStep>, n: nat, t: Totals, started: int)
      returns (end: StepEnd, row: StepRow, u: Totals, ghost tr: StepTrace, ghost tick: Option<int>)
      requires Valid() && n < |steps|
      modifies this`readings, this`questions, this`attempts, this`timings, this`log, steps
      ensures Valid() && (end == Unfair ==> old(log) <= log && EndsUnfairly(log))
      ensures end == TooLate ==> log == old(log) + Reading(tick) && OutOfTime(options.limits, started, tick) && u == t
      ensures end == Settled ==> log == old(log) + StepEvents(tr) && tr.step == PlanOf(steps)[n] && u == WithStep(t, tr)
      ensures end == Settled ==> StepLegal(options.limits, started, t.repairCount, tr)
      ensures end == Settled ==> row == RowOf(options.limits, t.repairCount, tr)
      ensures DistinctObjects(steps) ==> NthOnly(end, tr, n, old(Assertions(steps)), Assertions(steps), Judge(log))
    {
      ghost var before := Assertions(steps);
      end, row, u, tr, tick := RunStep(steps[n], t, started);
      ghost var after := Assertions(steps);
      assert DistinctObjects(steps) ==> after == before[n := after[n]];
    }

    /** Where the step loop stands. */
    ghost predicate InRun(j: Journal, traces: seq<StepTrace>, tick: Option<int>, rows: seq<StepRow>, t: Totals, stopped: bool)
      reads this
    {
      Valid() && RunState(options, oracle, j, traces, tick, rows, t, stopped, log, emitted)
    }

    /** Record a settled step's row, emit its line, and say whether to stop. */
    method RecordRow(
      p: LiveProgram, runId: string, rows: seq<StepRow>, row: StepRow, ghost t: Totals,
      ghost j: Journal, ghost traces: seq<StepTrace>, ghost tr: StepTrace, ghost prior: seq<Event>)
      returns (now: seq<StepRow>, stopped: bool)
      requires Valid() && RunState(options, oracle, j, traces, None, rows, t, false, prior, emitted)
      requires j.runId == runId && j.version == p.testbedVersion
      requires |rows| < |j.plan| && log == prior + StepEvents(tr) && tr.step == j.plan[|rows|]
      requires StepLegal(options.limits, j.started, t.repairCount, tr) && row == RowOf(options.limits, t.repairCount, tr)
      modifies this`emitted
      ensures InRun(j, traces + [tr], None, now, WithStep(t, tr), stopped) && |now| == |rows| + 1
      ensures log == old(log) && Assertions(p.steps) == old(Assertions(p.steps))
    {
      StateAfterStep(options, oracle, j, traces, tr, rows, t, row, prior, emitted);
      now := rows + [row];
      Emit(LineOf(runId, p.testbedVersion, options.source, oracle.stamp(|emitted|), row));
      stopped := !Success(row.outcome);
    }

    /** One turn of the step loop: run the step, record and emit its row, and say whether to go on. */
    method Advance(p: LiveProgram, runId: string, started: int, rows: seq<StepRow>, t: Totals, ghost j: Journal, ghost traces: seq<StepTrace>)
      returns (end: StepEnd, now: seq<StepRow>, u: Totals, stopped: bool, ghost tr: StepTrace, ghost tick: Option<int>)
      requires InRun(j, traces, None, rows, t, false) && JournalOf(j, p, runId, started) && |traces| == |rows| < |p.steps|
      modifies this, p.steps
      ensures Valid() && (end == Unfair ==> Interrupted(options, oracle, j, traces, log, emitted))
      ensures end != Unfair ==> InRun(j, Joined(traces, end, tr), tick, now, u, stopped)
      ensures end == Settled ==> |now| == |rows| + 1
      ensures if end == TooLate then stopped && now == rows else tick.None?
      ensures DistinctObjects(p.steps) ==> NthOnly(end, tr, |rows|, old(Assertions(p.steps)), Assertions(p.steps), Judge(log))
    {
      var row;
      ghost var late;
      ghost var prior := log;
      end, row, u, tr, late := RunNth(p.steps, |rows|, t, started);
      stopped, now, tick := true, rows, None;
      if end == TooLate {
        StateAfterTick(options, oracle, j, traces, late, rows, t, prior, emitted);
        u, tick := t.(budgetExhausted := true), late;
      } else if end == Settled {
        now, stopped := RecordRow(p, runId, rows, row, t, j, traces, tr, prior);
      } else {
        InterruptedNow(options, oracle, j, traces, rows, t, prior, log, emitted);
      }
    }

    /** The same turn, with the program's assertions held against those before the run. */
    method Turn(
      p: LiveProgram, runId: string, started: int, rows: seq<StepRow>, t: Totals,
      ghost j: Journal, ghost traces: seq<StepTrace>, ghost before: seq<Json>, ghost mid: seq<Json>)
      returns (end: StepEnd, now: seq<StepRow>, u: Totals, stopped: bool, ghost more: seq<StepTrace>, ghost tick: Option<int>)
      requires InRun(j, traces, None, rows, t, false) && JournalOf(j, p, runId, started) && |traces| == |rows| < |p.steps|
      requires mid == Assertions(p.steps) && (DistinctObjects(p.steps) ==> Upheld(true, before, mid, traces, None))
      modifies this, p.steps
      ensures Valid() && (end == Unfair ==> Interrupted(options, oracle, j, more, log, emitted))
      ensures end != Unfair ==> InRun(j, more, tick, now, u, stopped) && |now| == |more|
      ensures end == Settled ==> |now| == |rows| + 1 && tick.None?
      ensures end == TooLate ==> stopped
      ensures DistinctObjects(p.steps) ==> Upheld(end != Unfair, before, Assertions(p.steps), more, Judge(log))
    {
      ghost var tr;
      end, now, u, stopped, tr, tick := Advance(p, runId, started, rows, t, j, traces);
      more := Joined(traces, end, tr);
      if DistinctObjects(p.steps) {
        UpheldNext(end, tr, before, mid, Assertions(p.steps), traces, Judge(log));
      }
    }

    /** Step after step, until the program ends, a step fails, time runs out or the client is found out. */
    method StepLoop(p: LiveProgram, runId: string, started: int, ghost j: Journal)
      returns (ok: bool, rows: seq<StepRow>, t: Totals, ghost traces: seq<StepTrace>, ghost tick: Option<int>, ghost stopped: bool)
      requires InRun(j, [], None, [], START, false) && JournalOf(j, p, runId, started)
      modifies this, p.steps
      ensures Valid()
      ensures ok ==> InRun(j, traces, tick, rows, t, stopped) && (stopped || |rows| >= |p.steps|)
      ensures !ok ==> Interrupted(options, oracle, j, traces, log, emitted)
      ensures DistinctObjects(p.steps) ==> Upheld(ok, old(Assertions(p.steps)), Assertions(p.steps), traces, Judge(log))
    {
      ok, rows, t, traces, tick, stopped := true, [], START, [], None, false;
      var done := false;
      ghost var before := Assertions(p.steps);
      ghost var now := before;
      while |rows| < |p.steps| && !done
        invariant InRun(j, traces, tick, rows, t, done) && |rows| == |traces| && (!done ==> tick.None?)
        invariant now == Assertions(p.steps) && (DistinctObjects(p.steps) ==> Upheld(true, before, now, traces, None))
        decreases if done then 0 else 1, |p.steps| - |rows|
      {
        var end;
        end, rows, t, done, traces, tick := Turn(p, runId, started, rows, t, j, traces, before, now);
        now := Assertions(p.steps);
        if end == Unfair {
          return false, rows, t, traces, tick, stopped;
        }
      }
      stopped := done;
    }

    /** The run's own row, once the step loop is over. */
    method FinishRun(
      p: LiveProgram, runId: string, rows: seq<StepRow>, t: Totals,
      ghost j: Journal, ghost traces: seq<StepTrace>, ghost tick: Option<int>, ghost stopped: bool)
      returns (r: Report)
      requires InRun(j, traces, tick, rows, t, stopped) && JournalOf(j, p, runId, j.started) && (stopped || |rows| >= |p.steps|)
      modifies this`emitted
      ensures Valid() && Completed(options, oracle, j, traces, tick, r, log, emitted)
      ensures log == old(log) && Assertions(p.steps) == old(Assertions(p.steps))
    {
      var success := AllSucceeded(rows) && |rows| == |p.steps|;
      r := Report(success, success && t.repairCount <= 2, |p.steps|, |rows|, t, rows);
      ReportedRun(j.sent, emitted, runId, p.testbedVersion, options, oracle, r);
      ReportIs(options.limits, j.started, j.plan, traces, tick, rows, t, stopped);
      TokensOfRun(options, oracle, j, log, traces, tick);
      Emit(RunLineOf(runId, p.testbedVersion, options, oracle.stamp(|emitted|), r));
    }

    /** The run proper, from its first reading on. */
    method RunBound(p: LiveProgram, runId: string)
      returns (r: Result<Report, RunError>, ghost j: Journal, ghost traces: seq<StepTrace>, ghost tick: Option<int>)
      requires Valid()
      modifies this, p.steps
      ensures Valid() && j == Journal(PlanOf(p.steps), runId, p.testbedVersion, old(log), old(emitted), j.started)
      ensures r.Ok? ==> Completed(options, oracle, j, traces, tick, r.value, log, emitted)
      ensures r.Err? ==> r.error == AssertionChanged && Interrupted(options, oracle, j, traces, log, emitted)
      ensures DistinctObjects(p.steps) ==> Upheld(r.Ok?, old(Assertions(p.steps)), Assertions(p.steps), traces, Judge(log))
    {
      var started := Now();
      j := Journal(PlanOf(p.steps), runId, p.testbedVersion, old(log), old(emitted), started);
      NothingYet(options, oracle, j);
      var ok, rows, t;
      ghost var stopped;
      ok, rows, t, traces, tick, stopped := StepLoop(p, runId, started, j);
      if ok {
        var report := FinishRun(p, runId, rows, t, j, traces, tick, stopped);
        r := Ok(report);
      } else {
        r := Err(AssertionChanged);
      }
    }

    /** Replay a program: refuse it unbound, then run it step by step until it ends, fails or runs out of time. */
    method Run(p: LiveProgram, b: Bindings, runId: string)
      returns (r: Result<Report, RunError>, ghost begun: int, ghost traces: seq<StepTrace>, ghost tick: Option<int>)
      requires Valid()
      modifies this, p.steps
      ensures Valid()
      ensures (r.Err? && r.error.UnboundParams?) <==> Params.MissingParams(old(Snapshot(p)), b) != []
      ensures r.Err? && r.error.UnboundParams? ==> unchanged(this) && forall s | s in p.steps :: unchanged(s)
      ensures r.Ok? ==> Runs.Finished(options.limits, begun, PlanOf(p.steps), traces, tick)
      ensures r.Ok? ==> log == old(log) + [Clock(begun)] + RunEvents(traces) + Reading(tick)
      ensures r.Ok? ==> r.value == ReportOf(options.limits, PlanOf(p.steps), traces, tick) && Tokens(r.value.totals, traces)
      ensures r.Ok? ==> emitted == old(emitted) + RunLines(runId, p.testbedVersion, options, oracle, |old(emitted)|, r.value)
      ensures AsItWent(options.mode, oracle, log)
      ensures r.Ok? ==>
        && r.value.stepsTotal == |p.steps| && r.value.stepsAttempted == |r.value.rows|
        && (r.value.successWithLe2 <==> r.value.taskSuccess && r.value.totals.repairCount <= 2)
        && EmittedSays(old(emitted), emitted, runId, p.testbedVersion, options, oracle, r.value)
      ensures r.Ok? && DistinctObjects(p.steps) ==>
        && Anchored(old(Assertions(p.steps)), Assertions(p.steps), traces)
        && ChangedExactlyByThrows(old(Assertions(p.steps)), Assertions(p.steps), traces)
      ensures r == Err(AssertionChanged) ==>
        Interrupted(
          options, oracle, Journal(PlanOf(p.steps), runId, p.testbedVersion, old(log), old(emitted), begun), traces, log, emitted)
      ensures r == Err(AssertionChanged) && DistinctObjects(p.steps) ==>
        AnchoredUpTo(old(Assertions(p.steps)), Assertions(p.steps), traces, Judge(log))
    {
      begun, traces, tick := 0, [], None;
      var missing := Params.AssertParamsBound(Snapshot(p), b);
      if missing != [] {
        GenuineWent(options.mode, oracle, log);
        return Err(UnboundParams(missing)), begun, traces, tick;
      }
      ghost var before := Assertions(p.steps);
      ghost var j;
      r, j, traces, tick := RunBound(p, runId);
      begun := j.started;
      GenuineWent(options.mode, oracle, log);
      if r.Ok? {
        RunLinesSay(j.sent, runId, p.testbedVersion, options, oracle, r.value);
      }
      if r.Ok? && DistinctObjects(p.steps) {
        ChangedByThrows(options.limits, begun, j.plan, traces, before, Assertions(p.steps));
      }
    }
  }
}
