/**
 * What one replay run did, step by step, and what follows from it: the grammar of its rows, its use of the repair
 * allowance and of the time budget, its costs, and which assertion judged each attempt.
 */
module Runs {
  import opened Wrappers
  import opened Json
  import opened Canonical
  import opened CacheTypes
  import opened Costs

  /** A step of the program, apart from its assertion. */
  datatype PlanStep = PlanStep(index: int, action: Action)

  /** One execution of a step: what was executed, how it went, and the assertion that judged it. */
  datatype Attempt = Attempt(index: int, action: Action, repairing: bool, outcome: Outcome, cost: Cost, judgedBy: Json)

  datatype Proposal = Proposal(corrected: Option<Action>, tokensIn: nat, tokensOut: nat, model: Option<string>, measured: bool)

  /**
   * What the repair client does when asked: it may assign the step's assertion, it may replace the assertion in
   * the context it was handed, and then it throws or returns a proposal.
   */
  datatype Move =
    | Throws(written: Option<Json>)
    | Returns(written: Option<Json>, swapped: Option<Json>, proposal: Proposal, ms: nat)

  datatype Event =
    | Clock(time: int)
    | Tried(attempt: Attempt)
    | Asked(move: Move)
    | Timed(elapsed: nat)

  /** One turn of the repair loop. */
  datatype Ask = Ask(check: Option<int>, move: Move, retry: Option<Attempt>, elapsed: Option<nat>)

  /** One step: the budget reading before it, the first pass, the repair turns, and the reading that cut them off. */
  datatype StepTrace = StepTrace(step: PlanStep, check: Option<int>, first: Attempt, asks: seq<Ask>, stop: Option<int>)

  /** `budget` is None when it is not a finite number. */
  datatype Limits = Limits(maxRepairs: int, budget: Option<int>)

  predicate Enabled(o: Limits) {
    o.budget.Some? && o.budget.value > 0
  }

  predicate Spent(o: Limits, started: int, now: int) {
    Enabled(o) && now - started >= o.budget.value
  }

  /** A budget check that let the run go on; nothing is read when there is no budget. */
  predicate InTime(o: Limits, started: int, check: Option<int>) {
    if Enabled(o) then check.Some? && !Spent(o, started, check.value) else check.None?
  }

  predicate OutOfTime(o: Limits, started: int, check: Option<int>) {
    check.Some? && Spent(o, started, check.value)
  }

  // ---- what happened, in order ----

  function Reading(check: Option<int>): seq<Event> {
    if check.Some? then [Clock(check.value)] else []
  }

  function AskEvents(a: Ask): seq<Event> {
    Reading(a.check) + [Asked(a.move)]
    + (if a.retry.Some? then [Tried(a.retry.value)] else [])
    + (if a.elapsed.Some? then [Timed(a.elapsed.value)] else [])
  }

  function AsksEvents(asks: seq<Ask>): seq<Event> {
    if |asks| == 0 then [] else AsksEvents(asks[..|asks| - 1]) + AskEvents(asks[|asks| - 1])
  }

  function StepEvents(tr: StepTrace): seq<Event> {
    Reading(tr.check) + [Tried(tr.first)] + AsksEvents(tr.asks) + Reading(tr.stop)
  }

  function RunEvents(traces: seq<StepTrace>): seq<Event> {
    if |traces| == 0 then [] else RunEvents(traces[..|traces| - 1]) + StepEvents(traces[|traces| - 1])
  }

  // ---- which traces are legal ----

  /** The client left the assertion as it found it, up to key order, both on the step and in its context. */
  predicate Fair(judge: Json, m: Move) {
    m.Returns? ==>
      (m.written.Some? ==> AssertionsEqual(judge, m.written.value)) && (m.swapped.Some? ==> AssertionsEqual(judge, m.swapped.value))
  }

  predicate AskLegal(o: Limits, started: int, index: int, judge: Json, a: Ask) {
    && InTime(o, started, a.check) && Fair(judge, a.move)
    && (a.retry.Some? <==> a.move.Returns? && a.move.proposal.corrected.Some?)
    && (a.retry.Some? ==>
          && a.retry.value.index == index && a.retry.value.repairing && a.retry.value.action == a.move.proposal.corrected.value
          && a.retry.value.outcome !in {RepairExhausted, BudgetExhausted, RepairedPass}
          && AssertionsEqual(judge, a.retry.value.judgedBy))
    && (a.elapsed.Some? <==> a.retry.Some? && a.retry.value.outcome == Pass)
  }

  /** The retry failed, so the loop may go round again. */
  predicate FailedRetry(a: Ask) {
    a.retry.Some? && a.retry.value.outcome != Pass
  }

  predicate Healed(tr: StepTrace) {
    |tr.asks| > 0 && tr.asks[|tr.asks| - 1].elapsed.Some?
  }

  predicate StepLegal(o: Limits, started: int, before: nat, tr: StepTrace) {
    && InTime(o, started, tr.check)
    && tr.first.index == tr.step.index && tr.first.action == tr.step.action && !tr.first.repairing
    && (Success(tr.first.outcome) ==> tr.asks == [] && tr.stop.None?)
    && (forall i | 0 <= i < |tr.asks| :: AskLegal(o, started, tr.step.index, tr.first.judgedBy, tr.asks[i]))
    && (forall i | 0 <= i < |tr.asks| - 1 :: FailedRetry(tr.asks[i]))
    && (|tr.asks| > 0 ==> before + |tr.asks| <= o.maxRepairs)
    && (!Success(tr.first.outcome) && (|tr.asks| > 0 ==> FailedRetry(tr.asks[|tr.asks| - 1])) ==>
          if tr.stop.Some? then before + |tr.asks| < o.maxRepairs && OutOfTime(o, started, tr.stop)
          else before + |tr.asks| >= o.maxRepairs)
    && (|tr.asks| > 0 && !FailedRetry(tr.asks[|tr.asks| - 1]) ==> tr.stop.None?)
  }

  // ---- the row and the totals ----

  function ProposalCost(m: Move): Cost {
    if m.Returns? then Cost(m.proposal.tokensIn, m.proposal.tokensOut, m.ms, m.proposal.model) else ZERO
  }

  function AttemptNumber(n: nat): Option<nat> {
    if n > 0 then Some(n) else None
  }

  /** The row a step leaves; `before` counts the repairs already spent on earlier steps. */
  function RowOf(o: Limits, before: nat, tr: StepTrace): StepRow {
    var index := tr.step.index;
    var n := before + |tr.asks|;
    var exhausted := StepRow(index, RepairExhausted, false, Repairing, ZERO, AttemptNumber(n), None, Some(tr.first.outcome));
    if Success(tr.first.outcome) then
      StepRow(index, tr.first.outcome, tr.first.outcome == Pass, Replaying, tr.first.cost, None, None, None)
    else if tr.stop.Some? then
      exhausted.(outcome := BudgetExhausted)
    else if |tr.asks| == 0 then
      if o.maxRepairs == 0 then exhausted.(mode := Replaying, cost := tr.first.cost, attempt := None)
      else if tr.first.outcome == RepairExhausted then
        StepRow(index, RepairExhausted, false, Replaying, tr.first.cost, None, None, None)
      else exhausted.(cost := tr.first.cost)
    else
      var last := tr.asks[|tr.asks| - 1];
      if last.retry.None? then exhausted.(cost := ProposalCost(last.move))
      else if last.elapsed.Some? then
        StepRow(index, RepairedPass, false, Repairing, AddCost(ProposalCost(last.move), last.retry.value.cost),
                Some(n), last.elapsed, None)
      else exhausted.(cost := last.retry.value.cost)
  }

  datatype Totals = Totals(
    repairCount: nat,
    replayValid: nat,
    selfHealed: bool,
    timeToRepair: nat,
    costReplay: Cost,
    costRepair: Cost,
    measured: bool,
    budgetExhausted: bool)

  const START := Totals(0, 0, false, 0, ZERO, ZERO, true, false)

  function AddAsk(c: Cost, a: Ask): Cost {
    var asked := if a.move.Returns? then AddCost(c, ProposalCost(a.move)) else c;
    if a.retry.Some? then AddCost(asked, a.retry.value.cost) else asked
  }

  function AddAsks(c: Cost, asks: seq<Ask>): Cost {
    if |asks| == 0 then c else AddAsk(AddAsks(c, asks[..|asks| - 1]), asks[|asks| - 1])
  }

  predicate Measured(a: Ask) {
    a.move.Returns? ==> a.move.proposal.measured
  }

  predicate AllMeasured(asks: seq<Ask>) {
    forall i | 0 <= i < |asks| :: Measured(asks[i])
  }

  /** Every accumulator after the repairs of one step. */
  function WithRepairs(t: Totals, asks: seq<Ask>, stop: Option<int>): Totals {
    var healed := |asks| > 0 && asks[|asks| - 1].elapsed.Some?;
    t.(repairCount := t.repairCount + |asks|,
       selfHealed := t.selfHealed || healed,
       timeToRepair := t.timeToRepair + (if healed then asks[|asks| - 1].elapsed.value else 0),
       costRepair := AddAsks(t.costRepair, asks),
       measured := t.measured && AllMeasured(asks),
       budgetExhausted := t.budgetExhausted || stop.Some?)
  }

  function WithFirst(t: Totals, first: Attempt): Totals {
    t.(costReplay := AddCost(t.costReplay, first.cost),
       replayValid := t.replayValid + (if first.outcome == Pass then 1 else 0))
  }

  function WithStep(t: Totals, tr: StepTrace): Totals {
    WithRepairs(WithFirst(t, tr.first), tr.asks, tr.stop)
  }

  function TotalsOf(traces: seq<StepTrace>): Totals {
    if |traces| == 0 then START else WithStep(TotalsOf(traces[..|traces| - 1]), traces[|traces| - 1])
  }

  function RepairCount(traces: seq<StepTrace>): nat {
    if |traces| == 0 then 0 else RepairCount(traces[..|traces| - 1]) + |traces[|traces| - 1].asks|
  }

  lemma {:induction false} TotalsCount(traces: seq<StepTrace>)
    ensures TotalsOf(traces).repairCount == RepairCount(traces)
  {
    if |traces| > 0 {
      TotalsCount(traces[..|traces| - 1]);
    }
  }

  function RowsOf(o: Limits, traces: seq<StepTrace>): (rows: seq<StepRow>)
    ensures |rows| == |traces|
  {
    if |traces| == 0 then []
    else
      var n := |traces| - 1;
      RowsOf(o, traces[..n]) + [RowOf(o, RepairCount(traces[..n]), traces[n])]
  }

  lemma {:induction false} RowAt(o: Limits, traces: seq<StepTrace>, i: nat)
    requires i < |traces|
    ensures RowsOf(o, traces)[i] == RowOf(o, RepairCount(traces[..i]), traces[i])
  {
    var n := |traces| - 1;
    if i < n {
      RowAt(o, traces[..n], i);
      assert traces[..n][..i] == traces[..i];
    }
  }

  ghost predicate FollowsPlan(plan: seq<PlanStep>, traces: seq<StepTrace>) {
    |traces| <= |plan| && forall i | 0 <= i < |traces| :: traces[i].step == plan[i]
  }

  predicate LegalAt(o: Limits, started: int, traces: seq<StepTrace>, i: nat)
    requires i < |traces|
  {
    StepLegal(o, started, RepairCount(traces[..i]), traces[i])
  }

  ghost predicate EachLegal(o: Limits, started: int, traces: seq<StepTrace>) {
    forall i | 0 <= i < |traces| :: LegalAt(o, started, traces, i)
  }

  /** Only the last row may be a failure. */
  ghost predicate GoodSoFar(rows: seq<StepRow>) {
    forall i | 0 <= i < |rows| - 1 :: Success(rows[i].outcome)
  }

  predicate Going(rows: seq<StepRow>) {
    |rows| > 0 ==> Success(rows[|rows| - 1].outcome)
  }

  /** The run as far as it got: every step legal and, but for the last, successful. */
  ghost predicate Underway(o: Limits, started: int, plan: seq<PlanStep>, traces: seq<StepTrace>) {
    FollowsPlan(plan, traces) && EachLegal(o, started, traces) && GoodSoFar(RowsOf(o, traces))
  }

  /** A finished run: every step done, a step failed, or the budget was found spent before the next step. */
  ghost predicate Finished(o: Limits, started: int, plan: seq<PlanStep>, traces: seq<StepTrace>, tick: Option<int>) {
    && Underway(o, started, plan, traces)
    && if tick.Some? then Going(RowsOf(o, traces)) && |traces| < |plan| && OutOfTime(o, started, tick)
       else Going(RowsOf(o, traces)) ==> |traces| == |plan|
  }

  /** What the run reports. */
  datatype Report = Report(
    taskSuccess: bool,
    successWithLe2: bool,
    stepsTotal: nat,
    stepsAttempted: nat,
    totals: Totals,
    rows: seq<StepRow>)

  predicate AllSucceeded(rows: seq<StepRow>) {
    forall i | 0 <= i < |rows| :: Success(rows[i].outcome)
  }

  function ReportOf(o: Limits, plan: seq<PlanStep>, traces: seq<StepTrace>, tick: Option<int>): Report {
    var rows, totals := RowsOf(o, traces), TotalsOf(traces);
    var success := AllSucceeded(rows) && |rows| == |plan|;
    Report(success, success && totals.repairCount <= 2, |plan|, |rows|,
           totals.(budgetExhausted := totals.budgetExhausted || tick.Some?), rows)
  }

  // ---- theorems ----

  lemma TotalsNext(traces: seq<StepTrace>, tr: StepTrace)
    ensures TotalsOf(traces + [tr]) == WithStep(TotalsOf(traces), tr)
    ensures RepairCount(traces + [tr]) == RepairCount(traces) + |tr.asks|
    ensures RunEvents(traces + [tr]) == RunEvents(traces) + StepEvents(tr)
  {
    assert (traces + [tr])[..|traces|] == traces;
  }

  /** A settled step ends in one of four ways. */
  lemma RowKinds(o: Limits, started: int, before: nat, tr: StepTrace)
    requires StepLegal(o, started, before, tr)
    ensures var row := RowOf(o, before, tr);
      && row.stepIndex == tr.step.index
      && row.outcome in {Pass, RepairedPass, RepairExhausted, BudgetExhausted}
      && (row.outcome == Pass <==> tr.first.outcome == Pass)
      && (row.replayValid <==> tr.first.outcome == Pass)
      && (row.outcome == RepairedPass <==> tr.first.outcome == RepairedPass || Healed(tr))
      && (row.outcome == BudgetExhausted <==> tr.stop.Some?)
      && row.timeToRepair == (if Healed(tr) then tr.asks[|tr.asks| - 1].elapsed else None)
  {
  }

  lemma RowFacts(o: Limits, started: int, plan: seq<PlanStep>, traces: seq<StepTrace>, i: nat)
    requires Underway(o, started, plan, traces) && i < |traces|
    ensures var row := RowsOf(o, traces)[i];
      && row.stepIndex == plan[i].index && row.outcome in {Pass, RepairedPass, RepairExhausted, BudgetExhausted}
      && (row.outcome == BudgetExhausted <==> traces[i].stop.Some?)
      && (row.timeToRepair.Some? <==> Healed(traces[i]))
      && (row.timeToRepair.Some? ==> row.outcome == RepairedPass && !row.replayValid)
      && (traces[i].stop.Some? ==> Enabled(o))
  {
    assert LegalAt(o, started, traces, i);
    RowAt(o, traces, i);
    RowKinds(o, started, RepairCount(traces[..i]), traces[i]);
  }

  /**
   * The rows of a run are a prefix of the program in order, every one a success except at most the last, which then
   * says whether repairs or time ran out.
   */
  lemma RunGrammar(o: Limits, started: int, plan: seq<PlanStep>, traces: seq<StepTrace>, tick: Option<int>)
    requires Finished(o, started, plan, traces, tick)
    ensures var rows := RowsOf(o, traces);
      && |rows| <= |plan|
      && (forall i | 0 <= i < |rows| :: rows[i].stepIndex == plan[i].index)
      && (forall i | 0 <= i < |rows| - 1 :: rows[i].outcome in {Pass, RepairedPass})
      && (|rows| > 0 ==> rows[|rows| - 1].outcome in {Pass, RepairedPass, RepairExhausted, BudgetExhausted})
      && (|rows| == |plan| || tick.Some? || (|rows| > 0 && !Success(rows[|rows| - 1].outcome)))
  {
    forall i | 0 <= i < |traces|
      ensures RowsOf(o, traces)[i].stepIndex == plan[i].index
      ensures RowsOf(o, traces)[i].outcome in {Pass, RepairedPass, RepairExhausted, BudgetExhausted}
    {
      RowFacts(o, started, plan, traces, i);
    }
  }

  datatype Kind = Reads | Tries | Asks | Timings

  function KindOf(e: Event): Kind {
    match e
    case Clock(_) => Reads
    case Tried(_) => Tries
    case Asked(_) => Asks
    case Timed(_) => Timings
  }

  function Count(log: seq<Event>, k: Kind): nat {
    if |log| == 0 then 0 else Count(log[..|log| - 1], k) + (if KindOf(log[|log| - 1]) == k then 1 else 0)
  }

  lemma {:induction false} CountConcat(a: seq<Event>, b: seq<Event>, k: Kind)
    ensures Count(a + b, k) == Count(a, k) + Count(b, k)
  {
    if |b| == 0 {
      assert a + b == a;
    } else {
      assert (a + b)[..|a + b| - 1] == a + b[..|b| - 1];
      CountConcat(a, b[..|b| - 1], k);
    }
  }

  lemma CountOne(e: Event, k: Kind)
    ensures Count([e], k) == if KindOf(e) == k then 1 else 0
  {
    assert [e][..0] == [];
  }

  lemma ReadingCounts(check: Option<int>, k: Kind)
    ensures Count(Reading(check), k) == if check.Some? && k == Reads then 1 else 0
  {
    if check.Some? {
      CountOne(Clock(check.value), k);
    }
  }

  lemma AskCounts(a: Ask, k: Kind)
    ensures k == Asks ==> Count(AskEvents(a), k) == 1
    ensures k == Tries ==> Count(AskEvents(a), k) <= 1
  {
    var r, m := Reading(a.check), [Asked(a.move)];
    var t := if a.retry.Some? then [Tried(a.retry.value)] else [];
    var e := if a.elapsed.Some? then [Timed(a.elapsed.value)] else [];
    ReadingCounts(a.check, k);
    CountOne(Asked(a.move), k);
    if a.retry.Some? {
      CountOne(Tried(a.retry.value), k);
    }
    if a.elapsed.Some? {
      CountOne(Timed(a.elapsed.value), k);
    }
    CountConcat(r, m, k);
    CountConcat(r + m, t, k);
    CountConcat(r + m + t, e, k);
  }

  lemma {:induction false} AsksCounts(asks: seq<Ask>, k: Kind)
    ensures k == Asks ==> Count(AsksEvents(asks), k) == |asks|
    ensures k == Tries ==> Count(AsksEvents(asks), k) <= |asks|
  {
    if |asks| > 0 {
      AsksCounts(asks[..|asks| - 1], k);
      AskCounts(asks[|asks| - 1], k);
      CountConcat(AsksEvents(asks[..|asks| - 1]), AskEvents(asks[|asks| - 1]), k);
    }
  }

  lemma StepCounts(tr: StepTrace, k: Kind)
    ensures k == Asks ==> Count(StepEvents(tr), k) == |tr.asks|
    ensures k == Tries ==> 1 <= Count(StepEvents(tr), k) <= 1 + |tr.asks|
  {
    ReadingCounts(tr.check, k);
    ReadingCounts(tr.stop, k);
    CountOne(Tried(tr.first), k);
    AsksCounts(tr.asks, k);
    CountConcat(Reading(tr.check), [Tried(tr.first)], k);
    CountConcat(Reading(tr.check) + [Tried(tr.first)], AsksEvents(tr.asks), k);
    CountConcat(Reading(tr.check) + [Tried(tr.first)] + AsksEvents(tr.asks), Reading(tr.stop), k);
  }

  lemma {:induction false} RunAsks(traces: seq<StepTrace>)
    ensures Count(RunEvents(traces), Asks) == RepairCount(traces)
  {
    if |traces| > 0 {
      var n := |traces| - 1;
      RunAsks(traces[..n]);
      StepCounts(traces[n], Asks);
      CountConcat(RunEvents(traces[..n]), StepEvents(traces[n]), Asks);
    }
  }

  lemma {:induction false} RunTries(traces: seq<StepTrace>)
    ensures |traces| <= Count(RunEvents(traces), Tries) <= |traces| + RepairCount(traces)
  {
    if |traces| > 0 {
      var n := |traces| - 1;
      RunTries(traces[..n]);
      StepCounts(traces[n], Tries);
      CountConcat(RunEvents(traces[..n]), StepEvents(traces[n]), Tries);
    }
  }

  /**
   * The repair allowance is shared by the whole run: the client was asked exactly `repair_count` times, never more
   * than the allowance, and steps were executed at most once per row and once per question.
   */
  lemma RepairAllowance(o: Limits, started: int, plan: seq<PlanStep>, traces: seq<StepTrace>)
    requires Underway(o, started, plan, traces)
    ensures var count := TotalsOf(traces).repairCount;
      && Count(RunEvents(traces), Asks) == count
      && count <= (if o.maxRepairs > 0 then o.maxRepairs else 0)
      && |traces| <= Count(RunEvents(traces), Tries) <= |traces| + count
  {
    RunAsks(traces);
    RunTries(traces);
    TotalsCount(traces);
    AllowanceKept(o, started, plan, traces, |traces|);
    assert traces[..|traces|] == traces;
  }

  lemma {:induction false} AllowanceKept(o: Limits, started: int, plan: seq<PlanStep>, traces: seq<StepTrace>, k: nat)
    requires Underway(o, started, plan, traces) && k <= |traces|
    ensures RepairCount(traces[..k]) <= (if o.maxRepairs > 0 then o.maxRepairs else 0)
  {
    if k > 0 {
      AllowanceKept(o, started, plan, traces, k - 1);
      assert traces[..k] == traces[..k - 1] + [traces[k - 1]];
      assert traces[..k][..k - 1] == traces[..k - 1];
      assert LegalAt(o, started, traces, k - 1);
    }
  }

  lemma {:induction false} StopsCounted(traces: seq<StepTrace>)
    ensures TotalsOf(traces).budgetExhausted <==> exists i :: 0 <= i < |traces| && traces[i].stop.Some?
  {
    if |traces| > 0 {
      var n := |traces| - 1;
      StopsCounted(traces[..n]);
      assert forall i | 0 <= i < n :: traces[..n][i] == traces[i];
    }
  }

  lemma StoppedRows(o: Limits, started: int, plan: seq<PlanStep>, traces: seq<StepTrace>)
    requires Underway(o, started, plan, traces)
    ensures var rows := RowsOf(o, traces);
      && (TotalsOf(traces).budgetExhausted <==> |rows| > 0 && rows[|rows| - 1].outcome == BudgetExhausted)
      && (TotalsOf(traces).budgetExhausted ==> Enabled(o))
  {
    var rows := RowsOf(o, traces);
    StopsCounted(traces);
    if TotalsOf(traces).budgetExhausted {
      var i :| 0 <= i < |traces| && traces[i].stop.Some?;
      RowFacts(o, started, plan, traces, i);
    }
    if |rows| > 0 {
      RowFacts(o, started, plan, traces, |rows| - 1);
    }
  }

  lemma AllIfLast(rows: seq<StepRow>)
    requires GoodSoFar(rows)
    ensures AllSucceeded(rows) <==> Going(rows)
  {
  }

  /** A task succeeds when every step of the program did; a run that ran out of time never did. */
  lemma TaskSuccessIff(o: Limits, started: int, plan: seq<PlanStep>, traces: seq<StepTrace>, tick: Option<int>)
    requires Finished(o, started, plan, traces, tick)
    ensures var r := ReportOf(o, plan, traces, tick);
      && (r.taskSuccess <==> |r.rows| == |plan| && (|r.rows| > 0 ==> Success(r.rows[|r.rows| - 1].outcome)))
      && (r.totals.budgetExhausted ==> !r.taskSuccess)
      && (r.totals.budgetExhausted <==> tick.Some? || (|r.rows| > 0 && r.rows[|r.rows| - 1].outcome == BudgetExhausted))
      && (r.totals.budgetExhausted ==> Enabled(o))
  {
    StoppedRows(o, started, plan, traces);
    AllIfLast(RowsOf(o, traces));
  }

  /** A reading at which the budget is spent. */
  predicate Late(o: Limits, started: int, e: Event) {
    e.Clock? && o.budget.Some? && o.budget.value > 0 && e.time - started >= o.budget.value
  }

  ghost predicate SomeLate(o: Limits, started: int, log: seq<Event>) {
    exists e :: e in log && Late(o, started, e)
  }

  /** The clock is read for the sake of a budget only. */
  ghost predicate ReadForBudget(o: Limits, log: seq<Event>) {
    forall e | e in log && e.Clock? :: o.budget.Some? && o.budget.value > 0
  }

  lemma LateInTurn(o: Limits, started: int, a: Ask)
    requires InTime(o, started, a.check)
    ensures !SomeLate(o, started, AskEvents(a)) && ReadForBudget(o, AskEvents(a))
  {
  }

  lemma {:induction false} LateInTurns(o: Limits, started: int, asks: seq<Ask>)
    requires forall i | 0 <= i < |asks| :: InTime(o, started, asks[i].check)
    ensures !SomeLate(o, started, AsksEvents(asks)) && ReadForBudget(o, AsksEvents(asks))
  {
    if |asks| > 0 {
      LateInTurns(o, started, asks[..|asks| - 1]);
      LateInTurn(o, started, asks[|asks| - 1]);
    }
  }

  lemma LateInStep(o: Limits, started: int, before: nat, tr: StepTrace)
    requires StepLegal(o, started, before, tr)
    ensures SomeLate(o, started, StepEvents(tr)) <==> tr.stop.Some?
    ensures ReadForBudget(o, StepEvents(tr))
  {
    forall i | 0 <= i < |tr.asks| ensures InTime(o, started, tr.asks[i].check) {
      assert AskLegal(o, started, tr.step.index, tr.first.judgedBy, tr.asks[i]);
    }
    LateInTurns(o, started, tr.asks);
    if tr.stop.Some? {
      assert Clock(tr.stop.value) in StepEvents(tr) && Late(o, started, Clock(tr.stop.value));
    }
  }

  lemma {:induction false} LateInRun(o: Limits, started: int, traces: seq<StepTrace>)
    requires EachLegal(o, started, traces)
    ensures SomeLate(o, started, RunEvents(traces)) <==> TotalsOf(traces).budgetExhausted
    ensures ReadForBudget(o, RunEvents(traces))
  {
    if |traces| > 0 {
      var n := |traces| - 1;
      LegalFront(o, started, traces);
      LateInRun(o, started, traces[..n]);
      LateInStep(o, started, RepairCount(traces[..n]), traces[n]);
      LateEither(o, started, RunEvents(traces[..n]), StepEvents(traces[n]));
    }
  }

  lemma LateEither(o: Limits, started: int, a: seq<Event>, b: seq<Event>)
    ensures SomeLate(o, started, a + b) <==> SomeLate(o, started, a) || SomeLate(o, started, b)
    ensures ReadForBudget(o, a) && ReadForBudget(o, b) ==> ReadForBudget(o, a + b)
  {
    if SomeLate(o, started, a) {
      var e :| e in a && Late(o, started, e);
      assert e in a + b;
    }
    if SomeLate(o, started, b) {
      var e :| e in b && Late(o, started, e);
      assert e in a + b;
    }
  }

  /** A run reports its budget as exhausted exactly when a reading found the budget spent; without one nothing is read. */
  lemma ExhaustedIffLate(o: Limits, started: int, plan: seq<PlanStep>, traces: seq<StepTrace>, tick: Option<int>)
    requires Finished(o, started, plan, traces, tick)
    ensures ReportOf(o, plan, traces, tick).totals.budgetExhausted <==> SomeLate(o, started, RunEvents(traces) + Reading(tick))
    ensures ReadForBudget(o, RunEvents(traces) + Reading(tick))
  {
    LateInRun(o, started, traces);
    LateEither(o, started, RunEvents(traces), Reading(tick));
    if tick.Some? {
      assert Clock(tick.value) in Reading(tick) && Late(o, started, Clock(tick.value));
    }
  }

  /** What a row keeps of its step: what first went wrong, how many repairs the run had spent, and what it cost. */
  predicate RowKeeps(o: Limits, before: nat, tr: StepTrace, row: StepRow) {
    var n := |tr.asks|;
    && (row.mode == Replaying <==> tr.first.outcome in {Pass, RepairedPass} || (n == 0 && tr.stop.None? && (o.maxRepairs == 0 || tr.first.outcome == RepairExhausted)))
    && (tr.first.outcome in {Pass, RepairedPass} ==> row.outcome == tr.first.outcome)
    && (row.attempt.Some? ==> row.attempt.value == before + n && row.mode == Repairing)
    && (row.attempt.None? ==> row.mode == Replaying || before + n == 0)
    && (row.outcome in {RepairExhausted, BudgetExhausted} && !(row.mode == Replaying && o.maxRepairs != 0) ==>
          row.firstPass == Some(tr.first.outcome))
    && (row.firstPass.Some? ==> row.firstPass.value == tr.first.outcome && row.outcome in {RepairExhausted, BudgetExhausted})
    && (tr.stop.Some? ==> row.cost == ZERO)
    && (tr.stop.None? && n == 0 ==> row.cost == tr.first.cost)
    && (tr.stop.None? && n > 0 && tr.asks[n - 1].retry.None? && tr.asks[n - 1].move.Throws? ==> row.cost == ZERO)
    && (tr.stop.None? && n > 0 && tr.asks[n - 1].retry.None? && tr.asks[n - 1].move.Returns? ==>
          var m := tr.asks[n - 1].move; row.cost == Cost(m.proposal.tokensIn, m.proposal.tokensOut, m.ms, m.proposal.model))
    && (row.outcome == RepairedPass && n > 0 ==>
          var m, retry := tr.asks[n - 1].move, tr.asks[n - 1].retry;
          m.Returns? && retry.Some? && row.cost.ms == m.ms + retry.value.cost.ms
            && row.cost.tokensIn == m.proposal.tokensIn + retry.value.cost.tokensIn
            && row.cost.tokensOut == m.proposal.tokensOut + retry.value.cost.tokensOut)
    && (tr.stop.None? && n > 0 && tr.asks[n - 1].retry.Some? && row.outcome != RepairedPass ==> row.cost == tr.asks[n - 1].retry.value.cost)
  }

  /** Every row of a run keeps that. */
  lemma RowsKeep(o: Limits, started: int, traces: seq<StepTrace>, i: nat)
    requires EachLegal(o, started, traces) && i < |traces|
    ensures RowKeeps(o, RepairCount(traces[..i]), traces[i], RowsOf(o, traces)[i])
  {
    assert LegalAt(o, started, traces, i);
    RowAt(o, traces, i);
    var asks := traces[i].asks;
    if |asks| > 0 {
      assert AskLegal(o, started, traces[i].step.index, traces[i].first.judgedBy, asks[|asks| - 1]);
    }
  }

  // ---- costs ----

  datatype Component = TokensIn | TokensOut | Millis

  function Part(c: Cost, k: Component): nat {
    match k
    case TokensIn => c.tokensIn
    case TokensOut => c.tokensOut
    case Millis => c.ms
  }

  lemma PartAdds(a: Cost, b: Cost, k: Component)
    ensures Part(AddCost(a, b), k) == Part(a, k) + Part(b, k)
  {
  }

  /** What the rows show. */
  function SumRows(rows: seq<StepRow>, k: Component): nat {
    if |rows| == 0 then 0 else SumRows(rows[..|rows| - 1], k) + Part(rows[|rows| - 1].cost, k)
  }

  lemma {:induction false} AsksCover(c: Cost, asks: seq<Ask>, k: Component)
    ensures Part(c, k) <= Part(AddAsks(c, asks), k)
  {
    if |asks| > 0 {
      AsksCover(c, asks[..|asks| - 1], k);
      AskCovers(AddAsks(c, asks[..|asks| - 1]), asks[|asks| - 1], k);
    }
  }

  function OwnCost(a: Ask, k: Component): nat {
    Part(ProposalCost(a.move), k) + (if a.retry.Some? then Part(a.retry.value.cost, k) else 0)
  }

  lemma AskCovers(c: Cost, a: Ask, k: Component)
    ensures Part(AddAsk(c, a), k) == Part(c, k) + OwnCost(a, k)
  {
  }

  lemma LastAskCovered(c: Cost, asks: seq<Ask>, k: Component)
    requires |asks| > 0
    ensures Part(c, k) + OwnCost(asks[|asks| - 1], k) <= Part(AddAsks(c, asks), k)
  {
    AsksCover(c, asks[..|asks| - 1], k);
    AskCovers(AddAsks(c, asks[..|asks| - 1]), asks[|asks| - 1], k);
  }

  lemma RowCost(o: Limits, before: nat, tr: StepTrace, k: Component)
    ensures Part(RowOf(o, before, tr).cost, k)
      <= Part(tr.first.cost, k) + (if |tr.asks| > 0 then OwnCost(tr.asks[|tr.asks| - 1], k) else 0)
  {
  }

  /** A step's row never shows more than the step added to the run's two accumulators. */
  lemma RowWithinStep(o: Limits, before: nat, t: Totals, tr: StepTrace, k: Component)
    ensures var u := WithStep(t, tr);
      Part(t.costReplay, k) + Part(t.costRepair, k) + Part(RowOf(o, before, tr).cost, k) <= Part(u.costReplay, k) + Part(u.costRepair, k)
  {
    RowCost(o, before, tr, k);
    PartAdds(t.costReplay, tr.first.cost, k);
    AsksCover(t.costRepair, tr.asks, k);
    if |tr.asks| > 0 {
      LastAskCovered(t.costRepair, tr.asks, k);
    }
  }

  lemma RowsOfFront(o: Limits, traces: seq<StepTrace>)
    requires |traces| > 0
    ensures var n := |traces| - 1;
      RowsOf(o, traces)[..n] == RowsOf(o, traces[..n]) && RowsOf(o, traces)[n] == RowOf(o, RepairCount(traces[..n]), traces[n])
  {
  }

  /** What the rows show is never more than what the run accounts for, in tokens or in time. */
  lemma {:induction false} RowsWithinTotals(o: Limits, traces: seq<StepTrace>, k: Component)
    ensures SumRows(RowsOf(o, traces), k) <= Part(TotalsOf(traces).costReplay, k) + Part(TotalsOf(traces).costRepair, k)
  {
    if |traces| > 0 {
      var n := |traces| - 1;
      RowsWithinTotals(o, traces[..n], k);
      RowWithinStep(o, RepairCount(traces[..n]), TotalsOf(traces[..n]), traces[n], k);
      RowsOfFront(o, traces);
    }
  }

  /** What an event adds to the accumulator of a phase: first passes replay, questions and retries repair. */
  function EventCost(e: Event, phase: Mode, k: Component): nat {
    match e
    case Tried(a) => if a.repairing == (phase == Repairing) then Part(a.cost, k) else 0
    case Asked(m) => if phase == Repairing then Part(ProposalCost(m), k) else 0
    case _ => 0
  }

  /** What everything that happened in a phase cost. */
  function SumEvents(log: seq<Event>, phase: Mode, k: Component): nat {
    if |log| == 0 then 0 else SumEvents(log[..|log| - 1], phase, k) + EventCost(log[|log| - 1], phase, k)
  }

  lemma {:induction false} SumConcat(a: seq<Event>, b: seq<Event>, phase: Mode, k: Component)
    ensures SumEvents(a + b, phase, k) == SumEvents(a, phase, k) + SumEvents(b, phase, k)
  {
    if |b| == 0 {
      assert a + b == a;
    } else {
      assert (a + b)[..|a + b| - 1] == a + b[..|b| - 1];
      SumConcat(a, b[..|b| - 1], phase, k);
    }
  }

  lemma SumOne(e: Event, phase: Mode, k: Component)
    ensures SumEvents([e], phase, k) == EventCost(e, phase, k)
  {
    assert [e][..0] == [];
  }

  lemma ReadingIsFree(check: Option<int>, phase: Mode, k: Component)
    ensures SumEvents(Reading(check), phase, k) == 0
  {
    if check.Some? {
      SumOne(Clock(check.value), phase, k);
    }
  }

  lemma AskEventsSum(a: Ask, phase: Mode, k: Component)
    ensures SumEvents(AskEvents(a), phase, k)
      == EventCost(Asked(a.move), phase, k) + (if a.retry.Some? then EventCost(Tried(a.retry.value), phase, k) else 0)
  {
    var r, m := Reading(a.check), [Asked(a.move)];
    var t := if a.retry.Some? then [Tried(a.retry.value)] else [];
    var e := if a.elapsed.Some? then [Timed(a.elapsed.value)] else [];
    ReadingIsFree(a.check, phase, k);
    SumOne(Asked(a.move), phase, k);
    if a.retry.Some? {
      SumOne(Tried(a.retry.value), phase, k);
    }
    if a.elapsed.Some? {
      SumOne(Timed(a.elapsed.value), phase, k);
    }
    SumConcat(r, m, phase, k);
    SumConcat(r + m, t, phase, k);
    SumConcat(r + m + t, e, phase, k);
  }

  /** A turn is paid for by the repair accumulator, and by it alone. */
  lemma AskSum(c: Cost, a: Ask, phase: Mode, k: Component)
    requires a.retry.Some? ==> a.retry.value.repairing
    ensures phase == Repairing ==> Part(AddAsk(c, a), k) == Part(c, k) + SumEvents(AskEvents(a), phase, k)
    ensures phase == Replaying ==> SumEvents(AskEvents(a), phase, k) == 0
  {
    AskEventsSum(a, phase, k);
    AskCovers(c, a, k);
  }

  lemma {:induction false} AsksSum(c: Cost, asks: seq<Ask>, phase: Mode, k: Component)
    requires forall i | 0 <= i < |asks| && asks[i].retry.Some? :: asks[i].retry.value.repairing
    ensures phase == Repairing ==> Part(AddAsks(c, asks), k) == Part(c, k) + SumEvents(AsksEvents(asks), phase, k)
    ensures phase == Replaying ==> SumEvents(AsksEvents(asks), phase, k) == 0
  {
    if |asks| > 0 {
      var n := |asks| - 1;
      AsksSum(c, asks[..n], phase, k);
      AskSum(AddAsks(c, asks[..n]), asks[n], phase, k);
      SumConcat(AsksEvents(asks[..n]), AskEvents(asks[n]), phase, k);
    }
  }

  function Spending(t: Totals, phase: Mode): Cost {
    if phase == Replaying then t.costReplay else t.costRepair
  }

  lemma StepSum(o: Limits, started: int, before: nat, t: Totals, tr: StepTrace, phase: Mode, k: Component)
    requires StepLegal(o, started, before, tr)
    ensures Part(Spending(WithStep(t, tr), phase), k) == Part(Spending(t, phase), k) + SumEvents(StepEvents(tr), phase, k)
  {
    forall i | 0 <= i < |tr.asks| && tr.asks[i].retry.Some? ensures tr.asks[i].retry.value.repairing {
      assert AskLegal(o, started, tr.step.index, tr.first.judgedBy, tr.asks[i]);
    }
    ReadingIsFree(tr.check, phase, k);
    ReadingIsFree(tr.stop, phase, k);
    SumOne(Tried(tr.first), phase, k);
    AsksSum(t.costRepair, tr.asks, phase, k);
    PartAdds(t.costReplay, tr.first.cost, k);
    SumConcat(Reading(tr.check), [Tried(tr.first)], phase, k);
    SumConcat(Reading(tr.check) + [Tried(tr.first)], AsksEvents(tr.asks), phase, k);
    SumConcat(Reading(tr.check) + [Tried(tr.first)] + AsksEvents(tr.asks), Reading(tr.stop), phase, k);
  }

  lemma LegalFront(o: Limits, started: int, traces: seq<StepTrace>)
    requires EachLegal(o, started, traces) && |traces| > 0
    ensures var n := |traces| - 1;
      EachLegal(o, started, traces[..n]) && StepLegal(o, started, RepairCount(traces[..n]), traces[n])
  {
    var n := |traces| - 1;
    assert LegalAt(o, started, traces, n);
    forall i | 0 <= i < n ensures LegalAt(o, started, traces[..n], i) {
      assert traces[..n][..i] == traces[..i] && LegalAt(o, started, traces, i);
    }
  }

  lemma {:induction false} PhaseConserved(o: Limits, started: int, traces: seq<StepTrace>, phase: Mode, k: Component)
    requires EachLegal(o, started, traces)
    ensures Part(Spending(TotalsOf(traces), phase), k) == SumEvents(RunEvents(traces), phase, k)
  {
    if |traces| > 0 {
      var n := |traces| - 1;
      LegalFront(o, started, traces);
      PhaseConserved(o, started, traces[..n], phase, k);
      StepSum(o, started, RepairCount(traces[..n]), TotalsOf(traces[..n]), traces[n], phase, k);
      SumConcat(RunEvents(traces[..n]), StepEvents(traces[n]), phase, k);
    }
  }

  /**
   * Cost is conserved, accumulator by accumulator: the replay cost is what the first passes cost, and the repair
   * cost what the returned proposals and the retries cost.
   */
  lemma CostsConserved(o: Limits, started: int, traces: seq<StepTrace>, k: Component)
    requires EachLegal(o, started, traces)
    ensures Part(TotalsOf(traces).costReplay, k) == SumEvents(RunEvents(traces), Replaying, k)
    ensures Part(TotalsOf(traces).costRepair, k) == SumEvents(RunEvents(traces), Repairing, k)
  {
    PhaseConserved(o, started, traces, Replaying, k);
    PhaseConserved(o, started, traces, Repairing, k);
  }

  /** What the proposals that were returned cost. */
  function SumProposals(log: seq<Event>, k: Component): nat {
    if |log| == 0 then 0
    else
      var e := log[|log| - 1];
      SumProposals(log[..|log| - 1], k) + (if e.Asked? then Part(ProposalCost(e.move), k) else 0)
  }

  /** When attempts cost nothing of a kind, replaying costs nothing of it and repairing what the proposals did. */
  lemma {:induction false} FreeAttempts(log: seq<Event>, k: Component)
    requires forall e | e in log && e.Tried? :: Part(e.attempt.cost, k) == 0
    ensures SumEvents(log, Replaying, k) == 0 && SumEvents(log, Repairing, k) == SumProposals(log, k)
  {
    if |log| > 0 {
      FreeAttempts(log[..|log| - 1], k);
      assert log[|log| - 1] in log;
    }
  }

  /** The model that the latest returned proposal to name one was made by. */
  function LastModel(log: seq<Event>): Option<string> {
    if |log| == 0 then None
    else
      var e := log[|log| - 1];
      if e.Asked? && e.move.Returns? && e.move.proposal.model.Some? then e.move.proposal.model else LastModel(log[..|log| - 1])
  }

  lemma {:induction false} LastModelConcat(a: seq<Event>, b: seq<Event>)
    ensures LastModel(a + b) == if LastModel(b).Some? then LastModel(b) else LastModel(a)
  {
    if |b| == 0 {
      assert a + b == a;
    } else {
      assert (a + b)[..|a + b| - 1] == a + b[..|b| - 1];
      LastModelConcat(a, b[..|b| - 1]);
    }
  }

  lemma NoModelInReading(check: Option<int>)
    ensures LastModel(Reading(check)) == None
  {
    assert check.Some? ==> Reading(check)[..0] == [];
  }

  lemma ModelOfTurn(c: Cost, a: Ask)
    requires a.retry.Some? ==> a.retry.value.cost.model.None?
    ensures AddAsk(c, a).model == if LastModel(AskEvents(a)).Some? then LastModel(AskEvents(a)) else c.model
  {
    var r, m := Reading(a.check), [Asked(a.move)];
    var t := if a.retry.Some? then [Tried(a.retry.value)] else [];
    var e := if a.elapsed.Some? then [Timed(a.elapsed.value)] else [];
    NoModelInReading(a.check);
    assert m[..0] == [] && (|t| > 0 ==> t[..0] == []) && (|e| > 0 ==> e[..0] == []);
    LastModelConcat(r, m);
    LastModelConcat(r + m, t);
    LastModelConcat(r + m + t, e);
  }

  lemma {:induction false} ModelOfTurns(c: Cost, asks: seq<Ask>)
    requires forall e | e in AsksEvents(asks) && e.Tried? :: e.attempt.cost.model.None?
    ensures AddAsks(c, asks).model == if LastModel(AsksEvents(asks)).Some? then LastModel(AsksEvents(asks)) else c.model
  {
    if |asks| > 0 {
      var n := |asks| - 1;
      ModelOfTurns(c, asks[..n]);
      if asks[n].retry.Some? {
        assert Tried(asks[n].retry.value) in AskEvents(asks[n]);
      }
      ModelOfTurn(AddAsks(c, asks[..n]), asks[n]);
      LastModelConcat(AsksEvents(asks[..n]), AskEvents(asks[n]));
    }
  }

  lemma ModelOfStep(t: Totals, tr: StepTrace)
    requires forall e | e in StepEvents(tr) && e.Tried? :: e.attempt.cost.model.None?
    ensures WithStep(t, tr).costReplay.model == t.costReplay.model
    ensures var m := LastModel(StepEvents(tr));
      WithStep(t, tr).costRepair.model == if m.Some? then m else t.costRepair.model
  {
    assert Tried(tr.first) in StepEvents(tr);
    forall e | e in AsksEvents(tr.asks) && e.Tried? ensures e.attempt.cost.model.None? {
      assert e in StepEvents(tr);
    }
    ModelOfTurns(t.costRepair, tr.asks);
    NoModelInReading(tr.check);
    NoModelInReading(tr.stop);
    assert [Tried(tr.first)][..0] == [];
    LastModelConcat(Reading(tr.check), [Tried(tr.first)]);
    LastModelConcat(Reading(tr.check) + [Tried(tr.first)], AsksEvents(tr.asks));
    LastModelConcat(Reading(tr.check) + [Tried(tr.first)] + AsksEvents(tr.asks), Reading(tr.stop));
  }

  /** When executing a step names no model, replaying names none and repairing the last one a proposal named. */
  lemma {:induction false} ModelOfRun(traces: seq<StepTrace>)
    requires forall e | e in RunEvents(traces) && e.Tried? :: e.attempt.cost.model.None?
    ensures TotalsOf(traces).costReplay.model == None && TotalsOf(traces).costRepair.model == LastModel(RunEvents(traces))
  {
    if |traces| > 0 {
      var n := |traces| - 1;
      ModelOfRun(traces[..n]);
      ModelOfStep(TotalsOf(traces[..n]), traces[n]);
      LastModelConcat(RunEvents(traces[..n]), StepEvents(traces[n]));
    }
  }

  /** The run's repair cost counts as measured exactly when no returned proposal said otherwise. */
  lemma {:induction false} MeasuredIff(traces: seq<StepTrace>)
    ensures TotalsOf(traces).measured <==> forall e | e in RunEvents(traces) :: e.Asked? && e.move.Returns? ==> e.move.proposal.measured
  {
    if |traces| > 0 {
      var n := |traces| - 1;
      MeasuredIff(traces[..n]);
      AsksMeasured(traces[n].asks);
      assert forall e: Event | e.Asked? :: e in StepEvents(traces[n]) <==> e in AsksEvents(traces[n].asks);
    }
  }

  lemma {:induction false} AsksMeasured(asks: seq<Ask>)
    ensures AllMeasured(asks) <==> forall e | e in AsksEvents(asks) :: e.Asked? && e.move.Returns? ==> e.move.proposal.measured
  {
    if |asks| > 0 {
      var n := |asks| - 1;
      AsksMeasured(asks[..n]);
      assert forall i | 0 <= i < n :: asks[..n][i] == asks[i];
      assert forall e: Event | e.Asked? :: e in AskEvents(asks[n]) <==> e.move == asks[n].move;
      assert Asked(asks[n].move) in AskEvents(asks[n]);
    }
  }

  function SumTime(rows: seq<StepRow>): nat {
    if |rows| == 0 then 0
    else SumTime(rows[..|rows| - 1]) + (if rows[|rows| - 1].timeToRepair.Some? then rows[|rows| - 1].timeToRepair.value else 0)
  }

  function CountValid(rows: seq<StepRow>): nat {
    if |rows| == 0 then 0 else CountValid(rows[..|rows| - 1]) + (if rows[|rows| - 1].replayValid then 1 else 0)
  }

  lemma LastRowAdds(front: seq<StepRow>, row: StepRow)
    ensures SumTime(front + [row]) == SumTime(front) + (if row.timeToRepair.Some? then row.timeToRepair.value else 0)
    ensures CountValid(front + [row]) == CountValid(front) + (if row.replayValid then 1 else 0)
  {
    assert (front + [row])[..|front|] == front;
  }

  lemma RowExplainsStep(o: Limits, started: int, before: nat, t: Totals, tr: StepTrace)
    requires StepLegal(o, started, before, tr)
    ensures var u, row := WithStep(t, tr), RowOf(o, before, tr);
      && u.timeToRepair == t.timeToRepair + (if row.timeToRepair.Some? then row.timeToRepair.value else 0)
      && u.replayValid == t.replayValid + (if row.replayValid then 1 else 0)
  {
    RowKinds(o, started, before, tr);
  }

  /** The accumulators that can be read off the rows agree with them. */
  lemma {:induction false} RowsExplainTotals(o: Limits, started: int, traces: seq<StepTrace>)
    requires EachLegal(o, started, traces)
    ensures var rows, t := RowsOf(o, traces), TotalsOf(traces);
      t.timeToRepair == SumTime(rows) && t.replayValid == CountValid(rows)
  {
    if |traces| > 0 {
      var n := |traces| - 1;
      LegalFront(o, started, traces);
      RowsExplainTotals(o, started, traces[..n]);
      RowExplainsStep(o, started, RepairCount(traces[..n]), TotalsOf(traces[..n]), traces[n]);
      LastRowAdds(RowsOf(o, traces[..n]), RowOf(o, RepairCount(traces[..n]), traces[n]));
    }
  }

  lemma {:induction false} HealedCounted(traces: seq<StepTrace>)
    ensures TotalsOf(traces).selfHealed <==> exists i :: 0 <= i < |traces| && Healed(traces[i])
  {
    if |traces| > 0 {
      var n := |traces| - 1;
      HealedCounted(traces[..n]);
      assert forall i | 0 <= i < n :: traces[..n][i] == traces[i];
    }
  }

  ghost predicate SomeRepaired(rows: seq<StepRow>) {
    exists i :: 0 <= i < |rows| && rows[i].timeToRepair.Some? && rows[i].outcome == RepairedPass && !rows[i].replayValid
  }

  /** A run counts as self-healed exactly when some row was repaired, and such a row is never a valid replay. */
  lemma SelfHealedIff(o: Limits, started: int, plan: seq<PlanStep>, traces: seq<StepTrace>)
    requires Underway(o, started, plan, traces)
    ensures TotalsOf(traces).selfHealed <==> SomeRepaired(RowsOf(o, traces))
  {
    HealedCounted(traces);
    if TotalsOf(traces).selfHealed {
      var i :| 0 <= i < |traces| && Healed(traces[i]);
      RowFacts(o, started, plan, traces, i);
    }
    if SomeRepaired(RowsOf(o, traces)) {
      var i :| 0 <= i < |traces| && RowsOf(o, traces)[i].timeToRepair.Some?;
      RowFacts(o, started, plan, traces, i);
    }
  }

  // ---- which assertion judged what ----

  /** The assertion the client's moves leave on the step. */
  function LeftBy(before: Json, asks: seq<Ask>): Json {
    if |asks| == 0 then before
    else
      var last := asks[|asks| - 1].move;
      if last.written.Some? then last.written.value else LeftBy(before, asks[..|asks| - 1])
  }

  /**
   * The run against the program's own assertions, `before` it and `after` it: each first pass was judged by its
   * step's assertion, and what is left on the step is what the client's moves left there.
   */
  ghost predicate Anchored(before: seq<Json>, after: seq<Json>, traces: seq<StepTrace>) {
    && |after| == |before| && |traces| <= |before|
    && (forall i | 0 <= i < |traces| :: traces[i].first.judgedBy == before[i] && after[i] == LeftBy(before[i], traces[i].asks))
    && forall i | |traces| <= i < |before| :: after[i] == before[i]
  }

  /** The same when the step after the settled ones was cut short: it was judged by its own assertion too. */
  ghost predicate AnchoredUpTo(before: seq<Json>, after: seq<Json>, traces: seq<StepTrace>, judge: Option<Json>) {
    && |traces| < |before| && |after| == |before| && judge == Some(before[|traces|])
    && Anchored(before, after[|traces| := before[|traces|]], traces)
  }

  /**
   * Whatever the client does to the assertion, every retry, and so every repaired pass, was judged by one equal up
   * to key order to the one the program gave the step.
   */
  lemma JudgedAlike(
    o: Limits, started: int, plan: seq<PlanStep>, traces: seq<StepTrace>, before: seq<Json>, after: seq<Json>, i: nat, j: nat)
    requires Underway(o, started, plan, traces) && Anchored(before, after, traces)
    requires i < |traces| && j < |traces[i].asks| && traces[i].asks[j].retry.Some?
    ensures var judge := traces[i].asks[j].retry.value.judgedBy;
      AssertionsEqual(before[i], judge) && (Proper(before[i]) && Proper(judge) ==> Same(before[i], judge))
  {
    var judge := traces[i].asks[j].retry.value.judgedBy;
    assert LegalAt(o, started, traces, i);
    assert AskLegal(o, started, traces[i].step.index, traces[i].first.judgedBy, traces[i].asks[j]);
    if Proper(before[i]) && Proper(judge) {
      StableIffSame(before[i], judge);
    }
  }

  /** A proposal that came back and was let through left the assertion alone, on the step and in the context. */
  lemma ReturnedUnchanged(
    o: Limits, started: int, plan: seq<PlanStep>, traces: seq<StepTrace>, before: seq<Json>, after: seq<Json>, i: nat, j: nat)
    requires Underway(o, started, plan, traces) && Anchored(before, after, traces)
    requires i < |traces| && j < |traces[i].asks| && traces[i].asks[j].move.Returns?
    ensures var m := traces[i].asks[j].move;
      && (m.written.Some? ==> AssertionsEqual(before[i], m.written.value))
      && (m.swapped.Some? ==> AssertionsEqual(before[i], m.swapped.value))
  {
    assert LegalAt(o, started, traces, i);
    assert AskLegal(o, started, traces[i].step.index, traces[i].first.judgedBy, traces[i].asks[j]);
  }

  /** In a finished run a repaired row was earned: its last retry passed, under the first pass's own assertion. */
  lemma RepairedPassIsEarned(o: Limits, started: int, plan: seq<PlanStep>, traces: seq<StepTrace>, i: nat)
    requires Underway(o, started, plan, traces) && i < |traces|
    requires RowsOf(o, traces)[i].outcome == RepairedPass && traces[i].first.outcome != RepairedPass
    ensures var asks := traces[i].asks;
      && |asks| > 0 && asks[|asks| - 1].retry.Some?
      && var retry := asks[|asks| - 1].retry.value;
        && retry.outcome == Pass && AssertionsEqual(traces[i].first.judgedBy, retry.judgedBy)
        && asks[|asks| - 1].move.Returns? && asks[|asks| - 1].move.proposal.corrected == Some(retry.action)
  {
    assert LegalAt(o, started, traces, i);
    RowAt(o, traces, i);
    RowKinds(o, started, RepairCount(traces[..i]), traces[i]);
    var asks := traces[i].asks;
    assert AskLegal(o, started, traces[i].step.index, traces[i].first.judgedBy, asks[|asks| - 1]);
  }

  /**
   * A step comes out of the run with a different assertion exactly when the client wrote one and then threw: a throw
   * skips the check that follows a returned proposal.
   */
  lemma ChangedOnlyByThrow(
    o: Limits, started: int, plan: seq<PlanStep>, traces: seq<StepTrace>, before: seq<Json>, after: seq<Json>, i: nat)
    requires Underway(o, started, plan, traces) && Anchored(before, after, traces) && i < |before|
    ensures AssertionsEqual(before[i], after[i]) <==> !(i < |traces| && LeftChanged(before[i], traces[i]))
  {
    if i < |traces| {
      assert LegalAt(o, started, traces, i);
      LeftFair(o, started, traces[i].step.index, traces[i].first.judgedBy, traces[i].asks);
    }
  }

  /** Of every step: it has another assertion than before exactly when the client last wrote one and threw. */
  ghost predicate ChangedExactlyByThrows(before: seq<Json>, after: seq<Json>, traces: seq<StepTrace>) {
    && |after| == |before|
    && forall i | 0 <= i < |before| :: AssertionsEqual(before[i], after[i]) <==> !(i < |traces| && LeftChanged(before[i], traces[i]))
  }

  lemma ChangedByThrows(o: Limits, started: int, plan: seq<PlanStep>, traces: seq<StepTrace>, before: seq<Json>, after: seq<Json>)
    requires Underway(o, started, plan, traces) && Anchored(before, after, traces)
    ensures ChangedExactlyByThrows(before, after, traces)
  {
    forall i | 0 <= i < |before|
      ensures AssertionsEqual(before[i], after[i]) <==> !(i < |traces| && LeftChanged(before[i], traces[i]))
    {
      ChangedOnlyByThrow(o, started, plan, traces, before, after, i);
    }
  }

  predicate LeftChanged(judge: Json, tr: StepTrace) {
    |tr.asks| > 0 && ThrewChanged(judge, tr.asks[|tr.asks| - 1].move)
  }

  predicate ThrewChanged(judge: Json, m: Move) {
    m.Throws? && m.written.Some? && !AssertionsEqual(judge, m.written.value)
  }

  lemma {:induction false} LeftFair(o: Limits, started: int, index: int, judge: Json, asks: seq<Ask>)
    requires forall i | 0 <= i < |asks| :: AskLegal(o, started, index, judge, asks[i])
    requires forall i | 0 <= i < |asks| - 1 :: FailedRetry(asks[i])
    ensures AssertionsEqual(judge, LeftBy(judge, asks)) <==> !(|asks| > 0 && ThrewChanged(judge, asks[|asks| - 1].move))
  {
    if |asks| > 0 {
      var n := |asks| - 1;
      LeftFair(o, started, index, judge, asks[..n]);
      assert n > 0 ==> FailedRetry(asks[n - 1]) && AskLegal(o, started, index, judge, asks[n - 1]);
      assert AskLegal(o, started, index, judge, asks[n]);
    }
  }
}
