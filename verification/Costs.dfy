/** Token and wall-clock costs, and the rows a run leaves behind for the report. */
module Costs {
  import opened Wrappers

  datatype Cost = Cost(tokensIn: nat, tokensOut: nat, ms: nat, model: Option<string>)

  const ZERO := Cost(0, 0, 0, None)

  function AddCost(a: Cost, b: Cost): Cost {
    Cost(a.tokensIn + b.tokensIn, a.tokensOut + b.tokensOut, a.ms + b.ms, if b.model.Some? then b.model else a.model)
  }

  function TotalTokens(c: Cost): nat {
    c.tokensIn + c.tokensOut
  }

  datatype Outcome =
    | Pass | RepairedPass | AssertionFailed | LocatorNotFound | Timeout | PageError | RepairExhausted | BudgetExhausted

  predicate Success(o: Outcome) {
    o == Pass || o == RepairedPass
  }

  datatype Mode = Replaying | Repairing

  /** One settled step. */
  datatype StepRow = StepRow(
    stepIndex: int,
    outcome: Outcome,
    replayValid: bool,
    mode: Mode,
    cost: Cost,
    attempt: Option<nat>,
    timeToRepair: Option<nat>,
    firstPass: Option<Outcome>)

  datatype Source = FromCache | FromFile

  datatype StepMetric = StepMetric(runId: string, row: StepRow, version: string, source: Option<Source>, recordedAt: string)

  datatype RunMetric = RunMetric(
    runId: string,
    version: string,
    taskSuccess: bool,
    repairCount: nat,
    successWithLe2: bool,
    stepsTotal: nat,
    stepsAttempted: Option<nat>,
    stepsReplayValid: nat,
    selfHealed: bool,
    timeToRepair: Option<nat>,
    costFresh: Cost,
    costBuild: Option<Cost>,
    buildId: Option<string>,
    costReplay: Cost,
    costRepair: Cost,
    repairCostMeasured: Option<bool>,
    budgetExhausted: Option<bool>,
    recordedAt: string)

  datatype MetricRow = StepLine(step: StepMetric) | RunLine(run: RunMetric)
}
