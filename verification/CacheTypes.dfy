/** The shapes a cache row is made of. An assertion is kept as the JSON value it is on disk. */
module CacheTypes {
  import opened Wrappers
  import opened Json

  datatype Strategy = RoleName | ByLabel | TestId | Structural | FreeText | Placeholder | CssVocab | TopologyOnly
    | Unrecognized

  datatype Locator = Locator(
    strategy: Strategy,
    role: Option<string>,
    name: Option<string>,
    labelText: Option<string>,
    testid: Option<string>,
    structuralPath: Option<string>,
    text: Option<string>,
    css: Option<string>,
    tenantScoped: Option<bool>)

  datatype ActionType =
    Navigate | Click | Fill | Select | Check | Uncheck | Press | Hover | Wait | Upload | Custom

  datatype Action = Action(
    kind: ActionType,
    paramRefs: Option<seq<string>>,
    urlTemplate: Option<string>,
    key: Option<string>,
    customOp: Option<string>,
    waitMs: Option<int>,
    chain: seq<Locator>)

  datatype ProgramRef = ProgramRef(programId: string, stepsTotal: int, compiledAt: string)

  datatype FlowTopology = FlowTopology(prev: Option<ActionType>, next: Option<ActionType>, landmark: Option<string>)

  datatype Reason =
    TenantLocatorText | TaintedAttribute | NonVocabRole | LiteralInAssertion | TopologyOnlyDegraded
    | Other | PoolLeakRefused

  datatype Provenance = Provenance(repairedAt: string, runId: string, attempt: int, replacedType: ActionType)

  /** `invalidated_at`: absent, null, or the time confidence fell below the threshold. */
  datatype Invalidation = Unset | Cleared | Since(at: string)

  /** An assertion is a JavaScript object, so none of its objects repeats a key. */
  type Assertion = j: Json | Proper(j) witness Null

  /** Everything in a row that does not depend on where it may be stored. Confidence is in millionths. */
  datatype Body = Body(
    rowId: string,
    siteKey: string,
    taskKey: string,
    stepIndex: int,
    program: Option<ProgramRef>,
    action: Action,
    assertion: Assertion,
    confidence: int,
    successes: nat,
    failures: nat,
    lastVerifiedAt: string,
    topology: Option<FlowTopology>,
    invalidated: Invalidation,
    provenance: Option<Provenance>)

  datatype CacheRow = CacheRow(body: Body, poolEligible: bool, reason: Option<Reason>)

  /** What a caller hands to the write path; `claim` is its own opinion about pool eligibility. */
  datatype Candidate = Candidate(body: Body, claim: Option<bool>)

  /** A stored row handed back to the write path. */
  function AsCandidate(row: CacheRow): Candidate {
    Candidate(row.body, Some(row.poolEligible))
  }
}
