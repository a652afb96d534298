/**
 * Replayable programs, read from a compiled bundle or from the rows a resolver found, and the round trip that makes
 * the two the same program.
 */
module Programs {
  import opened Wrappers
  import opened Order
  import opened Text
  import opened UrlRegex
  import opened Json
  import opened CacheTypes
  import opened Taint
  import opened Literals
  import opened Pool
  import opened Write
  import opened Locators
  import opened Synthesize
  import opened Store
  import opened Reload
  import opened Resolve
  import opened Ingest
  import opened IngestResolve
  import opened Compile
  import opened Params

  function StepOf(row: CacheRow): ProgramStep {
    ProgramStep(row.body.stepIndex, Some(row.body.rowId), row.body.action, row.body.assertion)
  }

  /** A program with the names it requires derived from its steps. */
  function ProgramOf(id: string, siteKey: string, taskKey: string, version: string, rows: seq<CacheRow>): Program {
    var steps := MapSeq(StepOf, SortBy(rows, StepLe));
    var p := Program(id, siteKey, taskKey, version, steps, None);
    p.(declared := Some(RequiredParams(p)))
  }

  function BundleToProgram(bundle: CompiledBundle, version: string): Program {
    ProgramOf(ProgramIdFor(bundle.trajectoryId), bundle.siteKey, bundle.taskKey, version, bundle.rows)
  }

  function RowsToProgram(found: Resolution, key: ProgramKey, version: string): Program
    requires found.Hit?
  {
    ProgramOf(found.programId, key.siteKey, key.taskKey, version, found.rows)
  }

  /** A step of a program is a row's: its number, id, action and assertion. */
  ghost predicate FromRow(step: ProgramStep, row: CacheRow) {
    && step.stepIndex == row.body.stepIndex && step.rowId == Some(row.body.rowId)
    && step.action == row.body.action && step.assertion == row.body.assertion
  }

  /** The program of some rows: one step a row, by step number, declaring every name its steps need, once and in order. */
  lemma ProgramSays(id: string, siteKey: string, taskKey: string, version: string, rows: seq<CacheRow>) returns (ordered: seq<CacheRow>)
    ensures multiset(ordered) == multiset(rows)
    ensures forall i, j | 0 <= i < j < |ordered| :: ordered[i].body.stepIndex <= ordered[j].body.stepIndex
    ensures var p := ProgramOf(id, siteKey, taskKey, version, rows);
      && p.programId == id && p.siteKey == siteKey && p.taskKey == taskKey && p.testbedVersion == version
      && |p.steps| == |ordered| && (forall i | 0 <= i < |ordered| :: FromRow(p.steps[i], ordered[i]))
      && p.declared.Some? && Distinct(p.declared.value) && Sorted(p.declared.value, StrLe)
      && forall n :: n in p.declared.value <==> NeededBy(p.steps, n)
  {
    ordered := SortBy(rows, StepLe);
    SortElements(rows, StepLe);
    SortSorts(rows, StepLe, AllRows());
    forall i, j | 0 <= i < j < |ordered| ensures ordered[i].body.stepIndex <= ordered[j].body.stepIndex {
      assert StepLe(ordered[i], ordered[j]);
    }
    RequiredParamsSpec(Program(id, siteKey, taskKey, version, MapSeq(StepOf, ordered), None));
  }

  // ---- what a compiled program needs bound ----

  lemma PatternNeedsNothing(template: string)
    ensures TemplateHoles(Some(TemplateRegex(template))) == [] && |TemplateRegex(template)| > 0
  {
    RegexIgnoresBindings(template, map[]);
  }

  lemma MadeNeeds(
    id: string, kind: string, strength: string, target: Option<Json>, expected: Option<Json>, timeout: int, failure: string)
    requires kind in {"text-matches", "url-matches"} ==>
      expected.Some? && exists u :: StrProp(expected.value, "regex_template") == Some(TemplateRegex(u))
    ensures var a := MakeAssertion(id, kind, strength, target, expected, timeout, failure);
      RequiredForAssertion(a) == [] && (Templated(a) ==> RegexTemplate(a) != Some(""))
  {
    AssertionParts(id, kind, strength, target, expected, timeout, failure);
    if kind in {"text-matches", "url-matches"} {
      var u :| StrProp(expected.value, "regex_template") == Some(TemplateRegex(u));
      PatternNeedsNothing(u);
    }
  }

  lemma HoleNamesDistinct(pairs: seq<(string, Option<Json>)>)
    requires |pairs| == 3 && pairs[0].0 == "template" && pairs[1].0 == "param_types" && pairs[2].0 == "regex_template"
    ensures DistinctNames(pairs)
  {
  }

  lemma HolePattern(name: string, paramType: string, regex: string)
    ensures StrProp(HoleExpected([], name, paramType, Some(regex)), "regex_template") == Some(regex)
  {
    var pairs := [("template", Quoted(Hole(name))), ("param_types", Some(Obj([Field(name, Str(paramType))]))),
                  ("regex_template", StrField(Some(regex)))];
    assert [] + pairs == pairs;
    HoleNamesDistinct(pairs);
    Lookup(pairs, 2, "regex_template", StrField(Some(regex)));
  }

  lemma ToastNeeds(id: string, name: string, timeout: int, p: Plan)
    requires p == TextPlan(name, timeout)
    ensures var a := MakeAssertion(id, p.kind, p.strength, p.target, p.expected, p.timeout, p.failure);
      RequiredForAssertion(a) == [] && (Templated(a) ==> RegexTemplate(a) != Some(""))
  {
    HolePattern(name, "string", TemplateRegex(Hole(name)));
    MadeNeeds(id, p.kind, p.strength, p.target, p.expected, p.timeout, p.failure);
  }

  /** No compiled assertion needs a parameter: every template it carries is shadowed by a pattern without holes. */
  lemma CompiledAssertionNeedsNothing(h: Heuristics, t: Trajectory, step: Step, chain: seq<Locator>, timeout: int)
    ensures var a := SynthesizeAssertion(h, t, step, chain, timeout);
      RequiredForAssertion(a) == [] && (Templated(a) ==> RegexTemplate(a) != Some(""))
  {
    var id, primary := AssertionId(t, step), PickPrimaryLocator(chain);
    if WantsText(h, step) {
      ToastNeeds(id, "success_message", timeout, TextPlan("success_message", timeout));
    } else if WantsCount(h, step) {
      MadeNeeds(id, "count-equals", "weak", Some(Obj([Field("count_scope", Str(CountScope(primary)))])),
                Some(HoleExpected([("count", Some(Num(0)))], "item_count", "integer", None)), timeout, "assertion_failed");
    } else if SawItGo(step, primary) {
      MadeNeeds(id, "element-visible", "strong", LocatorTarget(primary.value), Visible(false), timeout, "assertion_failed");
    } else if WantsElement(h, step, primary) && !ClickChangedUrl(step)
      && (ElementLocator(h, step, primary).Some? || PreferHintElement(h, step, primary)) {
      var found := ElementLocator(h, step, primary);
      MadeNeeds(id, "element-visible", ElementStrength(h, step),
                LocatorTarget(if found.Some? then found.value else RoleLocator("form")), Visible(true), timeout, "assertion_failed");
    } else if UrlChanged(step) || Suggested(step) == Some("url-matches") {
      var template := SanitizeTemplate(h, step.post.urlTemplate);
      UrlExpectedTemplate(template, t.parameters);
      MadeNeeds(id, "url-matches", UrlStrength(step), Some(Obj([Field("url_template", Str(template))])),
                Some(UrlExpected(template, t.parameters)), timeout, "assertion_failed");
    } else if Suggested(step) == Some("network-idle") || step.post.networkIdle {
      MadeNeeds(id, "network-idle", "weak", None, None, timeout, "timeout");
    } else {
      MadeNeeds(id, "custom", "weak", None,
                Some(HoleExpected([("custom_predicate_id", Quoted("post_digest_changed_or_stable"))], "dom_digest", "string", None)),
                DEFAULT_ASSERTION_TIMEOUT_MS, "unknown");
    }
  }

  lemma CompiledStepOverlooksNothing(c: Settings, t: Trajectory, step: Step)
    ensures Overlooked(StepOf(CompileStep(c, t, step))) == []
    ensures RequiredForStep(StepOf(CompileStep(c, t, step))) == RequiredForAction(ActionOf(c.h, step))
  {
    CompiledAssertionNeedsNothing(c.h, t, step, ActionOf(c.h, step).chain, c.timeout);
  }

  // ---- when the check before a compiled run is complete ----

  /** A compiled step requires what the recorded action does, hides no hole, and takes its value from the same place. */
  predicate NeedsAsRecorded(step: ProgramStep, a: Action) {
    && RequiredForStep(step) == RequiredForAction(a) && Overlooked(step) == []
    && step.action.kind == a.kind && Refs(step.action) == Refs(a)
  }

  /** The recorded action, without its locators. */
  function Recorded(s: Step): Action {
    Action(s.action.kind, s.action.paramRefs, s.action.urlTemplate, s.action.key, s.action.customOp, s.action.waitMs, [])
  }

  lemma CompiledAction(c: Settings, t: Trajectory, s: Step)
    ensures StepOf(CompileStep(c, t, s)).action == ActionOf(c.h, s)
  {
  }

  lemma ChainNeedsNothing(a: Action, b: Action)
    requires a.(chain := []) == b.(chain := [])
    ensures RequiredForAction(a) == RequiredForAction(b) && a.kind == b.kind && Refs(a) == Refs(b)
  {
    assert a.(chain := []).kind == b.(chain := []).kind && a.(chain := []).paramRefs == b.(chain := []).paramRefs;
    assert a.(chain := []).urlTemplate == b.(chain := []).urlTemplate && a.(chain := []).key == b.(chain := []).key;
  }

  lemma CompiledNeeds(c: Settings, t: Trajectory, s: Step)
    ensures NeedsAsRecorded(StepOf(CompileStep(c, t, s)), Recorded(s))
  {
    CompiledStepOverlooksNothing(c, t, s);
    CompiledAction(c, t, s);
    ChainNeedsNothing(ActionOf(c.h, s), Recorded(s));
  }

  /** Every element of one sequence has a match in another. */
  ghost predicate Matched<S(!new), T(!new)>(from: seq<S>, to: seq<T>, matches: (S, T) -> bool) {
    forall x | x in from :: exists y :: y in to && matches(x, y)
  }

  /** Then what is gathered from the first is gathered from the second, and a test the second passes the first does. */
  lemma MatchedGather<S(!new), T(!new), U>(f: S -> seq<U>, g: T -> seq<U>, from: seq<S>, to: seq<T>, matches: (S, T) -> bool, n: U)
    requires Matched(from, to, matches) && n in Gather(f, from)
    requires forall x, y | matches(x, y) :: f(x) == g(y)
    ensures n in Gather(g, to)
  {
    GatherMembers(f, from, n);
    GatherMembers(g, to, n);
    var k :| 0 <= k < |from| && n in f(from[k]);
    assert from[k] in from;
    var y :| y in to && matches(from[k], y);
    var i :| 0 <= i < |to| && to[i] == y;
    assert n in g(to[i]);
  }

  lemma MatchedAll<S(!new), T(!new)>(f: S -> bool, g: T -> bool, from: seq<S>, to: seq<T>, matches: (S, T) -> bool)
    requires Matched(from, to, matches) && forall i | 0 <= i < |to| :: g(to[i])
    requires forall x, y | matches(x, y) :: f(x) == g(y)
    ensures forall k | 0 <= k < |from| :: f(from[k])
  {
    forall k | 0 <= k < |from| ensures f(from[k]) {
      assert from[k] in from;
      var y :| y in to && matches(from[k], y);
      var i :| 0 <= i < |to| && to[i] == y;
      assert g(to[i]);
    }
  }

  /** What the recorded actions require. */
  predicate Demanded(actions: seq<Action>, n: string) {
    n in Gather(RequiredForAction, actions)
  }

  /** Every recorded fill and select names a parameter, and every upload one that another action requires. */
  predicate ValuesRecorded(actions: seq<Action>) {
    forall k | 0 <= k < |actions| :: ValueRecorded(actions, actions[k])
  }

  predicate ValueRecorded(actions: seq<Action>, a: Action) {
    match a.kind
    case Fill => Refs(a) != []
    case Select => Refs(a) != []
    case Upload => exists n | n in Refs(a) :: Demanded(actions, n)
    case _ => true
  }

  const AS_RECORDED: (Action, ProgramStep) -> bool := (a, step) => NeedsAsRecorded(step, a)
  const FROM_RECORDED: (ProgramStep, Action) -> bool := (step, a) => NeedsAsRecorded(step, a)

  /** Every recorded action became a step and every step was recorded. */
  ghost predicate MadeOf(steps: seq<ProgramStep>, actions: seq<Action>) {
    Matched(actions, steps, AS_RECORDED) && Matched(steps, actions, FROM_RECORDED)
  }

  lemma DemandedIsNeeded(steps: seq<ProgramStep>, actions: seq<Action>, n: string)
    requires MadeOf(steps, actions)
    ensures n in StepNames(steps) <==> Demanded(actions, n)
  {
    if Demanded(actions, n) {
      MatchedGather(RequiredForAction, RequiredForStep, actions, steps, AS_RECORDED, n);
    }
    if n in StepNames(steps) {
      MatchedGather(RequiredForStep, RequiredForAction, steps, actions, FROM_RECORDED, n);
    }
  }

  lemma NamedAsRecorded(step: ProgramStep, a: Action, required: seq<string>, actions: seq<Action>)
    requires NeedsAsRecorded(step, a) && forall n :: n in required <==> Demanded(actions, n)
    ensures NamesItsValue(step.action, required) <==> ValueRecorded(actions, a)
  {
  }

  ghost predicate SameDemand(required: seq<string>, actions: seq<Action>) {
    forall n :: n in required <==> Demanded(actions, n)
  }

  lemma NamedThenRecorded(steps: seq<ProgramStep>, required: seq<string>, actions: seq<Action>)
    requires MadeOf(steps, actions) && SameDemand(required, actions)
    requires forall i | 0 <= i < |steps| :: NamesItsValue(steps[i].action, required)
    ensures ValuesRecorded(actions)
  {
    var f, g := (a: Action) => ValueRecorded(actions, a), (step: ProgramStep) => NamesItsValue(step.action, required);
    forall a, step | NeedsAsRecorded(step, a) ensures f(a) == g(step) {
      NamedAsRecorded(step, a, required, actions);
    }
    assert forall i | 0 <= i < |steps| :: g(steps[i]);
    MatchedAll(f, g, actions, steps, AS_RECORDED);
    assert forall k | 0 <= k < |actions| :: f(actions[k]);
  }

  lemma RecordedThenNamed(steps: seq<ProgramStep>, required: seq<string>, actions: seq<Action>)
    requires MadeOf(steps, actions) && SameDemand(required, actions) && ValuesRecorded(actions)
    ensures forall i | 0 <= i < |steps| :: NamesItsValue(steps[i].action, required)
  {
    var f, g := (a: Action) => ValueRecorded(actions, a), (step: ProgramStep) => NamesItsValue(step.action, required);
    forall a, step | NeedsAsRecorded(step, a) ensures f(a) == g(step) {
      NamedAsRecorded(step, a, required, actions);
    }
    assert forall k | 0 <= k < |actions| :: f(actions[k]);
    MatchedAll(g, f, steps, actions, FROM_RECORDED);
    assert forall i | 0 <= i < |steps| :: g(steps[i]);
  }

  lemma NamedIffRecorded(p: Program, actions: seq<Action>)
    requires MadeOf(p.steps, actions) && SameDemand(RequiredParams(p), actions)
    ensures ValuesNamed(p) <==> ValuesRecorded(actions)
  {
    if ValuesNamed(p) {
      NamedThenRecorded(p.steps, RequiredParams(p), actions);
    }
    if ValuesRecorded(actions) {
      RecordedThenNamed(p.steps, RequiredParams(p), actions);
    }
  }

  lemma MadeOverlooksNothing(p: Program, actions: seq<Action>)
    requires MadeOf(p.steps, actions)
    ensures NothingOverlooked(p)
  {
    forall i | 0 <= i < |p.steps| ensures Overlooked(p.steps[i]) == [] {
      assert p.steps[i] in p.steps;
      var a :| a in actions && FROM_RECORDED(p.steps[i], a);
    }
  }

  /** A program made of recorded actions that declares no more than its steps need. */
  lemma MadeIsCovered(p: Program, actions: seq<Action>)
    requires MadeOf(p.steps, actions) && forall n | n in Declared(p) :: NeededBy(p.steps, n)
    ensures Covers(p) <==> ValuesRecorded(actions)
  {
    RequiredParamsSpec(p);
    forall n ensures n in RequiredParams(p) <==> Demanded(actions, n) {
      StepNamesMembers(p.steps, n);
      DemandedIsNeeded(p.steps, actions, n);
    }
    MadeOverlooksNothing(p, actions);
    NamedIffRecorded(p, actions);
    PreflightCoversIff(p);
  }

  /** What a program declares when its declaration is derived. */
  lemma DerivedDeclaresNeeded(p: Program, n: string)
    requires p.declared == Some(RequiredParams(p.(declared := None))) && n in Declared(p)
    ensures NeededBy(p.steps, n)
  {
    RequiredParamsSpec(p.(declared := None));
  }

  lemma SortedFrom(rows: seq<CacheRow>, step: ProgramStep) returns (k: nat)
    requires step in MapSeq(StepOf, SortBy(rows, StepLe))
    ensures k < |rows| && step == StepOf(rows[k])
  {
    var sorted := SortBy(rows, StepLe);
    var i :| 0 <= i < |sorted| && MapSeq(StepOf, sorted)[i] == step;
    SortedMembers(rows, sorted[i]);
    k :| 0 <= k < |rows| && rows[k] == sorted[i];
  }

  lemma BundleStep(c: Settings, t: Trajectory, step: ProgramStep)
    requires CompileTrajectory(c, t).Ok? && step in MapSeq(StepOf, SortBy(CompileTrajectory(c, t).value.rows, StepLe))
    ensures exists a :: a in MapSeq(Recorded, t.steps) && FROM_RECORDED(step, a)
  {
    var actions := MapSeq(Recorded, t.steps);
    var ordered := RowsOfBundle(c, t);
    var k := SortedFrom(CompileTrajectory(c, t).value.rows, step);
    var j :| 0 <= j < |t.steps| && t.steps[j] == ordered[k];
    CompiledNeeds(c, t, ordered[k]);
    assert actions[j] in actions && FROM_RECORDED(step, actions[j]);
  }

  lemma RecordedStep(c: Settings, t: Trajectory, steps: seq<ProgramStep>, j: nat)
    requires CompileTrajectory(c, t).Ok? && steps == MapSeq(StepOf, SortBy(CompileTrajectory(c, t).value.rows, StepLe))
    requires j < |t.steps|
    ensures exists step :: step in steps && AS_RECORDED(Recorded(t.steps[j]), step)
  {
    var rows := CompileTrajectory(c, t).value.rows;
    var sorted := SortBy(rows, StepLe);
    var ordered := RowsOfBundle(c, t);
    SameMembers(t.steps, ordered);
    assert t.steps[j] in ordered;
    var k :| 0 <= k < |ordered| && ordered[k] == t.steps[j];
    SortedMembers(rows, rows[k]);
    var i :| 0 <= i < |sorted| && sorted[i] == rows[k];
    CompiledNeeds(c, t, t.steps[j]);
    assert steps[i] in steps;
  }

  lemma SortedMembers(rows: seq<CacheRow>, row: CacheRow)
    ensures row in rows <==> row in SortBy(rows, StepLe)
  {
    SortElements(rows, StepLe);
    SameMembers(rows, SortBy(rows, StepLe));
  }

  lemma CompiledIsMade(c: Settings, t: Trajectory, steps: seq<ProgramStep>)
    requires CompileTrajectory(c, t).Ok? && steps == MapSeq(StepOf, SortBy(CompileTrajectory(c, t).value.rows, StepLe))
    ensures MadeOf(steps, MapSeq(Recorded, t.steps))
  {
    var actions := MapSeq(Recorded, t.steps);
    forall step | step in steps ensures exists a :: a in actions && FROM_RECORDED(step, a) {
      BundleStep(c, t, step);
    }
    forall a | a in actions ensures exists step :: step in steps && AS_RECORDED(a, step) {
      var j :| 0 <= j < |actions| && actions[j] == a;
      RecordedStep(c, t, steps, j);
    }
  }

  /**
   * For a compiled program the check before the run is complete, passing it leaves nothing unfilled, exactly when
   * the trajectory recorded a parameter for every value: an upload's own parameter is not required on its account.
   */
  lemma CompiledProgramIsCovered(c: Settings, t: Trajectory, version: string)
    requires CompileTrajectory(c, t).Ok?
    ensures Covers(BundleToProgram(CompileTrajectory(c, t).value, version)) <==> ValuesRecorded(MapSeq(Recorded, t.steps))
  {
    var p := BundleToProgram(CompileTrajectory(c, t).value, version);
    CompiledIsMade(c, t, p.steps);
    forall n | n in Declared(p) ensures NeededBy(p.steps, n) {
      DerivedDeclaresNeeded(p, n);
    }
    MadeIsCovered(p, MapSeq(Recorded, t.steps));
  }

  /** So a recording of a single upload compiles to a program that passes the check and still cannot upload. */
  lemma UploadAloneIsNotCovered(c: Settings, t: Trajectory, version: string)
    requires CompileTrajectory(c, t).Ok? && |t.steps| == 1 && t.steps[0].action.kind == Upload
    ensures !Covers(BundleToProgram(CompileTrajectory(c, t).value, version))
  {
    var actions := MapSeq(Recorded, t.steps);
    forall n ensures !Demanded(actions, n) {
      GatherMembers(RequiredForAction, actions, n);
    }
    assert !ValueRecorded(actions, actions[0]);
    CompiledProgramIsCovered(c, t, version);
  }

  // ---- the round trip through the cache ----

  function Unmarked(chain: seq<Locator>): (r: seq<Locator>)
    ensures |r| == |chain| && forall i | 0 <= i < |chain| :: r[i] == Unmark(chain[i])
  {
    MapSeq(Unmark, chain)
  }

  function Keep(chain: seq<Locator>, p: Policy, tainted: bool): seq<Locator> {
    if |chain| == 0 then []
    else
      var front := Keep(chain[..|chain| - 1], p, tainted);
      if p.Tainted(chain[|chain| - 1]) == tainted then front + [chain[|chain| - 1]] else front
  }

  lemma UnmarkedConcat(a: seq<Locator>, b: seq<Locator>)
    ensures Unmarked(a + b) == Unmarked(a) + Unmarked(b)
  {
  }

  lemma {:induction false} HalvesKeepOrder(p: Policy, chain: seq<Locator>)
    ensures Unmarked(PoolSafe(p, chain)) == Unmarked(Keep(chain, p, false))
    ensures Unmarked(TenantOnly(p, chain)) == Unmarked(Keep(chain, p, true))
  {
    if |chain| > 0 {
      var front, last := chain[..|chain| - 1], chain[|chain| - 1];
      HalvesKeepOrder(p, front);
      assert chain == front + [last];
      UnmarkedConcat(PoolSafe(p, front), [Mark(last, false)]);
      UnmarkedConcat(TenantOnly(p, front), [Mark(last, true)]);
      UnmarkedConcat(Keep(front, p, false), [last]);
      UnmarkedConcat(Keep(front, p, true), [last]);
      assert Unmark(Mark(last, false)) == Unmark(last) == Unmark(Mark(last, true));
    }
  }

  lemma {:induction false} HalvesHoldAll(p: Policy, chain: seq<Locator>)
    ensures multiset(Unmarked(Keep(chain, p, false))) + multiset(Unmarked(Keep(chain, p, true))) == multiset(Unmarked(chain))
  {
    if |chain| > 0 {
      var front, last := chain[..|chain| - 1], chain[|chain| - 1];
      HalvesHoldAll(p, front);
      assert chain == front + [last];
      UnmarkedConcat(front, [last]);
      UnmarkedConcat(Keep(front, p, false), [last]);
      UnmarkedConcat(Keep(front, p, true), [last]);
    }
  }

  /** The stored chain is the compiled one, clean locators first, each half in its own order; only marks differ. */
  ghost predicate Regrouped(stored: seq<Locator>, chain: seq<Locator>, p: Policy) {
    && Unmarked(stored) == Unmarked(Keep(chain, p, false)) + Unmarked(Keep(chain, p, true))
    && multiset(Unmarked(stored)) == multiset(Unmarked(chain))
    && forall i | 0 <= i < |stored| :: stored[i].tenantScoped == Some(i >= |Keep(chain, p, false)|)
  }

  lemma {:induction false} MarksSayWhichHalf(p: Policy, chain: seq<Locator>)
    ensures forall l | l in PoolSafe(p, chain) :: l.tenantScoped == Some(false)
    ensures forall l | l in TenantOnly(p, chain) :: l.tenantScoped == Some(true)
  {
    if |chain| > 0 {
      MarksSayWhichHalf(p, chain[..|chain| - 1]);
    }
  }

  lemma TenantChainRegroups(p: Policy, chain: seq<Locator>)
    ensures Regrouped(TenantChain(p, chain), chain, p)
  {
    var a, b := Keep(chain, p, false), Keep(chain, p, true);
    HalvesKeepOrder(p, chain);
    MarksSayWhichHalf(p, chain);
    UnmarkedConcat(PoolSafe(p, chain), TenantOnly(p, chain));
    UnmarkedConcat(a, b);
    HalvesHoldAll(p, chain);
    assert |PoolSafe(p, chain)| == |Unmarked(a)| == |a|;
    var t := TenantChain(p, chain);
    forall i | 0 <= i < |t| ensures t[i].tenantScoped == Some(i >= |a|) {
      if i < |a| {
        assert t[i] in PoolSafe(p, chain);
      } else {
        assert t[i] in TenantOnly(p, chain);
      }
    }
  }

  /** The same step, but for how its locators are grouped. */
  ghost predicate SameStep(stored: ProgramStep, compiled: ProgramStep, p: Policy) {
    && stored.(action := stored.action.(chain := [])) == compiled.(action := compiled.action.(chain := []))
    && Regrouped(stored.action.chain, compiled.action.chain, p)
  }

  ghost predicate SameProgram(stored: Program, compiled: Program, p: Policy) {
    && stored.(steps := []) == compiled.(steps := [])
    && |stored.steps| == |compiled.steps|
    && forall i | 0 <= i < |stored.steps| :: SameStep(stored.steps[i], compiled.steps[i], p)
  }

  lemma SameStepNeedsSame(a: ProgramStep, b: ProgramStep, p: Policy)
    requires SameStep(a, b, p)
    ensures RequiredForStep(a) == RequiredForStep(b)
  {
    var x, y := a.action.(chain := []), b.action.(chain := []);
    assert x == a.(action := x).action && y == b.(action := y).action;
    assert RequiredForAction(a.action) == RequiredForAction(x) && RequiredForAction(b.action) == RequiredForAction(y);
    assert a.assertion == a.(action := x).assertion && b.assertion == b.(action := y).assertion;
  }

  lemma {:induction false} SameStepsNeedSame(a: seq<ProgramStep>, b: seq<ProgramStep>, p: Policy)
    requires |a| == |b| && forall i | 0 <= i < |a| :: SameStep(a[i], b[i], p)
    ensures StepNames(a) == StepNames(b)
  {
    if |a| > 0 {
      var last := |a| - 1;
      SameStepsNeedSame(a[..last], b[..last], p);
      SameStepNeedsSame(a[last], b[last], p);
    }
  }

  lemma TenantRowIsSameStep(p: Policy, c: Candidate, row: CacheRow)
    requires row.body == c.body
    ensures SameStep(StepOf(BuildTenantRow(p, c)), StepOf(row), p)
  {
    TenantChainRegroups(p, c.body.action.chain);
  }

  lemma StepsInPlace(rows: seq<CacheRow>)
    requires forall i | 0 <= i < |rows| :: rows[i].body.stepIndex == i
    ensures SortBy(rows, StepLe) == rows
  {
    SortFixed(rows, StepLe);
  }

  /** The rows found for a compiled bundle make the same program the bundle makes. */
  lemma FoundIsCompiled(c: Settings, t: Trajectory, r: Resolution, version: string)
    requires CompileTrajectory(c, t).Ok? && Numbered(t.steps) && Names(r, ProgramIdFor(t.trajectoryId), |t.steps|)
    requires Holds(r, TenantCells(c, t))
    ensures SameProgram(
      RowsToProgram(r, ProgramKey(t.siteKey, t.taskKey), version),
      BundleToProgram(CompileTrajectory(c, t).value, version), DefaultPolicy(c.v))
  {
    var p, rows := DefaultPolicy(c.v), CompileTrajectory(c, t).value.rows;
    CompiledBundleIsProgram(c, t);
    HeldAreTenantRows(p, r, Offered(rows), ProgramKey(t.siteKey, t.taskKey), ProgramIdFor(t.trajectoryId));
    SameRowsSameProgram(p, ProgramIdFor(t.trajectoryId), t.siteKey, t.taskKey, version, r.rows, rows);
  }

  lemma HeldAreTenantRows(p: Policy, r: Resolution, offered: seq<Candidate>, key: ProgramKey, id: string)
    requires IsProgramBundle(offered, key, id) && forall i | 0 <= i < |offered| :: offered[i].body.stepIndex == i
    requires Names(r, id, |offered|) && Holds(r, Tenants(p, offered))
    ensures |r.rows| == |offered|
    ensures forall i | 0 <= i < |offered| :: r.rows[i] == BuildTenantRow(p, offered[i]) && r.rows[i].body.stepIndex == i
  {
    forall i | 0 <= i < |offered| ensures r.rows[i] == BuildTenantRow(p, offered[i]) && r.rows[i].body.stepIndex == i {
      BundleHasStep(p, offered, i);
      assert TenantOf(p, offered, i) == Some(r.rows[i]);
    }
  }

  lemma SameRowsSameProgram(
    p: Policy, id: string, siteKey: string, taskKey: string, version: string, stored: seq<CacheRow>, compiled: seq<CacheRow>)
    requires |stored| == |compiled|
    requires forall i | 0 <= i < |compiled| :: compiled[i].body.stepIndex == i && stored[i].body.stepIndex == i
    requires forall i | 0 <= i < |compiled| :: stored[i] == BuildTenantRow(p, AsCandidate(compiled[i]))
    ensures SameProgram(ProgramOf(id, siteKey, taskKey, version, stored), ProgramOf(id, siteKey, taskKey, version, compiled), p)
  {
    StepsInPlace(stored);
    StepsInPlace(compiled);
    var s, c := MapSeq(StepOf, stored), MapSeq(StepOf, compiled);
    forall i | 0 <= i < |s| ensures SameStep(s[i], c[i], p) {
      TenantRowIsSameStep(p, AsCandidate(compiled[i]), compiled[i]);
    }
    SameStepsNeedSame(s, c, p);
  }

  /** What the next process reads under the steps of a compiled bundle. */
  ghost function LaterCells(c: Settings, t: Trajectory, codec: Codec, poolFile: string, tenantFile: string): seq<Option<CacheRow>>
    requires CompileTrajectory(c, t).Ok? && AllPresentable(t)
  {
    CompiledBundleIsAccepted(c, t);
    Later(codec, DefaultPolicy(c.v), Offered(CompileTrajectory(c, t).value.rows), ProgramKey(t.siteKey, t.taskKey), poolFile, tenantFile)
  }

  /** The tenant copies of a compiled bundle. */
  ghost function TenantCells(c: Settings, t: Trajectory): seq<Option<CacheRow>>
    requires CompileTrajectory(c, t).Ok?
  {
    Tenants(DefaultPolicy(c.v), Offered(CompileTrajectory(c, t).value.rows))
  }

  /** What survives the ingest of what the files held. */
  ghost function LaterBefore(c: Settings, t: Trajectory, codec: Codec, poolFile: string, tenantFile: string): seq<CacheRow>
    requires CompileTrajectory(c, t).Ok? && AllPresentable(t)
  {
    CompiledBundleIsAccepted(c, t);
    Survivors(codec, DefaultPolicy(c.v), Offered(CompileTrajectory(c, t).value.rows), poolFile, tenantFile)
  }

  /** A compiled bundle meets what ingest asks of one. */
  lemma CompiledIsOffered(c: Settings, t: Trajectory)
    requires CompileTrajectory(c, t).Ok? && Numbered(t.steps) && AllPresentable(t)
    ensures var p, rows := DefaultPolicy(c.v), Offered(CompileTrajectory(c, t).value.rows);
      && Lawful(p) && Accepts(p, rows) && |rows| == |t.steps|
      && IsProgramBundle(rows, ProgramKey(t.siteKey, t.taskKey), ProgramIdFor(t.trajectoryId))
  {
    CompiledBundleIsProgram(c, t);
    CompiledBundleIsAccepted(c, t);
    DefaultIsLawful(c.v);
    var ordered := RowsOfBundle(c, t);
  }

  /** The program a resolution names, if it names this one. */
  method Adapted(c: Settings, t: Trajectory, r: Resolution, version: string) returns (program: Option<Program>)
    requires CompileTrajectory(c, t).Ok? && Numbered(t.steps)
    ensures program.Some? <==> Names(r, ProgramIdFor(t.trajectoryId), |t.steps|)
    ensures program.Some? && Holds(r, TenantCells(c, t)) ==>
      SameProgram(program.value, BundleToProgram(CompileTrajectory(c, t).value, version), DefaultPolicy(c.v))
  {
    program := None;
    if Names(r, ProgramIdFor(t.trajectoryId), |t.steps|) {
      program := Some(RowsToProgram(r, ProgramKey(t.siteKey, t.taskKey), version));
      if Holds(r, TenantCells(c, t)) {
        FoundIsCompiled(c, t, r, version);
      }
    }
  }

  /** The rows of a hit are these cells. */
  ghost predicate Holds(r: Resolution, cells: seq<Option<CacheRow>>) {
    r.Hit? && |r.rows| == |cells| && forall i | 0 <= i < |cells| :: cells[i] == Some(r.rows[i])
  }

  /** After a clean end of the tenant file nothing is lost: the next process reads the bundle's own tenant copies. */
  lemma NothingLostAfterCleanEnd(c: Settings, t: Trajectory, codec: Codec, poolFile: string, tenantFile: string)
    requires CompileTrajectory(c, t).Ok? && Numbered(t.steps) && AllPresentable(t) && CleanEnd(tenantFile)
    ensures LaterCells(c, t, codec, poolFile, tenantFile) == TenantCells(c, t)
    ensures AreSteps(TenantCells(c, t), ProgramKey(t.siteKey, t.taskKey), ProgramIdFor(t.trajectoryId))
  {
    CompiledIsOffered(c, t);
    TenantsAreSteps(
      DefaultPolicy(c.v), Offered(CompileTrajectory(c, t).value.rows), ProgramKey(t.siteKey, t.taskKey), ProgramIdFor(t.trajectoryId));
  }

  /** Compile and ingest, then resolve in this process and in the next. */
  method CompileAndResolve(c: Settings, t: Trajectory, store: JsonlCacheStore) returns (now: Resolution, later: Resolution)
    requires store.Valid() && store.Faithful() && Sound(store.codec) && Unglued(store.codec)
    requires CompileTrajectory(c, t).Ok? && Numbered(t.steps) && AllPresentable(t)
    modifies store
    ensures FindsNow(c, t, now, old(store.history))
    ensures FindsLater(c, t, later, store.codec, old(store.poolFile), old(store.tenantFile))
  {
    var rows := Offered(CompileTrajectory(c, t).value.rows);
    CompiledIsOffered(c, t);
    var accepted, pooled, laterPooled;
    accepted, now, pooled, later, laterPooled := IngestThenResolve(
      DefaultPolicy(c.v), Bundle(t.siteKey, t.taskKey, rows), store, ProgramKey(t.siteKey, t.taskKey), ProgramIdFor(t.trajectoryId));
  }

  ghost predicate FindsNow(c: Settings, t: Trajectory, r: Resolution, h: seq<CacheRow>)
    requires CompileTrajectory(c, t).Ok?
  {
    var key, id := ProgramKey(t.siteKey, t.taskKey), ProgramIdFor(t.trajectoryId);
    && AreSteps(TenantCells(c, t), key, id) && |TenantCells(c, t)| == |t.steps|
    && Finds(r, TenantCells(c, t), key, id, NoLeftover(h, key, id, |t.steps|, Any))
  }

  ghost predicate FindsLater(c: Settings, t: Trajectory, r: Resolution, codec: Codec, poolFile: string, tenantFile: string)
    requires CompileTrajectory(c, t).Ok? && AllPresentable(t)
  {
    var key, id := ProgramKey(t.siteKey, t.taskKey), ProgramIdFor(t.trajectoryId);
    var cells := LaterCells(c, t, codec, poolFile, tenantFile);
    && |cells| == |t.steps|
    && Finds(r, cells, key, id, NoLeftover(LaterBefore(c, t, codec, poolFile, tenantFile), key, id, |t.steps|, Any))
  }

  /**
   * Compile, ingest, resolve, adapt: the authority accepts the bundle, and the program found again is the program the
   * bundle describes. This process finds it unless leftover rows of its id hide it; the next one unless they do or
   * what it reads under the first step, where a torn file cost that step its tenant copy, is another program's.
   */
  method CompileAndFind(c: Settings, t: Trajectory, store: JsonlCacheStore, version: string)
    returns (program: Program, now: Option<Program>, later: Option<Program>)
    requires store.Valid() && store.Faithful() && Sound(store.codec) && Unglued(store.codec)
    requires CompileTrajectory(c, t).Ok? && Numbered(t.steps) && AllPresentable(t)
    modifies store
    ensures program == BundleToProgram(CompileTrajectory(c, t).value, version)
    ensures Covers(program) <==> ValuesRecorded(MapSeq(Recorded, t.steps))
    ensures now.Some? <==> NoLeftover(old(store.history), ProgramKey(t.siteKey, t.taskKey), ProgramIdFor(t.trajectoryId), |t.steps|, Any)
    ensures now.Some? ==> SameProgram(now.value, program, DefaultPolicy(c.v))
    ensures var cells, before :=
        LaterCells(c, t, store.codec, old(store.poolFile), old(store.tenantFile)),
        LaterBefore(c, t, store.codec, old(store.poolFile), old(store.tenantFile));
      var key, id := ProgramKey(t.siteKey, t.taskKey), ProgramIdFor(t.trajectoryId);
      && (later.Some? <==> AreSteps(cells, key, id) && NoLeftover(before, key, id, |t.steps|, Any))
      && (later.Some? && cells == TenantCells(c, t) ==> SameProgram(later.value, program, DefaultPolicy(c.v)))
  {
    program := BundleToProgram(CompileTrajectory(c, t).value, version);
    CompiledProgramIsCovered(c, t, version);
    var r, s := CompileAndResolve(c, t, store);
    now := Adapted(c, t, r, version);
    later := Adapted(c, t, s, version);
  }
}
