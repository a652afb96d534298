/**
 * From a recorded trajectory to cache rows, and the promise the compiler's pre-check exists for: the write-time
 * authority never refuses a row the compiler called eligible.
 */
module Compile {
  import opened Wrappers
  import opened Order
  import opened Text
  import opened UrlRegex
  import opened Json
  import opened CacheTypes
  import opened Taint
  import opened Literals
  import opened Pool
  import opened Write
  import opened Locators
  import opened Synthesize
  import opened AtFree
  import opened Ingest
  import opened Resolve

  // ---- rows ----

  predicate IsSlugChar(c: char) {
    'a' <= c <= 'z' || 'A' <= c <= 'Z' || '0' <= c <= '9' || c == '@' || c == '.' || c == '_' || c == '-'
  }

  /** Unsuitable characters become dashes, and runs of dashes one dash. */
  function SlugPart(s: string): string {
    if |s| == 0 then ""
    else
      var c := if IsSlugChar(s[0]) then s[0] else '-';
      var rest := SlugPart(s[1..]);
      if c == '-' && |rest| > 0 && rest[0] == '-' then rest else [c] + rest
  }

  function RowId(t: Trajectory, index: int): string {
    "cache-" + SlugPart(t.siteKey) + "-" + SlugPart(t.taskKey) + "-" + Decimal.IntText(index)
  }

  function ProgramIdFor(trajectoryId: string): string {
    "prog-" + trajectoryId
  }

  function FindStep(steps: seq<Step>, index: int): Option<Step> {
    if |steps| == 0 then None
    else if steps[0].stepIndex == index then Some(steps[0]) else FindStep(steps[1..], index)
  }

  function KindOf(step: Option<Step>): Option<ActionType> {
    if step.Some? then Some(step.value.action.kind) else None
  }

  function TopologyOf(t: Trajectory, step: Step): Option<FlowTopology> {
    var prev, next := KindOf(FindStep(t.steps, step.stepIndex - 1)), KindOf(FindStep(t.steps, step.stepIndex + 1));
    var landmark := if |step.post.landmarks| > 0 && |step.post.landmarks[0]| > 0 then Some(step.post.landmarks[0]) else None;
    if prev.None? && next.None? && landmark.None? then None else Some(FlowTopology(prev, next, landmark))
  }

  function ActionOf(h: Heuristics, step: Step): Action {
    var a := step.action;
    Action(a.kind, a.paramRefs, a.urlTemplate, a.key, a.customOp, a.waitMs, ChainOf(h, step.candidates))
  }

  /** What the compiler is given besides the trajectory: the vocabularies, the clock and the assertion timeout. */
  datatype Settings = Settings(v: Vocabulary, h: Heuristics, compiledAt: string, timeout: int)

  function BodyOf(c: Settings, t: Trajectory, step: Step): Body {
    var action := ActionOf(c.h, step);
    SynthesizedText(c.h, t, step, action.chain, c.timeout);
    Body(
      RowId(t, step.stepIndex), t.siteKey, t.taskKey, step.stepIndex,
      Some(ProgramRef(ProgramIdFor(t.trajectoryId), |t.steps|, c.compiledAt)),
      action, SynthesizeAssertion(c.h, t, step, action.chain, c.timeout),
      0, 0, 0, c.compiledAt, TopologyOf(t, step), Unset, None)
  }

  function CompileStep(c: Settings, t: Trajectory, step: Step): CacheRow {
    var body := BodyOf(c, t, step);
    var refused := DecidePoolEligibility(c.v, c.h, body.action.chain, body.assertion, body.topology.Some?);
    CacheRow(body, refused.None?, refused)
  }

  datatype CompileError = UnsupportedVersion | NoSteps

  datatype CompiledBundle = CompiledBundle(trajectoryId: string, siteKey: string, taskKey: string, compiledAt: string, rows: seq<CacheRow>)

  predicate EarlierStep(a: Step, b: Step) {
    a.stepIndex <= b.stepIndex
  }

  function CompileTrajectory(c: Settings, t: Trajectory): Result<CompiledBundle, CompileError> {
    if t.schemaVersion != SCHEMA_VERSION then Err(UnsupportedVersion)
    else if |t.steps| == 0 then Err(NoSteps)
    else
      Ok(CompiledBundle(t.trajectoryId, t.siteKey, t.taskKey, c.compiledAt,
                        MapSeq(s => CompileStep(c, t, s), SortBy(t.steps, EarlierStep))))
  }

  /** The bundle's rows as the write path receives them. */
  function Offered(rows: seq<CacheRow>): (r: seq<Candidate>)
    ensures |r| == |rows| && forall i | 0 <= i < |rows| :: r[i] == AsCandidate(rows[i])
  {
    MapSeq(AsCandidate, rows)
  }

  // ---- which text a compiled assertion expects ----

  const OWN_HOLES: set<string> := {"success_message", "item_count", "observed_text", "dom_digest"}

  lemma HoleExpectedTemplate(first: seq<(string, Option<Json>)>, name: string, paramType: string, regex: Option<string>)
    requires |first| <= 1 && (|first| == 1 ==> first[0].0 in {"count", "custom_predicate_id"} && (first[0].1.Some? ==> Proper(first[0].1.value)))
    ensures StrProp(HoleExpected(first, name, paramType, regex), "template") == Some(Hole(name))
    ensures Proper(HoleExpected(first, name, paramType, regex))
  {
    var pairs := first + [("template", Quoted(Hole(name))), ("param_types", Some(Obj([Field(name, Str(paramType))]))), ("regex_template", StrField(regex))];
    assert DistinctNames(pairs);
    Lookup(pairs, |first|, "template", Quoted(Hole(name)));
    PresentProper(pairs);
  }

  lemma UrlExpectedTemplate(template: string, parameters: map<string, string>)
    ensures StrProp(UrlExpected(template, parameters), "template") == Some(template)
    ensures StrProp(UrlExpected(template, parameters), "regex_template") == Some(TemplateRegex(template))
    ensures Prop(UrlExpected(template, parameters), "param_types") == ExtractParamTypes(template, parameters)
    ensures Proper(UrlExpected(template, parameters))
  {
    var types := ExtractParamTypes(template, parameters);
    var pairs := [("template", Quoted(template)), ("regex_template", Quoted(TemplateRegex(template))), ("param_types", types)];
    assert DistinctNames(pairs);
    Lookup(pairs, 0, "template", Quoted(template));
    Lookup(pairs, 1, "regex_template", Quoted(TemplateRegex(template)));
    Lookup(pairs, 2, "param_types", types);
    ParamTypesUnique(HoleNames(template), parameters);
    assert types.Some? ==> Proper(types.value);
    PresentProper(pairs);
  }

  lemma VisibleTemplate(b: bool)
    ensures StrProp(Visible(b).value, "template") == None && Proper(Visible(b).value)
  {
    var fs := [Field("visible", Bool(b))];
    assert fs[1..] == [];
  }

  lemma TargetProper(l: Locator)
    ensures Proper(LocatorTarget(l).value)
  {
    var l' := StripTenantFlag(l);
    LocatorPairsDistinct(l');
    PresentProper(LocatorPairs(l'));
  }

  /**
   * Every branch writes a proper JSON object, and the only text it can expect is a hole of its own or the
   * recorded URL template.
   */
  lemma SynthesizedText(h: Heuristics, t: Trajectory, step: Step, chain: seq<Locator>, timeout: int)
    ensures var a := SynthesizeAssertion(h, t, step, chain, timeout);
      && Proper(a)
      && (match ExpectedTemplate(a)
          case None => true
          case Some(text) => (exists n :: n in OWN_HOLES && text == Hole(n)) || text == step.post.urlTemplate)
  {
    var id, primary := AssertionId(t, step), PickPrimaryLocator(chain);
    if WantsText(h, step) {
      ToastText(id, "success_message", timeout, TextPlan("success_message", timeout));
      assert "success_message" in OWN_HOLES;
    } else if WantsCount(h, step) {
      CountText(id, CountScope(primary), timeout);
      assert "item_count" in OWN_HOLES;
    } else if SawItGo(step, primary) {
      ElementText(id, "strong", primary.value, false, timeout);
    } else if WantsElement(h, step, primary) && !ClickChangedUrl(step)
      && (ElementLocator(h, step, primary).Some? || PreferHintElement(h, step, primary)) {
      var found := ElementLocator(h, step, primary);
      ElementText(id, ElementStrength(h, step), if found.Some? then found.value else RoleLocator("form"), true, timeout);
    } else if UrlChanged(step) || Suggested(step) == Some("url-matches") {
      UrlText(id, UrlStrength(step), SanitizeTemplate(h, step.post.urlTemplate), t.parameters, timeout);
      assert "observed_text" in OWN_HOLES;
    } else if Suggested(step) == Some("network-idle") || step.post.networkIdle {
      AssertionParts(id, "network-idle", "weak", None, None, timeout, "timeout");
      AssertionProper(id, "network-idle", "weak", None, None, timeout, "timeout");
    } else {
      DigestText(id);
      assert "dom_digest" in OWN_HOLES;
    }
  }

  lemma CountText(id: string, scope: string, timeout: int)
    ensures var a := MakeAssertion(id, "count-equals", "weak", Some(Obj([Field("count_scope", Str(scope))])),
                                   Some(HoleExpected([("count", Some(Num(0)))], "item_count", "integer", None)), timeout, "assertion_failed");
      Proper(a) && ExpectedTemplate(a) == Some(Hole("item_count"))
  {
    var target, expected := Some(Obj([Field("count_scope", Str(scope))])), HoleExpected([("count", Some(Num(0)))], "item_count", "integer", None);
    HoleExpectedTemplate([("count", Some(Num(0)))], "item_count", "integer", None);
    AssertionParts(id, "count-equals", "weak", target, Some(expected), timeout, "assertion_failed");
    AssertionProper(id, "count-equals", "weak", target, Some(expected), timeout, "assertion_failed");
  }

  lemma DigestText(id: string)
    ensures var first := [("custom_predicate_id", Quoted("post_digest_changed_or_stable"))];
      var a := MakeAssertion(id, "custom", "weak", None, Some(HoleExpected(first, "dom_digest", "string", None)),
                             DEFAULT_ASSERTION_TIMEOUT_MS, "unknown");
      Proper(a) && ExpectedTemplate(a) == Some(Hole("dom_digest"))
  {
    var first := [("custom_predicate_id", Quoted("post_digest_changed_or_stable"))];
    var expected := HoleExpected(first, "dom_digest", "string", None);
    HoleExpectedTemplate(first, "dom_digest", "string", None);
    AssertionParts(id, "custom", "weak", None, Some(expected), DEFAULT_ASSERTION_TIMEOUT_MS, "unknown");
    AssertionProper(id, "custom", "weak", None, Some(expected), DEFAULT_ASSERTION_TIMEOUT_MS, "unknown");
  }

  lemma ToastText(id: string, name: string, timeout: int, p: Plan)
    requires p == TextPlan(name, timeout)
    ensures var a := MakeAssertion(id, p.kind, p.strength, p.target, p.expected, p.timeout, p.failure);
      Proper(a) && ExpectedTemplate(a) == Some(Hole(name))
  {
    HoleExpectedTemplate([], name, "string", Some(TemplateRegex(Hole(name))));
    AssertionParts(id, p.kind, p.strength, p.target, p.expected, p.timeout, p.failure);
    AssertionProper(id, p.kind, p.strength, p.target, p.expected, p.timeout, p.failure);
  }

  lemma ElementText(id: string, strength: string, l: Locator, visible: bool, timeout: int)
    ensures var a := MakeAssertion(id, "element-visible", strength, LocatorTarget(l), Visible(visible), timeout, "assertion_failed");
      Proper(a) && ExpectedTemplate(a).None?
  {
    VisibleTemplate(visible);
    TargetProper(l);
    AssertionParts(id, "element-visible", strength, LocatorTarget(l), Visible(visible), timeout, "assertion_failed");
    AssertionProper(id, "element-visible", strength, LocatorTarget(l), Visible(visible), timeout, "assertion_failed");
  }

  lemma UrlText(id: string, strength: string, template: string, parameters: map<string, string>, timeout: int)
    ensures var a := MakeAssertion(id, "url-matches", strength, Some(Obj([Field("url_template", Str(template))])),
                                   Some(UrlExpected(template, parameters)), timeout, "assertion_failed");
      Proper(a) && ExpectedTemplate(a) == Some(template)
  {
    var target := Some(Obj([Field("url_template", Str(template))]));
    UrlExpectedTemplate(template, parameters);
    AssertionParts(id, "url-matches", strength, target, Some(UrlExpected(template, parameters)), timeout, "assertion_failed");
    AssertionProper(id, "url-matches", strength, target, Some(UrlExpected(template, parameters)), timeout, "assertion_failed");
  }

  lemma OwnHolesAreIdents(n: string)
    requires n in OWN_HOLES
    ensures IsIdent(n)
  {
  }

  /** A compiled assertion with an absolute URL is no template literal to the authority unless it is one to the pre-check. */
  lemma CompiledTemplatesAgree(c: Settings, t: Trajectory, step: Step, chain: seq<Locator>)
    requires ':' in step.post.urlTemplate
    ensures var a := SynthesizeAssertion(c.h, t, step, chain, c.timeout);
      TemplateLiteral(c.v, a) ==> PrecheckTemplateLiteral(c.h, a)
  {
    var a := SynthesizeAssertion(c.h, t, step, chain, c.timeout);
    SynthesizedText(c.h, t, step, chain, c.timeout);
    if ExpectedTemplate(a).Some? {
      var text := ExpectedTemplate(a).value;
      if text == step.post.urlTemplate {
        ColonFailsPrecheck(c.h, a);
      } else {
        var n :| n in OWN_HOLES && text == Hole(n);
        OwnHolesAreIdents(n);
        HoleHasNoResidue(n);
      }
    }
  }

  // ---- no address in a compiled assertion ----

  predicate RecordedFree(t: Trajectory, step: Step) {
    && NoAt(t.taskKey) && NoAt(step.post.urlTemplate)
    && (forall k | k in t.parameters :: NoAt(t.parameters[k]))
    && (forall i | 0 <= i < |step.post.landmarks| :: NoAt(step.post.landmarks[i]))
    && (forall i | 0 <= i < |step.candidates| :: LocatorFree(step.candidates[i].loc))
  }

  lemma ChainFree(h: Heuristics, candidates: seq<LocatorCandidate>)
    requires forall i | 0 <= i < |candidates| :: LocatorFree(candidates[i].loc)
    ensures forall i | 0 <= i < |ChainOf(h, candidates)| :: LocatorFree(ChainOf(h, candidates)[i])
  {
    var chain := ChainOf(h, candidates);
    var ordered := ChainInPreferenceOrder(h, candidates);
    SameMembers(candidates, ordered);
    forall i | 0 <= i < |chain| ensures LocatorFree(chain[i]) {
      if i < |ordered| {
        assert ordered[i] in candidates;
      }
    }
  }

  lemma {:induction false} FoundInChain(chain: seq<Locator>, p: Locator -> bool)
    requires forall i | 0 <= i < |chain| :: LocatorFree(chain[i])
    ensures FirstWhere(chain, p).Some? ==> LocatorFree(FirstWhere(chain, p).value)
  {
    if |chain| > 0 && !p(chain[0]) {
      FoundInChain(chain[1..], p);
    }
  }

  lemma AssertionIdFree(t: Trajectory, step: Step)
    requires NoAt(t.taskKey)
    ensures NoAt(AssertionId(t, step))
  {
    NumberFree(step.stepIndex);
    assert NoAt("assert-") && NoAt("-step-");
  }

  lemma TargetFree(l: Locator)
    requires LocatorFree(l)
    ensures Free(LocatorTarget(l).value)
  {
    assert NoAt("locator") && NoAt("body");
    LocatorJsonFree(StripTenantFlag(l));
  }

  lemma VisibleFree(b: bool)
    ensures Free(Visible(b).value)
  {
    assert NoAt("visible");
  }

  lemma ElementWordsFree()
    ensures NoAt("element-visible") && NoAt("strong") && NoAt("weak") && NoAt("assertion_failed")
  {
  }

  lemma ElementFree(id: string, strength: string, l: Locator, visible: bool, timeout: int)
    requires NoAt(id) && strength in {"strong", "weak"} && LocatorFree(l)
    ensures Free(MakeAssertion(id, "element-visible", strength, LocatorTarget(l), Visible(visible), timeout, "assertion_failed"))
  {
    TargetFree(l);
    VisibleFree(visible);
    ElementWordsFree();
    MadeFree(id, "element-visible", strength, LocatorTarget(l), Visible(visible), timeout, "assertion_failed");
  }

  lemma UrlFree(id: string, strength: string, template: string, parameters: map<string, string>, timeout: int)
    requires NoAt(id) && strength in {"strong", "weak"} && NoAt(template) && forall k | k in parameters :: NoAt(parameters[k])
    ensures Free(MakeAssertion(id, "url-matches", strength, Some(Obj([Field("url_template", Str(template))])),
                               Some(UrlExpected(template, parameters)), timeout, "assertion_failed"))
  {
    UrlExpectedFree(template, parameters);
    assert NoAt("url_template") && NoAt("url-matches") && NoAt("assertion_failed");
    MadeFree(id, "url-matches", strength, Some(Obj([Field("url_template", Str(template))])),
             Some(UrlExpected(template, parameters)), timeout, "assertion_failed");
  }

  lemma CountFree(id: string, scope: string, timeout: int)
    requires NoAt(id) && NoAt(scope)
    ensures Free(MakeAssertion(id, "count-equals", "weak", Some(Obj([Field("count_scope", Str(scope))])),
                               Some(HoleExpected([("count", Some(Num(0)))], "item_count", "integer", None)), timeout, "assertion_failed"))
  {
    assert NoAt("count") && NoAt("item_count") && NoAt("integer") && NoAt("count_scope");
    assert NoAt("count-equals") && NoAt("weak") && NoAt("assertion_failed");
    HoleExpectedFree([("count", Some(Num(0)))], "item_count", "integer", None);
    MadeFree(id, "count-equals", "weak", Some(Obj([Field("count_scope", Str(scope))])),
             Some(HoleExpected([("count", Some(Num(0)))], "item_count", "integer", None)), timeout, "assertion_failed");
  }

  lemma ToastWordsFree()
    ensures NoAt("string") && NoAt("text-matches") && NoAt("strong") && NoAt("assertion_failed")
  {
  }

  lemma ToastFree(id: string, name: string, timeout: int, p: Plan)
    requires NoAt(id) && NoAt(name) && p == TextPlan(name, timeout)
    ensures Free(MakeAssertion(id, p.kind, p.strength, p.target, p.expected, p.timeout, p.failure))
  {
    var regex := Some(TemplateRegex(Hole(name)));
    ToastWordsFree();
    HoleFree(name);
    RegexFree(Hole(name));
    HoleExpectedFree([], name, "string", regex);
    MadeFree(id, p.kind, p.strength, None, Some(HoleExpected([], name, "string", regex)), timeout, p.failure);
  }

  lemma HoleFree(name: string)
    requires NoAt(name)
    ensures NoAt(Hole(name))
  {
  }

  lemma DigestWordsFree()
    ensures NoAt("custom_predicate_id") && NoAt("post_digest_changed_or_stable") && NoAt("dom_digest") && NoAt("string")
    ensures NoAt("custom") && NoAt("weak") && NoAt("unknown")
  {
  }

  lemma DigestFree(id: string)
    requires NoAt(id)
    ensures var first := [("custom_predicate_id", Quoted("post_digest_changed_or_stable"))];
      Free(MakeAssertion(id, "custom", "weak", None, Some(HoleExpected(first, "dom_digest", "string", None)),
                         DEFAULT_ASSERTION_TIMEOUT_MS, "unknown"))
  {
    var first := [("custom_predicate_id", Quoted("post_digest_changed_or_stable"))];
    DigestWordsFree();
    HoleExpectedFree(first, "dom_digest", "string", None);
    MadeFree(id, "custom", "weak", None, Some(HoleExpected(first, "dom_digest", "string", None)), DEFAULT_ASSERTION_TIMEOUT_MS, "unknown");
  }

  lemma SynthesizedFree(h: Heuristics, t: Trajectory, step: Step, chain: seq<Locator>, timeout: int)
    requires RecordedFree(t, step) && forall i | 0 <= i < |chain| :: LocatorFree(chain[i])
    ensures Free(SynthesizeAssertion(h, t, step, chain, timeout))
  {
    var id, primary := AssertionId(t, step), PickPrimaryLocator(chain);
    AssertionIdFree(t, step);
    FoundInChain(chain, Preferred);
    FoundInChain(chain, Named);
    assert NoAt("main") && NoAt("form");
    if WantsText(h, step) {
      assert NoAt("success_message");
      ToastFree(id, "success_message", timeout, TextPlan("success_message", timeout));
    } else if WantsCount(h, step) {
      CountFree(id, CountScope(primary), timeout);
    } else if SawItGo(step, primary) {
      ElementFree(id, "strong", primary.value, false, timeout);
    } else if WantsElement(h, step, primary) && !ClickChangedUrl(step)
      && (ElementLocator(h, step, primary).Some? || PreferHintElement(h, step, primary)) {
      var found := ElementLocator(h, step, primary);
      LandmarksFree(h, step, primary);
      ElementFree(id, ElementStrength(h, step), if found.Some? then found.value else RoleLocator("form"), true, timeout);
    } else if UrlChanged(step) || Suggested(step) == Some("url-matches") {
      ShownFree(h, step.post.urlTemplate);
      UrlFree(id, UrlStrength(step), SanitizeTemplate(h, step.post.urlTemplate), t.parameters, timeout);
    } else if Suggested(step) == Some("network-idle") || step.post.networkIdle {
      IdleFree(id, timeout);
    } else {
      DigestFree(id);
    }
  }

  lemma ShownFree(h: Heuristics, page: string)
    requires NoAt(page)
    ensures NoAt(SanitizeTemplate(h, page))
  {
    assert NoAt(Hole("observed_text"));
  }

  lemma IdleFree(id: string, timeout: int)
    requires NoAt(id)
    ensures Free(MakeAssertion(id, "network-idle", "weak", None, None, timeout, "timeout"))
  {
    assert NoAt("network-idle") && NoAt("weak") && NoAt("timeout");
    MadeFree(id, "network-idle", "weak", None, None, timeout, "timeout");
  }

  lemma LandmarksFree(h: Heuristics, step: Step, primary: Option<Locator>)
    requires forall i | 0 <= i < |step.post.landmarks| :: NoAt(step.post.landmarks[i])
    requires primary.Some? ==> LocatorFree(primary.value)
    ensures ElementLocator(h, step, primary).Some? ==> LocatorFree(ElementLocator(h, step, primary).value)
  {
    forall l | l in step.post.landmarks ensures NoAt(l) {
      var i :| 0 <= i < |step.post.landmarks| && step.post.landmarks[i] == l;
    }
  }

  // ---- compile, then ingest ----

  /** What the promise needs of a recorded step: an absolute URL, and no `@` in what an assertion may quote. */
  predicate Presentable(t: Trajectory, step: Step) {
    ':' in step.post.urlTemplate && RecordedFree(t, step)
  }

  /** The pre-check is never more permissive than the authority, through every branch of assertion synthesis. */
  lemma EligibleRowsAreAccepted(c: Settings, t: Trajectory, step: Step)
    requires Presentable(t, step)
    ensures var row := CompileStep(c, t, step);
      && WriteCacheRow(DefaultPolicy(c.v), AsCandidate(row)).Ok?
      && (row.poolEligible ==> WriteCacheRow(DefaultPolicy(c.v), AsCandidate(row)).value.poolEligible)
  {
    var p, body, row := DefaultPolicy(c.v), BodyOf(c, t, step), CompileStep(c, t, step);
    DefaultIsLawful(c.v);
    RefusedIffOverclaimed(p, AsCandidate(row));
    if row.poolEligible {
      ChainFree(c.h, step.candidates);
      SynthesizedFree(c.h, t, step, body.action.chain, c.timeout);
      PrintFree(body.assertion, false, 0);
      NoAtSignNoEmail(body.assertion);
      CompiledTemplatesAgree(c, t, step, body.action.chain);
      PrecheckAgreesUpToLiterals(c.v, c.h, body);
      LooserIff(c.v, c.h, body);
    }
  }

  predicate AllPresentable(t: Trajectory) {
    forall i | 0 <= i < |t.steps| :: Presentable(t, t.steps[i])
  }

  lemma RowsOfBundle(c: Settings, t: Trajectory) returns (ordered: seq<Step>)
    requires CompileTrajectory(c, t).Ok?
    ensures multiset(ordered) == multiset(t.steps) && |ordered| == |t.steps| && Sorted(ordered, EarlierStep)
    ensures var rows := CompileTrajectory(c, t).value.rows;
      |rows| == |ordered| && forall i | 0 <= i < |rows| :: rows[i] == CompileStep(c, t, ordered[i])
    ensures forall i | 0 <= i < |ordered| :: ordered[i] in t.steps
  {
    ordered := SortBy(t.steps, EarlierStep);
    SortElements(t.steps, EarlierStep);
    SameMembers(t.steps, ordered);
    SortSorts(t.steps, EarlierStep, AllSteps());
    assert forall i | 0 <= i < |ordered| :: ordered[i] in ordered;
  }

  ghost function AllSteps(): iset<Step> { iset s: Step | |s.candidates| >= 0 }

  lemma OfferedRowIsAccepted(c: Settings, t: Trajectory, step: Step)
    requires Presentable(t, step)
    ensures WriteCacheRowPair(DefaultPolicy(c.v), AsCandidate(CompileStep(c, t, step))).Ok?
  {
    DefaultIsLawful(c.v);
    EligibleRowsAreAccepted(c, t, step);
    RefusedIffOverclaimed(DefaultPolicy(c.v), AsCandidate(CompileStep(c, t, step)));
  }

  lemma OfferedAreResolvable(c: Settings, t: Trajectory)
    requires CompileTrajectory(c, t).Ok?
    ensures Resolvable(Offered(CompileTrajectory(c, t).value.rows))
  {
    var offered := Offered(CompileTrajectory(c, t).value.rows);
    forall i | 0 <= i < |offered| ensures ProgramIdOf(offered[i]) == Some(ProgramIdFor(t.trajectoryId)) {
    }
  }

  lemma OfferedAreAccepted(c: Settings, t: Trajectory, rows: seq<CacheRow>, ordered: seq<Step>, p: Policy)
    requires AllPresentable(t) && p == DefaultPolicy(c.v)
    requires |rows| == |ordered| && forall i | 0 <= i < |rows| :: rows[i] == CompileStep(c, t, ordered[i]) && ordered[i] in t.steps
    ensures forall i | 0 <= i < |rows| :: WriteCacheRowPair(p, AsCandidate(rows[i])).Ok?
  {
    forall i | 0 <= i < |rows| ensures WriteCacheRowPair(p, AsCandidate(rows[i])).Ok? {
      var k :| 0 <= k < |t.steps| && t.steps[k] == ordered[i];
      OfferedRowIsAccepted(c, t, ordered[i]);
    }
  }

  /** A compiled bundle is never refused by ingest. */
  lemma CompiledBundleIsAccepted(c: Settings, t: Trajectory)
    requires CompileTrajectory(c, t).Ok? && AllPresentable(t)
    ensures Accepts(DefaultPolicy(c.v), Offered(CompileTrajectory(c, t).value.rows))
  {
    var ordered := RowsOfBundle(c, t);
    OfferedAreResolvable(c, t);
    OfferedAreAccepted(c, t, CompileTrajectory(c, t).value.rows, ordered, DefaultPolicy(c.v));
  }

  /** Step numbers are exactly `0..n-1`. */
  predicate Numbered(steps: seq<Step>) {
    && (forall i | 0 <= i < |steps| :: 0 <= steps[i].stepIndex < |steps|)
    && (forall i, j | 0 <= i < j < |steps| :: steps[i].stepIndex != steps[j].stepIndex)
  }

  /** A compiled bundle is one whole program, as the resolver understands it. */
  lemma CompiledBundleIsProgram(c: Settings, t: Trajectory)
    requires CompileTrajectory(c, t).Ok? && Numbered(t.steps)
    ensures IsProgramBundle(Offered(CompileTrajectory(c, t).value.rows), ProgramKey(t.siteKey, t.taskKey), ProgramIdFor(t.trajectoryId))
    ensures forall i | 0 <= i < |t.steps| :: CompileTrajectory(c, t).value.rows[i].body.stepIndex == i
  {
    var rows := CompileTrajectory(c, t).value.rows;
    var ordered := RowsOfBundle(c, t);
    NumberedStays(t.steps, ordered);
    InPlace(ordered, |ordered|);
  }

  lemma NumberedStays(steps: seq<Step>, ordered: seq<Step>)
    requires Numbered(steps) && multiset(steps) == multiset(ordered)
    ensures Numbered(ordered)
  {
    SameMembers(steps, ordered);
    assert Distinct(steps);
    DistinctStays(steps, ordered);
    forall i | 0 <= i < |ordered| ensures 0 <= ordered[i].stepIndex < |ordered| {
      assert ordered[i] in steps;
    }
    forall i, j | 0 <= i < j < |ordered| ensures ordered[i].stepIndex != ordered[j].stepIndex {
      assert ordered[i] in steps && ordered[j] in steps && ordered[i] != ordered[j];
    }
  }

  /** Increasing numbers below `n`, as many as there are, stand each at its own place. */
  lemma {:induction false} InPlace(ordered: seq<Step>, n: nat)
    requires |ordered| == n && Sorted(ordered, EarlierStep) && Numbered(ordered)
    ensures forall i | 0 <= i < n :: ordered[i].stepIndex == i
  {
    if n > 0 {
      var last := n - 1;
      forall i | 0 <= i < last ensures ordered[i].stepIndex < ordered[last].stepIndex {
        assert EarlierStep(ordered[i], ordered[last]);
      }
      InPlace(ordered[..last], last);
      assert last > 0 ==> ordered[last - 1].stepIndex == last - 1;
    }
  }

  // ---- where the two checks part ----

  /** A page called by one plain word, with nothing recorded but the change of address. */
  function OneWordStep(): Step {
    Step(0, TrajectoryAction(Navigate, None, None, None, None, None), [],
         Fingerprint("q", ["main"], false), Fingerprint("r", ["main"], false), None, None, None)
  }

  function OneWordTrajectory(): Trajectory {
    Trajectory(SCHEMA_VERSION, "t", "s", "k", map[], [OneWordStep()])
  }

  const SILENT := Heuristics(s => false, s => false, s => false, s => false, (signals, n) => false)

  lemma OneLetter(s: string)
    requires s == "r"
    ensures Residue(s) == s && HoleNames(s) == [] && Trim(s) == s
    ensures !IsTemplateOnly(s) && IsChromeLabel(SILENT, s) && !LooksLikeTenantLiteral(SILENT, s)
  {
    assert s[1..] == "" && HoleAt(s).None?;
    assert StripHoles(s) == s && TrimStart(s) == s && TrimEnd(s) == s;
    assert Lower(s)[0] == 'r';
  }

  lemma OneLetterPattern(s: string)
    requires s == "r"
    ensures !LooksLikeTenantLiteral(SILENT, TemplateRegex(s))
  {
    var x := TemplateRegex(s);
    assert s[1..] == "" && RegexBody("") == "";
    assert RegexBody(s) == EscapeOne('r') + "" == "r";
    assert x == "^r$" && x[1..] == "r$" && x[2..] == "$" && x[3..] == "";
    assert x[1..][1..] == x[2..] && x[2..][1..] == x[3..];
    assert TrimStart(x) == x && TrimEnd(x) == x;
    assert HoleNames(x[3..]) == [] && HoleNames(x[2..]) == [] && HoleNames(x[1..]) == [] && HoleNames(x) == [];
    assert AfterWord(x[3..]) == "" && AfterWord(x[2..]) == "" && AfterWord(x[1..]) == "" && AfterWord(x) == "";
    assert Words(x) == 1;
  }

  lemma OneWordBranches(step: Step)
    requires step == OneWordStep()
    ensures !WantsText(SILENT, step) && !WantsCount(SILENT, step) && !SawItGo(step, None) && !WantsElement(SILENT, step, None)
    ensures UrlChanged(step) && UrlStrength(step) == "strong" && SanitizeTemplate(SILENT, step.post.urlTemplate) == "r"
  {
    OneLetter("r");
    assert ["main"][1..] == [] && NotIn([], ["main"]) == [];
    assert NewLandmarks(step) == [] && "q" != "r";
  }

  lemma OneWordAssertion(step: Step, t: Trajectory)
    requires step == OneWordStep() && t == OneWordTrajectory()
    ensures SynthesizeAssertion(SILENT, t, step, [], 0)
      == MakeAssertion(AssertionId(t, step), "url-matches", "strong", Some(Obj([Field("url_template", Str("r"))])),
                       Some(UrlExpected("r", map[])), 0, "assertion_failed")
  {
    assert PickPrimaryLocator([]) == None;
    OneWordBranches(step);
  }

  lemma OneField(a: string, x: string, key: string)
    ensures CollectStringEntries(Obj([Field(a, Str(x))]), key) == [(a, x)]
  {
    var fs := [Field(a, Str(x))];
    assert fs[1..] == [] && CollectFields(fs[1..]) == [];
    assert CollectStringEntries(fs[0].value, fs[0].key) == [(a, x)];
    assert CollectFields(fs) == [(a, x)];
  }

  lemma TwoFields(a: string, x: string, b: string, y: string, key: string)
    ensures CollectStringEntries(Obj([Field(a, Str(x)), Field(b, Str(y))]), key) == [(a, x), (b, y)]
  {
    var fs := [Field(a, Str(x)), Field(b, Str(y))];
    assert fs[1..] == [Field(b, Str(y))];
    OneField(b, y, key);
    assert CollectStringEntries(Obj(fs[1..]), key) == CollectFields(fs[1..]) == [(b, y)];
    assert CollectStringEntries(fs[0].value, fs[0].key) == [(a, x)];
    assert CollectFields(fs) == [(a, x)] + [(b, y)];
  }

  lemma PlainUrlExpected(template: string, parameters: map<string, string>)
    requires HoleNames(template) == []
    ensures UrlExpected(template, parameters)
      == Obj([Field("template", Str(template)), Field("regex_template", Str(TemplateRegex(template)))])
  {
    PresentThree("template", Quoted(template), "regex_template", Quoted(TemplateRegex(template)), "param_types", None);
  }

  lemma OneWordEntries(s: string, target: Json, expected: Json)
    requires s == "r" && target == Obj([Field("url_template", Str(s))]) && expected == UrlExpected(s, map[])
    ensures forall e | e in CollectStringEntries(Obj(Present([("target", Some(target)), ("expected", Some(expected))])), "") ::
      !EntryTainted(SILENT, e)
  {
    OneLetter(s);
    OneLetterPattern(s);
    PlainUrlExpected(s, map[]);
    OneField("url_template", s, "target");
    TwoFields("template", s, "regex_template", TemplateRegex(s), "expected");
    PayloadEntries(target, expected);
    NotSelectorKeys();
  }

  lemma NotSelectorKeys()
    ensures "url_template" !in SELECTOR_KEYS && "template" !in SELECTOR_KEYS && "regex_template" !in SELECTOR_KEYS
  {
  }

  lemma PresentThree(a: string, x: Option<Json>, b: string, y: Option<Json>, c: string, z: Option<Json>)
    ensures Present([(a, x), (b, y), (c, z)]) == Present([(a, x)]) + Present([(b, y)]) + Present([(c, z)])
    ensures x.Some? ==> Present([(a, x)]) == [Field(a, x.value)]
    ensures y.Some? ==> Present([(b, y)]) == [Field(b, y.value)]
    ensures z.None? ==> Present([(c, z)]) == []
  {
    var pairs := [(a, x), (b, y), (c, z)];
    assert pairs[1..] == [(b, y), (c, z)] && pairs[1..][1..] == [(c, z)] && [(c, z)][1..] == [];
    assert [(a, x)][1..] == [] && [(b, y)][1..] == [];
    assert Present([]) == [];
  }

  lemma PayloadEntries(target: Json, expected: Json)
    ensures CollectStringEntries(Obj(Present([("target", Some(target)), ("expected", Some(expected))])), "")
      == CollectStringEntries(target, "target") + CollectStringEntries(expected, "expected")
  {
    var pairs := [("target", Some(target)), ("expected", Some(expected))];
    assert pairs[1..] == [("expected", Some(expected))] && pairs[1..][1..] == [];
    var fs := [Field("target", target), Field("expected", expected)];
    assert Present(pairs[1..][1..]) == [] && Present(pairs[1..]) == [Field("expected", expected)];
    assert Present(pairs) == fs;
    assert fs[1..] == [Field("expected", expected)] && fs[1..][1..] == [] && CollectFields(fs[1..][1..]) == [];
    assert CollectFields(fs[1..]) == CollectStringEntries(expected, "expected");
  }

  /** How the two checks judge any assertion that expects the word and targets no locator. */
  lemma OneWordJudged(v: Vocabulary, assertion: Json, s: string, target: Json, expected: Json)
    requires s == "r" && s !in v.chromeNames
    requires target == Obj([Field("url_template", Str(s))]) && expected == UrlExpected(s, map[])
    requires Prop(assertion, "target") == Some(target) && Prop(assertion, "expected") == Some(expected)
    ensures !PrecheckLiteral(v, SILENT, assertion) && TemplateLiteral(v, assertion)
  {
    UrlExpectedTemplate(s, map[]);
    OneLetter(s);
    OneWordEntries(s, target, expected);
    assert TargetLocator(assertion).None? by {
      assert [Field("url_template", Str(s))][1..] == [];
      assert Prop(target, "locator") == None;
    }
    assert ExpectedTemplate(assertion) == Some(s);
  }

  lemma OneWordAsserts(c: Settings, v: Vocabulary)
    requires "r" !in v.chromeNames && c.h == SILENT && c.timeout == 0
    ensures var a := BodyOf(c, OneWordTrajectory(), OneWordStep()).assertion;
      !PrecheckLiteral(v, SILENT, a) && TemplateLiteral(v, a)
  {
    var t, step := OneWordTrajectory(), OneWordStep();
    var target, expected := Obj([Field("url_template", Str("r"))]), UrlExpected("r", map[]);
    OneWordAssertion(step, t);
    AssertionParts(AssertionId(t, step), "url-matches", "strong", Some(target), Some(expected), 0, "assertion_failed");
    OneWordJudged(v, BodyOf(c, t, step).assertion, "r", target, expected);
  }

  lemma LiteralRefused(p: Policy, c: Candidate)
    requires p.literal(c.body.assertion) && c.claim == Some(true)
    ensures WriteCacheRow(p, c) == Err(LiteralInAssertion)
  {
  }

  /** Without the absolute URL the promise fails: a one-word page passes the pre-check and ingest refuses its row. */
  lemma OneWordPageIsRefused(v: Vocabulary, at: string)
    requires "r" !in v.chromeNames
    ensures var row := CompileStep(Settings(v, SILENT, at, 0), OneWordTrajectory(), OneWordStep());
      row.poolEligible && WriteCacheRow(DefaultPolicy(v), AsCandidate(row)) == Err(LiteralInAssertion)
  {
    var c, t, step := Settings(v, SILENT, at, 0), OneWordTrajectory(), OneWordStep();
    var body := BodyOf(c, t, step);
    OneWordAsserts(c, v);
    assert TopologyOf(t, step).Some?;
    PrecheckAgreesUpToLiterals(v, SILENT, body);
    LiteralRefused(DefaultPolicy(v), AsCandidate(CompileStep(c, t, step)));
  }
}
