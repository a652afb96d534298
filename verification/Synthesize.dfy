/** The post-condition the compiler writes for a step, as the JSON value it is on disk. */
module Synthesize {
  import opened Wrappers
  import opened Text
  import opened UrlRegex
  import opened Json
  import opened CacheTypes
  import opened Literals
  import opened Pool
  import opened Locators

  datatype Fingerprint = Fingerprint(urlTemplate: string, landmarks: seq<string>, networkIdle: bool)

  datatype TrajectoryAction = TrajectoryAction(
    kind: ActionType,
    paramRefs: Option<seq<string>>,
    urlTemplate: Option<string>,
    key: Option<string>,
    customOp: Option<string>,
    waitMs: Option<int>)

  datatype Step = Step(
    stepIndex: int,
    action: TrajectoryAction,
    candidates: seq<LocatorCandidate>,
    pre: Fingerprint,
    post: Fingerprint,
    suggestedType: Option<string>,
    signals: Option<seq<string>>,
    targetVisible: Option<bool>)

  datatype Trajectory = Trajectory(
    schemaVersion: string,
    trajectoryId: string,
    siteKey: string,
    taskKey: string,
    parameters: map<string, string>,
    steps: seq<Step>)

  const SCHEMA_VERSION := "1.0.0"
  const DEFAULT_ASSERTION_TIMEOUT_MS := 5000

  // ---- locators as JSON ----

  function StrategyName(s: Strategy): string {
    match s
    case RoleName => "role_name"
    case ByLabel => "label"
    case TestId => "testid"
    case Structural => "structural"
    case FreeText => "text"
    case Placeholder => "placeholder"
    case CssVocab => "css_vocab"
    case TopologyOnly => "topology_only"
    case Unrecognized => ""
  }

  function StrField(s: Option<string>): Option<Json> {
    if s.Some? then Some(Str(s.value)) else None
  }

  function LocatorPairs(l: Locator): seq<(string, Option<Json>)> {
    [("strategy", Some(Str(StrategyName(l.strategy)))), ("role", StrField(l.role)), ("name", StrField(l.name)),
     ("label", StrField(l.labelText)), ("testid", StrField(l.testid)), ("structural_path", StrField(l.structuralPath)),
     ("text", StrField(l.text)), ("css", StrField(l.css)),
     ("tenant_scoped", if l.tenantScoped.Some? then Some(Bool(l.tenantScoped.value)) else None)]
  }

  function LocatorJson(l: Locator): Json {
    Obj(Present(LocatorPairs(l)))
  }

  lemma LocatorPairsDistinct(l: Locator)
    ensures DistinctNames(LocatorPairs(l))
  {
  }

  /** Property lookup in an object literal, one name at a time. */
  lemma Lookup(pairs: seq<(string, Option<Json>)>, i: nat, name: string, value: Option<Json>)
    requires DistinctNames(pairs) && i < |pairs| && pairs[i] == (name, value)
    ensures Prop(Obj(Present(pairs)), name) == value
    ensures StrProp(Obj(Present(pairs)), name) == match value case Some(Str(s)) => Some(s) case _ => None
  {
    PresentGet(pairs, i);
  }

  lemma LocatorStrings(l: Locator, pairs: seq<(string, Option<Json>)>)
    requires pairs == LocatorPairs(l)
    ensures var j := Obj(Present(pairs));
      && StrProp(j, "role") == l.role && StrProp(j, "name") == l.name
      && StrProp(j, "label") == l.labelText && StrProp(j, "testid") == l.testid
      && StrProp(j, "structural_path") == l.structuralPath && StrProp(j, "text") == l.text && StrProp(j, "css") == l.css
  {
    LocatorPairsDistinct(l);
    Lookup(pairs, 1, "role", StrField(l.role));
    Lookup(pairs, 2, "name", StrField(l.name));
    Lookup(pairs, 3, "label", StrField(l.labelText));
    Lookup(pairs, 4, "testid", StrField(l.testid));
    Lookup(pairs, 5, "structural_path", StrField(l.structuralPath));
    Lookup(pairs, 6, "text", StrField(l.text));
    Lookup(pairs, 7, "css", StrField(l.css));
  }

  lemma StrategyReadsBack(s: Strategy)
    ensures StrategyOf(Some(StrategyName(s))) == s
  {
  }

  /** A locator written into an assertion is read back unchanged. */
  lemma LocatorReadsBack(l: Locator)
    ensures LocatorOf(LocatorJson(l)) == l
  {
    var pairs := LocatorPairs(l);
    LocatorPairsDistinct(l);
    LocatorStrings(l, pairs);
    StrategyReadsBack(l.strategy);
    Lookup(pairs, 0, "strategy", Some(Str(StrategyName(l.strategy))));
    Lookup(pairs, 8, "tenant_scoped", if l.tenantScoped.Some? then Some(Bool(l.tenantScoped.value)) else None);
  }

  ghost predicate DistinctNames(pairs: seq<(string, Option<Json>)>) {
    forall a, b | 0 <= a < b < |pairs| :: pairs[a].0 != pairs[b].0
  }

  lemma {:induction false} PresentUnique(pairs: seq<(string, Option<Json>)>)
    requires DistinctNames(pairs)
    ensures UniqueKeys(Present(pairs))
  {
    if |pairs| > 0 {
      PresentUnique(pairs[1..]);
      PresentAbsent(pairs[1..], pairs[0].0);
      var rest := Present(pairs[1..]);
      assert forall i | 0 <= i < |rest| :: rest[i].key != pairs[0].0;
    }
  }

  /** An object literal over distinct names is proper when its values are. */
  lemma PresentProper(pairs: seq<(string, Option<Json>)>)
    requires DistinctNames(pairs) && forall i | 0 <= i < |pairs| && pairs[i].1.Some? :: Proper(pairs[i].1.value)
    ensures Proper(Obj(Present(pairs)))
  {
    PresentUnique(pairs);
    var fs := Present(pairs);
    forall i | 0 <= i < |fs| ensures Proper(fs[i].value) {
      PresentFrom(pairs, i);
    }
  }

  lemma {:induction false} PresentFrom(pairs: seq<(string, Option<Json>)>, i: nat)
    requires i < |Present(pairs)|
    ensures exists k :: 0 <= k < |pairs| && pairs[k].1.Some? && Present(pairs)[i] == Field(pairs[k].0, pairs[k].1.value)
  {
    var here := pairs[0].1.Some?;
    if here && i == 0 {
      assert Present(pairs)[0] == Field(pairs[0].0, pairs[0].1.value);
    } else {
      var j := if here then i - 1 else i;
      PresentFrom(pairs[1..], j);
      var k :| 0 <= k < |pairs[1..]| && pairs[1..][k].1.Some?
        && Present(pairs[1..])[j] == Field(pairs[1..][k].0, pairs[1..][k].1.value);
      assert pairs[k + 1] == pairs[1..][k];
    }
  }

  // ---- assertions ----

  function AssertionPairs(
    id: string, kind: string, strength: string, target: Option<Json>, expected: Option<Json>, timeout: int, failure: string)
    : seq<(string, Option<Json>)>
  {
    [("schema_version", Some(Str(SCHEMA_VERSION))), ("assertion_id", Some(Str(id))), ("type", Some(Str(kind))),
     ("strength", Some(Str(strength))), ("target", target), ("expected", expected), ("timeout_ms", Some(Num(timeout))),
     ("failure_classification", Some(Str(failure)))]
  }

  function MakeAssertion(
    id: string, kind: string, strength: string, target: Option<Json>, expected: Option<Json>, timeout: int, failure: string)
    : Json
  {
    Obj(Present(AssertionPairs(id, kind, strength, target, expected, timeout, failure)))
  }

  lemma AssertionPairsDistinct(
    id: string, kind: string, strength: string, target: Option<Json>, expected: Option<Json>, timeout: int, failure: string)
    ensures DistinctNames(AssertionPairs(id, kind, strength, target, expected, timeout, failure))
  {
  }

  lemma AssertionParts(
    id: string, kind: string, strength: string, target: Option<Json>, expected: Option<Json>, timeout: int, failure: string)
    ensures var a := MakeAssertion(id, kind, strength, target, expected, timeout, failure);
      && Prop(a, "target") == target && Prop(a, "expected") == expected && Prop(a, "type") == Some(Str(kind))
      && Prop(a, "strength") == Some(Str(strength)) && Prop(a, "timeout_ms") == Some(Num(timeout))
      && Prop(a, "failure_classification") == Some(Str(failure))
      && Prop(a, "schema_version") == Some(Str("1.0.0")) && Prop(a, "assertion_id") == Some(Str(id))
  {
    var pairs := AssertionPairs(id, kind, strength, target, expected, timeout, failure);
    AssertionPairsDistinct(id, kind, strength, target, expected, timeout, failure);
    Lookup(pairs, 2, "type", Some(Str(kind)));
    Lookup(pairs, 3, "strength", Some(Str(strength)));
    Lookup(pairs, 4, "target", target);
    Lookup(pairs, 5, "expected", expected);
    Lookup(pairs, 0, "schema_version", Some(Str("1.0.0")));
    Lookup(pairs, 1, "assertion_id", Some(Str(id)));
    Lookup(pairs, 6, "timeout_ms", Some(Num(timeout)));
    Lookup(pairs, 7, "failure_classification", Some(Str(failure)));
  }

  lemma AssertionProper(
    id: string, kind: string, strength: string, target: Option<Json>, expected: Option<Json>, timeout: int, failure: string)
    requires (target.Some? ==> Proper(target.value)) && (expected.Some? ==> Proper(expected.value))
    ensures Proper(MakeAssertion(id, kind, strength, target, expected, timeout, failure))
  {
    AssertionPairsDistinct(id, kind, strength, target, expected, timeout, failure);
    PresentProper(AssertionPairs(id, kind, strength, target, expected, timeout, failure));
  }

  predicate HasKey(fs: seq<Field>, key: string) {
    exists i | 0 <= i < |fs| :: fs[i].key == key
  }

  /** `param_types`: one entry per hole name, the first mention deciding its place. */
  function ParamTypes(names: seq<string>, parameters: map<string, string>): seq<Field> {
    if |names| == 0 then []
    else
      var n := names[|names| - 1];
      var front := ParamTypes(names[..|names| - 1], parameters);
      if HasKey(front, n) then front
      else front + [Field(n, Str(if n in parameters then parameters[n] else "string"))]
  }

  lemma {:induction false} ParamTypesUnique(names: seq<string>, parameters: map<string, string>)
    ensures UniqueKeys(ParamTypes(names, parameters))
    ensures forall i | 0 <= i < |ParamTypes(names, parameters)| :: ParamTypes(names, parameters)[i].value.Str?
  {
    if |names| > 0 {
      ParamTypesUnique(names[..|names| - 1], parameters);
    }
  }

  function ExtractParamTypes(template: string, parameters: map<string, string>): Option<Json> {
    if HoleNames(template) == [] then None else Some(Obj(ParamTypes(HoleNames(template), parameters)))
  }

  function Quoted(s: string): Option<Json> { Some(Str(s)) }

  /** The hole `name`, typed, as the whole expected text. */
  function HoleExpected(first: seq<(string, Option<Json>)>, name: string, paramType: string, regex: Option<string>): Json {
    Obj(Present(first + [("template", Quoted(Hole(name))),
                         ("param_types", Some(Obj([Field(name, Str(paramType))]))),
                         ("regex_template", StrField(regex))]))
  }

  function UrlExpected(template: string, parameters: map<string, string>): Json {
    Obj(Present([("template", Quoted(template)), ("regex_template", Quoted(TemplateRegex(template))),
                 ("param_types", ExtractParamTypes(template, parameters))]))
  }

  // ---- what the recorder saw ----

  predicate Mentions(h: Heuristics, signals: Option<seq<string>>, needles: seq<string>) {
    signals.Some? && exists n | n in needles :: h.mentions(signals.value, n)
  }

  const ASSERTION_TYPES: set<string> :=
    {"element-visible", "text-matches", "url-matches", "count-equals", "network-idle", "custom"}

  function Suggested(step: Step): Option<string> {
    if step.suggestedType.Some? && step.suggestedType.value in ASSERTION_TYPES then step.suggestedType else None
  }

  predicate UrlChanged(step: Step) {
    step.pre.urlTemplate != step.post.urlTemplate
  }

  function NotIn(landmarks: seq<string>, known: seq<string>): (r: seq<string>)
    ensures forall l | l in r :: l in landmarks
  {
    if |landmarks| == 0 then []
    else (if landmarks[0] in known then [] else [landmarks[0]]) + NotIn(landmarks[1..], known)
  }

  function NewLandmarks(step: Step): seq<string> {
    NotIn(step.post.landmarks, step.pre.landmarks)
  }

  function PickPreferredLandmark(landmarks: seq<string>): (r: Option<string>)
    ensures r.Some? ==> r.value in landmarks
  {
    if "form" in landmarks then Some("form")
    else if "main" in landmarks then Some("main")
    else if "dialog" in landmarks then Some("dialog")
    else if "navigation" in landmarks then Some("navigation")
    else if "banner" in landmarks then Some("banner")
    else if |landmarks| > 0 then Some(landmarks[0])
    else None
  }

  const BARE: Locator := Locator(Unrecognized, None, None, None, None, None, None, None, None)

  function RoleLocator(role: string): Locator {
    BARE.(strategy := RoleName, role := Some(role))
  }

  function LandmarkAsLocator(landmark: Option<string>): Option<Locator> {
    if landmark.Some? && |landmark.value| > 0 then Some(RoleLocator(landmark.value)) else None
  }

  function StripTenantFlag(l: Locator): Locator {
    if l.strategy == TopologyOnly then BARE.(strategy := Structural, structuralPath := Some("body"))
    else l.(tenantScoped := None)
  }

  function SanitizeTemplate(h: Heuristics, value: string): string {
    if LooksLikeTenantLiteral(h, value) && !HasHoles(value) then Hole("observed_text") else value
  }

  function LocatorTarget(l: Locator): Option<Json> {
    Some(Obj([Field("locator", LocatorJson(StripTenantFlag(l)))]))
  }

  function Visible(b: bool): Option<Json> {
    Some(Obj([Field("visible", Bool(b))]))
  }

  // ---- the branches, in order ----

  predicate PreferHintElement(h: Heuristics, step: Step, primary: Option<Locator>) {
    && Suggested(step) == Some("element-visible")
    && (Mentions(h, step.signals, ["visible", "appeared", "form", "login"]) || NewLandmarks(step) != [] || primary.Some?)
  }

  predicate WantsText(h: Heuristics, step: Step) {
    Suggested(step) == Some("text-matches") || Mentions(h, step.signals, ["toast", "saved", "success", "notification"])
  }

  predicate WantsCount(h: Heuristics, step: Step) {
    Suggested(step) == Some("count-equals") || Mentions(h, step.signals, ["count", "rows", "items"])
  }

  predicate ClickChangedUrl(step: Step) {
    step.action.kind == Click && UrlChanged(step)
  }

  predicate WantsElement(h: Heuristics, step: Step, primary: Option<Locator>) {
    || PreferHintElement(h, step, primary)
    || Suggested(step) == Some("element-visible")
    || NewLandmarks(step) != []
    || Mentions(h, step.signals, ["visible", "appeared", "form"])
    || (primary.Some? && step.action.kind in {Click, Fill, ActionType.Select, Check, Uncheck})
  }

  /** The control acted on was seen to disappear. */
  predicate SawItGo(step: Step, primary: Option<Locator>) {
    && step.targetVisible == Some(false) && primary.Some? && !ClickChangedUrl(step)
    && step.action.kind in {Click, Check, Uncheck, Press}
  }

  function ElementLocator(h: Heuristics, step: Step, primary: Option<Locator>): Option<Locator> {
    if primary.Some? then primary
    else
      var appeared := PickPreferredLandmark(NewLandmarks(step));
      LandmarkAsLocator(
        if appeared.Some? then appeared
        else if PreferHintElement(h, step, primary) then PickPreferredLandmark(step.post.landmarks) else None)
  }

  function ElementStrength(h: Heuristics, step: Step): string {
    if step.action.kind == Navigate
      && (Mentions(h, step.signals, ["form", "login"]) || Suggested(step) == Some("element-visible"))
    then "strong" else "weak"
  }

  function UrlStrength(step: Step): string {
    if step.action.kind == Navigate || (UrlChanged(step) && step.action.kind == Click) then "strong" else "weak"
  }

  function CountScope(primary: Option<Locator>): string {
    if primary.Some? && primary.value.css.Some? then primary.value.css.value
    else if primary.Some? && primary.value.structuralPath.Some? then primary.value.structuralPath.value
    else "main"
  }

  function AssertionId(t: Trajectory, step: Step): string {
    "assert-" + t.taskKey + "-step-" + Decimal.IntText(step.stepIndex)
  }

  /** Everything an assertion says but its id. */
  datatype Plan = Plan(
    kind: string, strength: string, target: Option<Json>, expected: Option<Json>, timeout: int, failure: string)

  /** A message: one hole for the whole of its text. */
  function TextPlan(name: string, timeout: int): Plan {
    Plan("text-matches", "strong", None, Some(HoleExpected([], name, "string", Some(TemplateRegex(Hole(name))))),
         timeout, "assertion_failed")
  }

  function PlanFor(h: Heuristics, t: Trajectory, step: Step, primary: Option<Locator>, timeout: int): Plan {
    if WantsText(h, step) then TextPlan("success_message", timeout)
    else if WantsCount(h, step) then
      Plan("count-equals", "weak", Some(Obj([Field("count_scope", Str(CountScope(primary)))])),
           Some(HoleExpected([("count", Some(Num(0)))], "item_count", "integer", None)), timeout, "assertion_failed")
    else if SawItGo(step, primary) then
      Plan("element-visible", "strong", LocatorTarget(primary.value), Visible(false), timeout, "assertion_failed")
    else if WantsElement(h, step, primary) && !ClickChangedUrl(step)
      && (ElementLocator(h, step, primary).Some? || PreferHintElement(h, step, primary)) then
      var found := ElementLocator(h, step, primary);
      Plan("element-visible", ElementStrength(h, step),
           LocatorTarget(if found.Some? then found.value else RoleLocator("form")),
           Visible(true), timeout, "assertion_failed")
    else if UrlChanged(step) || Suggested(step) == Some("url-matches") then
      var template := SanitizeTemplate(h, step.post.urlTemplate);
      Plan("url-matches", UrlStrength(step), Some(Obj([Field("url_template", Str(template))])),
           Some(UrlExpected(template, t.parameters)), timeout, "assertion_failed")
    else if Suggested(step) == Some("network-idle") || step.post.networkIdle then
      Plan("network-idle", "weak", None, None, timeout, "timeout")
    else
      Plan("custom", "weak", None,
           Some(HoleExpected([("custom_predicate_id", Quoted("post_digest_changed_or_stable"))], "dom_digest", "string", None)),
           DEFAULT_ASSERTION_TIMEOUT_MS, "unknown")
  }

  function SynthesizeAssertion(h: Heuristics, t: Trajectory, step: Step, chain: seq<Locator>, timeout: int): Json {
    var p := PlanFor(h, t, step, PickPrimaryLocator(chain), timeout);
    MakeAssertion(AssertionId(t, step), p.kind, p.strength, p.target, p.expected, p.timeout, p.failure)
  }
}
