/**
 * What a compiled assertion says of the step it was recorded for, read back from its JSON by property name and judged
 * against the recording alone.
 */
module ReadBack {
  import opened Wrappers
  import opened Order
  import opened Text
  import opened UrlRegex
  import opened Json
  import opened CacheTypes
  import opened Literals
  import opened Pool
  import opened Locators
  import opened Synthesize
  import opened Compile

  // ---- what the recording shows ----

  predicate Says(h: Heuristics, step: Step, words: set<string>) {
    step.signals.Some? && exists w | w in words :: h.mentions(step.signals.value, w)
  }

  predicate Hints(step: Step, kind: string) {
    step.suggestedType == Some(kind)
  }

  predicate AsksForText(h: Heuristics, step: Step) {
    Hints(step, "text-matches") || Says(h, step, {"toast", "saved", "success", "notification"})
  }

  predicate AsksForCount(h: Heuristics, step: Step) {
    Hints(step, "count-equals") || Says(h, step, {"count", "rows", "items"})
  }

  predicate ClickLeavesPage(step: Step) {
    step.action.kind == Click && step.pre.urlTemplate != step.post.urlTemplate
  }

  /** The control that was acted on was watched, and went away without the page going with it. */
  predicate ControlGone(step: Step, primary: Option<Locator>) {
    && primary.Some? && step.targetVisible == Some(false) && !ClickLeavesPage(step)
    && (step.action.kind == Click || step.action.kind == Check || step.action.kind == Uncheck || step.action.kind == Press)
  }

  predicate Appears(landmarks: seq<string>, known: seq<string>, l: string) {
    l in landmarks && l !in known
  }

  predicate SomethingAppears(step: Step) {
    exists i | 0 <= i < |step.post.landmarks| :: step.post.landmarks[i] !in step.pre.landmarks
  }

  /** The landmark to look for: the best known kind of region among those that appeared, else the first that did. */
  ghost predicate Picked(landmarks: seq<string>, known: seq<string>, l: string) {
    if Appears(landmarks, known, "form") then l == "form"
    else if Appears(landmarks, known, "main") then l == "main"
    else if Appears(landmarks, known, "dialog") then l == "dialog"
    else if Appears(landmarks, known, "navigation") then l == "navigation"
    else if Appears(landmarks, known, "banner") then l == "banner"
    else Appears(landmarks, known, l) && exists i :: Leads(landmarks, known, l, i)
  }

  ghost predicate Leads(landmarks: seq<string>, known: seq<string>, l: string, i: int) {
    0 <= i < |landmarks| && landmarks[i] == l && forall j | 0 <= j < i :: landmarks[j] in known
  }

  /** The hint to look for an element is backed by something seen. */
  predicate HintBacked(h: Heuristics, step: Step, primary: Option<Locator>) {
    Hints(step, "element-visible")
      && (primary.Some? || SomethingAppears(step) || Says(h, step, {"visible", "appeared", "form", "login"}))
  }

  ghost predicate NamedLandmarkAppears(step: Step) {
    exists l :: |l| > 0 && Picked(step.post.landmarks, step.pre.landmarks, l)
  }

  ghost predicate ShowsElement(h: Heuristics, step: Step, primary: Option<Locator>) {
    || HintBacked(h, step, primary)
    || (primary.None? && NamedLandmarkAppears(step))
    || (primary.Some?
        && (|| SomethingAppears(step) || Says(h, step, {"visible", "appeared", "form"})
            || step.action.kind in {Click, Fill, ActionType.Select, Check, Uncheck}))
  }

  ghost predicate IsElementStep(h: Heuristics, step: Step, primary: Option<Locator>) {
    && !AsksForText(h, step) && !AsksForCount(h, step)
    && (ControlGone(step, primary) || (!ClickLeavesPage(step) && ShowsElement(h, step, primary)))
  }

  predicate UrlTells(step: Step) {
    step.pre.urlTemplate != step.post.urlTemplate || Hints(step, "url-matches")
  }

  // ---- what the assertion must say ----

  /** Which kind of assertion a step gets. */
  ghost predicate TypeSays(h: Heuristics, step: Step, primary: Option<Locator>, a: Json) {
    var kind := StrProp(a, "type");
    && (kind == Some("text-matches") <==> AsksForText(h, step))
    && (kind == Some("count-equals") <==> !AsksForText(h, step) && AsksForCount(h, step))
    && (kind == Some("element-visible") <==> IsElementStep(h, step, primary))
    && (kind == Some("url-matches") <==>
          !AsksForText(h, step) && !AsksForCount(h, step) && !IsElementStep(h, step, primary) && UrlTells(step))
    && (kind == Some("network-idle") <==>
          && !AsksForText(h, step) && !AsksForCount(h, step) && !IsElementStep(h, step, primary) && !UrlTells(step)
          && (Hints(step, "network-idle") || step.post.networkIdle))
    && kind in {Some("text-matches"), Some("count-equals"), Some("element-visible"), Some("url-matches"), Some("network-idle"),
                Some("custom")}
  }

  /** The locator as an assertion may quote it: without its tenant flag, and a place in the flow as the page's body. */
  function Quotable(l: Locator): Locator {
    if l.strategy == TopologyOnly
    then Locator(Structural, None, None, None, None, Some("body"), None, None, None)
    else Locator(l.strategy, l.role, l.name, l.labelText, l.testid, l.structuralPath, l.text, l.css, None)
  }

  function Region(role: string): Locator {
    Locator(RoleName, Some(role), None, None, None, None, None, None, None)
  }

  /** The region to look for when no locator was recorded. */
  ghost predicate RegionFits(step: Step, loc: Locator) {
    if SomethingAppears(step) then
      exists l :: Picked(step.post.landmarks, step.pre.landmarks, l) && loc == Region(if |l| > 0 then l else "form")
    else if |step.post.landmarks| > 0 then
      exists l :: Picked(step.post.landmarks, [], l) && loc == Region(if |l| > 0 then l else "form")
    else loc == Region("form")
  }

  ghost predicate ElementSays(h: Heuristics, step: Step, primary: Option<Locator>, a: Json) {
    && (match Prop(a, "expected")
        case Some(expected) => Prop(expected, "visible") == Some(Bool(!ControlGone(step, primary)))
        case None => false)
    && (match Prop(a, "target")
        case Some(target) =>
          (match Prop(target, "locator")
           case Some(l) => (if primary.Some? then LocatorOf(l) == Quotable(primary.value) else RegionFits(step, LocatorOf(l)))
           case None => false)
        case None => false)
    && (StrProp(a, "strength") == Some("strong") <==>
          || ControlGone(step, primary)
          || (step.action.kind == Navigate && (Hints(step, "element-visible") || Says(h, step, {"form", "login"}))))
  }

  function TypeOf(names: seq<string>, parameters: map<string, string>, n: string): Option<Json> {
    if n !in names then None else Some(Str(if n in parameters then parameters[n] else "string"))
  }

  /** Each hole's type, as the trajectory declares it or else a string; nothing when there is no hole. */
  ghost predicate TypesSay(names: seq<string>, parameters: map<string, string>, types: Option<Json>) {
    if names == [] then types.None?
    else
      && types.Some?
      && forall n :: Prop(types.value, n) == TypeOf(names, parameters, n)
  }

  /** The page to be on: as recorded, unless the recording names a tenant's text and no parameter. */
  ghost predicate PageSays(h: Heuristics, t: Trajectory, step: Step, a: Json) {
    var page := step.post.urlTemplate;
    var shown := if LooksLikeTenantLiteral(h, page) && HoleNames(page) == [] then "{observed_text}" else page;
    && (match Prop(a, "expected")
        case Some(expected) =>
          && StrProp(expected, "template") == Some(shown) && StrProp(expected, "regex_template") == Some(TemplateRegex(shown))
          && TypesSay(HoleNames(shown), t.parameters, Prop(expected, "param_types"))
        case None => false)
    && (match Prop(a, "target") case Some(target) => StrProp(target, "url_template") == Some(shown) case None => false)
    && (StrProp(a, "strength") == Some("strong") <==> step.action.kind == Navigate || ClickLeavesPage(step))
  }

  ghost predicate ExpectsHole(a: Json, name: string) {
    match Prop(a, "expected")
    case Some(expected) => StrProp(expected, "template") == Some("{" + name + "}")
    case None => false
  }

  /** The region in which to count. */
  function CountIn(primary: Option<Locator>): string {
    match primary
    case Some(l) => (match l.css case Some(css) => css case None => if l.structuralPath.Some? then l.structuralPath.value else "main")
    case None => "main"
  }

  ghost predicate TextSays(a: Json) {
    ExpectsHole(a, "success_message") && StrProp(a, "strength") == Some("strong")
  }

  ghost predicate CountSays(primary: Option<Locator>, a: Json) {
    && ExpectsHole(a, "item_count") && StrProp(a, "strength") == Some("weak")
    && (match Prop(a, "target") case Some(target) => StrProp(target, "count_scope") == Some(CountIn(primary)) case None => false)
  }

  ghost predicate IdleSays(a: Json) {
    Prop(a, "expected") == None && StrProp(a, "strength") == Some("weak")
  }

  ghost predicate DigestSays(a: Json) {
    ExpectsHole(a, "dom_digest") && StrProp(a, "strength") == Some("weak")
  }

  /** Identity, patience, and how a failure is to be classified. */
  ghost predicate FrameSays(t: Trajectory, step: Step, timeout: int, a: Json) {
    var kind := StrProp(a, "type");
    && Prop(a, "timeout_ms") == Some(Num(if kind == Some("custom") then 5000 else timeout))
    && StrProp(a, "failure_classification")
      == Some(if kind == Some("network-idle") then "timeout" else if kind == Some("custom") then "unknown" else "assertion_failed")
    && StrProp(a, "assertion_id") == Some("assert-" + t.taskKey + "-step-" + Decimal.IntText(step.stepIndex))
    && StrProp(a, "schema_version") == Some("1.0.0")
  }

  ghost predicate ContentSays(h: Heuristics, t: Trajectory, step: Step, primary: Option<Locator>, a: Json) {
    var kind := StrProp(a, "type");
    && (kind == Some("element-visible") ==> ElementSays(h, step, primary, a))
    && (kind == Some("url-matches") ==> PageSays(h, t, step, a))
    && (kind == Some("text-matches") ==> TextSays(a))
    && (kind == Some("count-equals") ==> CountSays(primary, a))
    && (kind == Some("network-idle") ==> IdleSays(a))
    && (kind == Some("custom") ==> DigestSays(a))
  }

  ghost predicate AssertionSays(h: Heuristics, t: Trajectory, step: Step, primary: Option<Locator>, timeout: int, a: Json) {
    TypeSays(h, step, primary, a) && ContentSays(h, t, step, primary, a) && FrameSays(t, step, timeout, a)
  }

  // ---- it does ----

  lemma WordsAgree(h: Heuristics, step: Step)
    ensures Suggested(step) == Some("text-matches") <==> Hints(step, "text-matches")
    ensures Suggested(step) == Some("count-equals") <==> Hints(step, "count-equals")
    ensures Suggested(step) == Some("element-visible") <==> Hints(step, "element-visible")
    ensures Suggested(step) == Some("url-matches") <==> Hints(step, "url-matches")
    ensures Suggested(step) == Some("network-idle") <==> Hints(step, "network-idle")
  {
  }

  lemma MentionsIsSays(h: Heuristics, step: Step, words: seq<string>, same: set<string>)
    requires forall w :: w in words <==> w in same
    ensures Mentions(h, step.signals, words) <==> Says(h, step, same)
  {
  }

  lemma AsksAgree(h: Heuristics, step: Step)
    ensures WantsText(h, step) <==> AsksForText(h, step)
    ensures WantsCount(h, step) <==> AsksForCount(h, step)
  {
    WordsAgree(h, step);
    MentionsIsSays(h, step, ["toast", "saved", "success", "notification"], {"toast", "saved", "success", "notification"});
    MentionsIsSays(h, step, ["count", "rows", "items"], {"count", "rows", "items"});
  }

  lemma {:induction false} NotInIsAppears(landmarks: seq<string>, known: seq<string>)
    ensures forall l :: l in NotIn(landmarks, known) <==> Appears(landmarks, known, l)
    ensures var r := NotIn(landmarks, known); |r| > 0 ==> exists i :: Leads(landmarks, known, r[0], i)
  {
    if |landmarks| > 0 {
      NotInIsAppears(landmarks[1..], known);
      var r, rest := NotIn(landmarks, known), NotIn(landmarks[1..], known);
      if landmarks[0] !in known {
        assert Leads(landmarks, known, r[0], 0);
      } else if |rest| > 0 {
        var i :| Leads(landmarks[1..], known, rest[0], i);
        assert Leads(landmarks, known, r[0], i + 1);
      }
    }
  }

  lemma PickIsPicked(landmarks: seq<string>, known: seq<string>)
    ensures var r := PickPreferredLandmark(NotIn(landmarks, known));
      && (r.None? <==> forall l | l in landmarks :: l in known)
      && (r.Some? ==> Picked(landmarks, known, r.value))
  {
    NotInIsAppears(landmarks, known);
  }

  lemma PickedIsOne(landmarks: seq<string>, known: seq<string>, l: string, m: string)
    requires Picked(landmarks, known, l) && Picked(landmarks, known, m)
    ensures l == m
  {
    if exists i, j :: Leads(landmarks, known, l, i) && Leads(landmarks, known, m, j) {
      var i, j :| Leads(landmarks, known, l, i) && Leads(landmarks, known, m, j);
      assert !(i < j) && !(j < i);
    }
  }

  lemma AppearedIsNamed(step: Step)
    ensures var r := PickPreferredLandmark(NewLandmarks(step));
      && (r.Some? <==> SomethingAppears(step)) && (NewLandmarks(step) != [] <==> SomethingAppears(step))
      && (r.Some? ==> Picked(step.post.landmarks, step.pre.landmarks, r.value))
      && (r.Some? && |r.value| > 0 <==> NamedLandmarkAppears(step))
  {
    var r := PickPreferredLandmark(NewLandmarks(step));
    PickIsPicked(step.post.landmarks, step.pre.landmarks);
    NotInIsAppears(step.post.landmarks, step.pre.landmarks);
    if NamedLandmarkAppears(step) {
      var l :| |l| > 0 && Picked(step.post.landmarks, step.pre.landmarks, l);
      assert Appears(step.post.landmarks, step.pre.landmarks, l);
      PickedIsOne(step.post.landmarks, step.pre.landmarks, l, r.value);
    }
  }

  lemma HintAgrees(h: Heuristics, step: Step, primary: Option<Locator>)
    ensures PreferHintElement(h, step, primary) <==> HintBacked(h, step, primary)
  {
    WordsAgree(h, step);
    AppearedIsNamed(step);
    MentionsIsSays(h, step, ["visible", "appeared", "form", "login"], {"visible", "appeared", "form", "login"});
  }

  lemma ElementAgrees(h: Heuristics, step: Step, primary: Option<Locator>)
    ensures SawItGo(step, primary) <==> ControlGone(step, primary)
    ensures ClickChangedUrl(step) <==> ClickLeavesPage(step)
    ensures WantsElement(h, step, primary) && (ElementLocator(h, step, primary).Some? || PreferHintElement(h, step, primary))
      <==> ShowsElement(h, step, primary)
  {
    WordsAgree(h, step);
    HintAgrees(h, step, primary);
    AppearedIsNamed(step);
    MentionsIsSays(h, step, ["visible", "appeared", "form"], {"visible", "appeared", "form"});
  }

  /** The branches, in the recording's words. */
  lemma KindAgrees(h: Heuristics, t: Trajectory, step: Step, primary: Option<Locator>, timeout: int)
    ensures var kind := PlanFor(h, t, step, primary, timeout).kind;
      && (kind == "text-matches" <==> AsksForText(h, step))
      && (kind == "count-equals" <==> !AsksForText(h, step) && AsksForCount(h, step))
      && (kind == "element-visible" <==> IsElementStep(h, step, primary))
      && (kind == "url-matches" <==>
            !AsksForText(h, step) && !AsksForCount(h, step) && !IsElementStep(h, step, primary) && UrlTells(step))
      && (kind == "network-idle" <==>
            && !AsksForText(h, step) && !AsksForCount(h, step) && !IsElementStep(h, step, primary) && !UrlTells(step)
            && (Hints(step, "network-idle") || step.post.networkIdle))
      && kind in {"text-matches", "count-equals", "element-visible", "url-matches", "network-idle", "custom"}
  {
    AsksAgree(h, step);
    ElementAgrees(h, step, primary);
    WordsAgree(h, step);
  }

  lemma QuotableIsStripped(l: Locator)
    ensures StripTenantFlag(l) == Quotable(l)
    ensures RoleLocator("form") == Region("form") && forall role :: RoleLocator(role) == Region(role)
    ensures forall role :: Quotable(Region(role)) == Region(role)
  {
  }

  lemma TargetReadsBack(l: Locator)
    ensures var target := LocatorTarget(l).value;
      Prop(target, "locator").Some? && LocatorOf(Prop(target, "locator").value) == Quotable(l)
  {
    QuotableIsStripped(l);
    LocatorReadsBack(StripTenantFlag(l));
    var fs := [Field("locator", LocatorJson(StripTenantFlag(l)))];
    assert fs[0].key == "locator";
  }

  lemma VisibleReadsBack(b: bool)
    ensures Prop(Visible(b).value, "visible") == Some(Bool(b))
  {
    assert [Field("visible", Bool(b))][0].key == "visible";
  }

  /** The region the compiler falls back to is the one that fits. */
  lemma RegionAgrees(h: Heuristics, step: Step, found: Option<Locator>)
    requires found == ElementLocator(h, step, None) && (found.Some? || PreferHintElement(h, step, None))
    ensures RegionFits(step, if found.Some? then found.value else Region("form"))
  {
    AppearedIsNamed(step);
    var all := step.post.landmarks;
    PickIsPicked(all, []);
    NotInNothing(all);
  }

  lemma {:induction false} NotInNothing(landmarks: seq<string>)
    ensures NotIn(landmarks, []) == landmarks
  {
    if |landmarks| > 0 {
      NotInNothing(landmarks[1..]);
    }
  }

  /** The plan of an element step, in the recording's words but for its region. */
  lemma ElementPlanParts(h: Heuristics, t: Trajectory, step: Step, primary: Option<Locator>, timeout: int)
    requires IsElementStep(h, step, primary)
    ensures var p, found := PlanFor(h, t, step, primary, timeout), ElementLocator(h, step, primary);
      if ControlGone(step, primary) then
        p.strength == "strong" && p.target == LocatorTarget(primary.value) && p.expected == Visible(false)
      else
        && p.strength == ElementStrength(h, step) && (found.Some? || PreferHintElement(h, step, primary))
        && p.target == LocatorTarget(if found.Some? then found.value else RoleLocator("form")) && p.expected == Visible(true)
  {
    AsksAgree(h, step);
    ElementAgrees(h, step, primary);
  }

  lemma ElementPlanSays(h: Heuristics, t: Trajectory, step: Step, primary: Option<Locator>, timeout: int, a: Json)
    requires Carries(a, PlanFor(h, t, step, primary, timeout)) && IsElementStep(h, step, primary)
    ensures ElementSays(h, step, primary, a)
  {
    ElementPlanParts(h, t, step, primary, timeout);
    WordsAgree(h, step);
    MentionsIsSays(h, step, ["form", "login"], {"form", "login"});
    if ControlGone(step, primary) {
      VisibleReadsBack(false);
      TargetReadsBack(primary.value);
    } else {
      var found := ElementLocator(h, step, primary);
      var l := if found.Some? then found.value else RoleLocator("form");
      VisibleReadsBack(true);
      TargetReadsBack(l);
      QuotableIsStripped(l);
      if primary.None? {
        RegionAgrees(h, step, found);
      }
    }
  }

  lemma ShownPage(h: Heuristics, page: string)
    ensures SanitizeTemplate(h, page) == if LooksLikeTenantLiteral(h, page) && HoleNames(page) == [] then "{observed_text}" else page
  {
    assert Hole("observed_text") == "{observed_text}";
  }

  ghost predicate Carries(a: Json, p: Plan) {
    && StrProp(a, "type") == Some(p.kind) && StrProp(a, "strength") == Some(p.strength)
    && Prop(a, "target") == p.target && Prop(a, "expected") == p.expected
    && Prop(a, "timeout_ms") == Some(Num(p.timeout)) && StrProp(a, "failure_classification") == Some(p.failure)
  }

  lemma {:induction false} GetSnoc(fs: seq<Field>, f: Field, key: string)
    ensures Get(fs + [f], key) == if Get(fs, key).Some? then Get(fs, key) else if f.key == key then Some(f.value) else None
  {
    if |fs| == 0 {
      assert [f][1..] == [];
    } else {
      assert (fs + [f])[1..] == fs[1..] + [f];
      GetSnoc(fs[1..], f, key);
    }
  }

  lemma TypeAdded(front: seq<string>, last: string, parameters: map<string, string>, fs: seq<Field>, n: string)
    requires fs == ParamTypes(front, parameters)
    requires Get(fs, n) == TypeOf(front, parameters, n) && Get(fs, last) == TypeOf(front, parameters, last)
    ensures Get(ParamTypes(front + [last], parameters), n) == TypeOf(front + [last], parameters, n)
  {
    assert (front + [last])[..|front|] == front;
    assert HasKey(fs, last) <==> Get(fs, last).Some?;
    GetSnoc(fs, Field(last, Str(if last in parameters then parameters[last] else "string")), n);
  }

  lemma {:induction false} TypesAre(names: seq<string>, parameters: map<string, string>, n: string)
    ensures Get(ParamTypes(names, parameters), n) == TypeOf(names, parameters, n)
  {
    if |names| > 0 {
      var front, last := names[..|names| - 1], names[|names| - 1];
      assert names == front + [last];
      var fs := ParamTypes(front, parameters);
      TypesAre(front, parameters, n);
      TypesAre(front, parameters, last);
      TypeAdded(front, last, parameters, fs, n);
    }
  }

  lemma ExtractedSay(template: string, parameters: map<string, string>)
    ensures TypesSay(HoleNames(template), parameters, ExtractParamTypes(template, parameters))
  {
    forall n ensures Get(ParamTypes(HoleNames(template), parameters), n) == TypeOf(HoleNames(template), parameters, n) {
      TypesAre(HoleNames(template), parameters, n);
    }
  }

  lemma ExpectedPageSays(shown: string, parameters: map<string, string>, expected: Json)
    requires expected == UrlExpected(shown, parameters)
    ensures StrProp(expected, "template") == Some(shown) && StrProp(expected, "regex_template") == Some(TemplateRegex(shown))
    ensures TypesSay(HoleNames(shown), parameters, Prop(expected, "param_types"))
  {
    UrlExpectedTemplate(shown, parameters);
    ExtractedSay(shown, parameters);
  }

  lemma TargetPageSays(shown: string)
    ensures StrProp(Obj([Field("url_template", Str(shown))]), "url_template") == Some(shown)
  {
    assert [Field("url_template", Str(shown))][0].key == "url_template";
  }

  lemma PagePlanSays(h: Heuristics, t: Trajectory, step: Step, p: Plan, a: Json)
    requires var shown := SanitizeTemplate(h, step.post.urlTemplate);
      p.strength == UrlStrength(step) && p.target == Some(Obj([Field("url_template", Str(shown))]))
        && p.expected == Some(UrlExpected(shown, t.parameters))
    requires Carries(a, p)
    ensures PageSays(h, t, step, a)
  {
    var shown := SanitizeTemplate(h, step.post.urlTemplate);
    ShownPage(h, step.post.urlTemplate);
    ExpectedPageSays(shown, t.parameters, UrlExpected(shown, t.parameters));
    TargetPageSays(shown);
  }

  lemma TextPlanSays(name: string, timeout: int, p: Plan, a: Json)
    requires p == TextPlan(name, timeout) && Carries(a, p)
    ensures ExpectsHole(a, name) && StrProp(a, "strength") == Some("strong")
  {
    HoleExpectedTemplate([], name, "string", Some(TemplateRegex(Hole(name))));
  }

  lemma CountPlanSays(primary: Option<Locator>, p: Plan, a: Json)
    requires p.strength == "weak" && p.target == Some(Obj([Field("count_scope", Str(CountScope(primary)))]))
    requires p.expected == Some(HoleExpected([("count", Some(Num(0)))], "item_count", "integer", None))
    requires Carries(a, p)
    ensures CountSays(primary, a)
  {
    HoleTexts();
    HoleExpectedTemplate([("count", Some(Num(0)))], "item_count", "integer", None);
    assert [Field("count_scope", Str(CountScope(primary)))][0].key == "count_scope";
  }

  lemma DigestPlanSays(p: Plan, a: Json)
    requires p.strength == "weak"
    requires p.expected
      == Some(HoleExpected([("custom_predicate_id", Quoted("post_digest_changed_or_stable"))], "dom_digest", "string", None))
    requires Carries(a, p)
    ensures DigestSays(a)
  {
    HoleTexts();
    HoleExpectedTemplate([("custom_predicate_id", Quoted("post_digest_changed_or_stable"))], "dom_digest", "string", None);
  }

  // What each kind of plan is made of.

  lemma TextPlanParts(h: Heuristics, t: Trajectory, step: Step, primary: Option<Locator>, timeout: int)
    ensures var p := PlanFor(h, t, step, primary, timeout);
      p.kind == "text-matches" ==> p == TextPlan("success_message", timeout)
  {
  }

  lemma CountPlanParts(h: Heuristics, t: Trajectory, step: Step, primary: Option<Locator>, timeout: int)
    ensures var p := PlanFor(h, t, step, primary, timeout);
      p.kind == "count-equals" ==>
        && p.strength == "weak" && p.target == Some(Obj([Field("count_scope", Str(CountScope(primary)))]))
        && p.expected == Some(HoleExpected([("count", Some(Num(0)))], "item_count", "integer", None))
  {
  }

  lemma PagePlanParts(h: Heuristics, t: Trajectory, step: Step, primary: Option<Locator>, timeout: int)
    ensures var p, shown := PlanFor(h, t, step, primary, timeout), SanitizeTemplate(h, step.post.urlTemplate);
      p.kind == "url-matches" ==>
        && p.strength == UrlStrength(step) && p.target == Some(Obj([Field("url_template", Str(shown))]))
        && p.expected == Some(UrlExpected(shown, t.parameters))
  {
  }

  lemma DigestPlanParts(h: Heuristics, t: Trajectory, step: Step, primary: Option<Locator>, timeout: int)
    ensures var p := PlanFor(h, t, step, primary, timeout);
      p.kind == "custom" ==>
        && p.strength == "weak"
        && p.expected
          == Some(HoleExpected([("custom_predicate_id", Quoted("post_digest_changed_or_stable"))], "dom_digest", "string", None))
  {
  }

  lemma FramePlanSays(h: Heuristics, t: Trajectory, step: Step, primary: Option<Locator>, timeout: int)
    ensures var p := PlanFor(h, t, step, primary, timeout);
      && p.timeout == (if p.kind == "custom" then 5000 else timeout)
      && p.failure == (if p.kind == "network-idle" then "timeout" else if p.kind == "custom" then "unknown" else "assertion_failed")
      && (p.kind == "network-idle" ==> p.strength == "weak" && p.expected.None?)
  {
  }

  lemma HoleTexts()
    ensures Hole("item_count") == "{" + "item_count" + "}"
    ensures Hole("dom_digest") == "{" + "dom_digest" + "}"
  {
  }

  lemma PlanSays(h: Heuristics, t: Trajectory, step: Step, primary: Option<Locator>, timeout: int, a: Json)
    requires Carries(a, PlanFor(h, t, step, primary, timeout))
    ensures TypeSays(h, step, primary, a) && ContentSays(h, t, step, primary, a)
  {
    var p := PlanFor(h, t, step, primary, timeout);
    KindAgrees(h, t, step, primary, timeout);
    FramePlanSays(h, t, step, primary, timeout);
    if p.kind == "element-visible" {
      ElementPlanSays(h, t, step, primary, timeout, a);
    } else if p.kind == "url-matches" {
      PagePlanParts(h, t, step, primary, timeout);
      PagePlanSays(h, t, step, p, a);
    } else if p.kind == "text-matches" {
      TextPlanParts(h, t, step, primary, timeout);
      TextPlanSays("success_message", timeout, p, a);
    } else if p.kind == "count-equals" {
      CountPlanParts(h, t, step, primary, timeout);
      CountPlanSays(primary, p, a);
    } else if p.kind == "custom" {
      DigestPlanParts(h, t, step, primary, timeout);
      DigestPlanSays(p, a);
    }
  }

  lemma MadeSays(t: Trajectory, step: Step, timeout: int, p: Plan, a: Json)
    requires p.timeout == (if p.kind == "custom" then 5000 else timeout)
    requires p.failure == (if p.kind == "network-idle" then "timeout" else if p.kind == "custom" then "unknown" else "assertion_failed")
    requires a == MakeAssertion(AssertionId(t, step), p.kind, p.strength, p.target, p.expected, p.timeout, p.failure)
    ensures Carries(a, p) && FrameSays(t, step, timeout, a)
  {
    AssertionParts(AssertionId(t, step), p.kind, p.strength, p.target, p.expected, p.timeout, p.failure);
  }

  /** Whatever was recorded, the assertion synthesized for it says this, read from its JSON. */
  lemma SynthesizedSays(h: Heuristics, t: Trajectory, step: Step, chain: seq<Locator>, timeout: int)
    ensures AssertionSays(h, t, step, PickPrimaryLocator(chain), timeout, SynthesizeAssertion(h, t, step, chain, timeout))
  {
    var primary := PickPrimaryLocator(chain);
    var p := PlanFor(h, t, step, primary, timeout);
    FramePlanSays(h, t, step, primary, timeout);
    MadeSays(t, step, timeout, p, SynthesizeAssertion(h, t, step, chain, timeout));
    PlanSays(h, t, step, primary, timeout, SynthesizeAssertion(h, t, step, chain, timeout));
  }

  // ---- whole rows ----

  /** The recorded action, with the chain in place of its candidates. */
  predicate ActionSays(step: Step, action: Action) {
    && action.kind == step.action.kind && action.paramRefs == step.action.paramRefs
    && action.urlTemplate == step.action.urlTemplate && action.key == step.action.key
    && action.customOp == step.action.customOp && action.waitMs == step.action.waitMs
  }

  /** The first step recorded under a number, if any, was of this kind. */
  ghost predicate FirstUnder(steps: seq<Step>, index: int, kind: Option<ActionType>) {
    if kind.None? then forall i | 0 <= i < |steps| :: steps[i].stepIndex != index
    else exists i ::
      && 0 <= i < |steps| && steps[i].stepIndex == index && steps[i].action.kind == kind.value
      && forall j | 0 <= j < i :: steps[j].stepIndex != index
  }

  /** Where the step stands in the flow: the kinds of its neighbours and the first landmark it left. */
  ghost predicate PlaceSays(t: Trajectory, step: Step, place: Option<FlowTopology>) {
    var f := if place.Some? then place.value else FlowTopology(None, None, None);
    && FirstUnder(t.steps, step.stepIndex - 1, f.prev) && FirstUnder(t.steps, step.stepIndex + 1, f.next)
    && f.landmark == (if |step.post.landmarks| > 0 && step.post.landmarks[0] != "" then Some(step.post.landmarks[0]) else None)
    && (place.Some? ==> f.prev.Some? || f.next.Some? || f.landmark.Some?)
  }

  ghost predicate RowSays(c: Settings, t: Trajectory, step: Step, row: CacheRow) {
    var b := row.body;
    && ActionSays(step, b.action) && b.action.chain == ChainOf(c.h, step.candidates)
    && AssertionSays(c.h, t, step, PickPrimaryLocator(b.action.chain), c.timeout, b.assertion)
    && PlaceSays(t, step, b.topology)
    && b.siteKey == t.siteKey && b.taskKey == t.taskKey && b.stepIndex == step.stepIndex
    && b.program == Some(ProgramRef("prog-" + t.trajectoryId, |t.steps|, c.compiledAt))
    && b.confidence == 0 && b.successes == 0 && b.failures == 0 && b.lastVerifiedAt == c.compiledAt
    && b.invalidated == Unset && b.provenance == None
  }

  lemma {:induction false} FoundIsFirst(steps: seq<Step>, index: int)
    ensures FirstUnder(steps, index, KindOf(FindStep(steps, index)))
  {
    if |steps| > 0 && steps[0].stepIndex != index {
      FoundIsFirst(steps[1..], index);
      var kind := KindOf(FindStep(steps[1..], index));
      if kind.Some? {
        var i :| 0 <= i < |steps[1..]| && steps[1..][i].stepIndex == index && steps[1..][i].action.kind == kind.value
          && forall j | 0 <= j < i :: steps[1..][j].stepIndex != index;
        assert steps[i + 1] == steps[1..][i];
        assert forall j | 1 <= j < i + 1 :: steps[j] == steps[1..][j - 1];
      } else {
        assert forall j | 1 <= j < |steps| :: steps[j] == steps[1..][j - 1];
      }
    }
  }

  lemma PlaceIs(t: Trajectory, step: Step)
    ensures PlaceSays(t, step, TopologyOf(t, step))
  {
    FoundIsFirst(t.steps, step.stepIndex - 1);
    FoundIsFirst(t.steps, step.stepIndex + 1);
  }

  lemma CompiledStepSays(c: Settings, t: Trajectory, step: Step)
    ensures RowSays(c, t, step, CompileStep(c, t, step))
  {
    PlaceIs(t, step);
    SynthesizedSays(c.h, t, step, ChainOf(c.h, step.candidates), c.timeout);
  }

  /** Every row of a compiled bundle says what was recorded of its step, and every recorded step has a row that does. */
  lemma CompiledRowsSay(c: Settings, t: Trajectory) returns (ordered: seq<Step>)
    requires CompileTrajectory(c, t).Ok?
    ensures multiset(ordered) == multiset(t.steps) && Sorted(ordered, EarlierStep)
    ensures var rows := CompileTrajectory(c, t).value.rows;
      |rows| == |ordered| && forall i | 0 <= i < |rows| :: RowSays(c, t, ordered[i], rows[i])
  {
    ordered := RowsOfBundle(c, t);
    forall i | 0 <= i < |ordered| ensures RowSays(c, t, ordered[i], CompileTrajectory(c, t).value.rows[i]) {
      CompiledStepSays(c, t, ordered[i]);
    }
  }

  // ---- the ids of rows ----

  predicate Unfit(c: char) {
    !(97 <= c as int <= 122 || 65 <= c as int <= 90 || 48 <= c as int <= 57 || c in {'@', '.', '_', '-'})
  }

  function SkipWhile(s: string, skip: char -> bool): (r: string)
    ensures |r| <= |s|
  {
    if |s| > 0 && skip(s[0]) then SkipWhile(s[1..], skip) else s
  }

  /** `s.replace(/run+/g, "-")`: every run becomes one dash. */
  function DashRuns(s: string, run: char -> bool): string
    decreases |s|
  {
    if |s| == 0 then ""
    else if run(s[0]) then ['-'] + DashRuns(SkipWhile(s[1..], run), run)
    else [s[0]] + DashRuns(s[1..], run)
  }

  predicate IsDash(c: char) { c == '-' }

  lemma SlugStep(c: char, rest: string)
    ensures var d := if IsSlugChar(c) then c else '-';
      SlugPart([c] + rest) == if d == '-' && |SlugPart(rest)| > 0 && SlugPart(rest)[0] == '-' then SlugPart(rest) else [d] + SlugPart(rest)
  {
    assert ([c] + rest)[1..] == rest;
  }

  lemma UnfitIff(c: char)
    ensures Unfit(c) <==> !IsSlugChar(c)
    ensures Unfit(c) ==> c != '-'
  {
  }

  lemma {:induction false} SkippedUnfit(s: string)
    ensures SlugPart(['-'] + s) == SlugPart(['-'] + SkipWhile(s, Unfit))
  {
    if |s| > 0 && Unfit(s[0]) {
      UnfitIff(s[0]);
      SkippedUnfit(s[1..]);
      assert s == [s[0]] + s[1..];
      SlugStep('-', s);
      SlugStep(s[0], s[1..]);
      SlugStep('-', s[1..]);
    }
  }

  /** Runs of unfit characters, then runs of dashes: the two replacements in turn give what one pass gives. */
  lemma {:induction false} SlugIsTwoPasses(s: string)
    ensures SlugPart(s) == DashRuns(DashRuns(s, Unfit), IsDash)
    decreases |s|
  {
    DashedSlug(s);
    SqueezedSlug(DashRuns(s, Unfit));
  }

  /** The first replacement changes nothing for the slug. */
  lemma {:induction false} DashedSlug(s: string)
    ensures SlugPart(DashRuns(s, Unfit)) == SlugPart(s)
    ensures forall c | c in DashRuns(s, Unfit) :: !Unfit(c)
    decreases |s|
  {
    if |s| > 0 {
      UnfitIff(s[0]);
      assert s == [s[0]] + s[1..];
      if Unfit(s[0]) {
        var rest := SkipWhile(s[1..], Unfit);
        DashedSlug(rest);
        SkippedUnfit(s[1..]);
        SlugStep(s[0], s[1..]);
        SlugStep('-', s[1..]);
        SlugStep('-', rest);
        SlugStep('-', DashRuns(rest, Unfit));
      } else {
        DashedSlug(s[1..]);
        SlugStep(s[0], s[1..]);
        SlugStep(s[0], DashRuns(s[1..], Unfit));
      }
    }
  }

  lemma {:induction false} SkippedDash(s: string)
    ensures SlugPart(['-'] + s) == SlugPart(['-'] + SkipWhile(s, IsDash))
  {
    if |s| > 0 && s[0] == '-' {
      SkippedDash(s[1..]);
      assert s == ['-'] + s[1..];
      SlugStep('-', s);
      SlugStep('-', s[1..]);
    }
  }

  lemma {:induction false} SkipKeeps(s: string, skip: char -> bool)
    ensures forall c | c in SkipWhile(s, skip) :: c in s
    ensures |SkipWhile(s, skip)| > 0 ==> !skip(SkipWhile(s, skip)[0])
  {
    if |s| > 0 && skip(s[0]) {
      SkipKeeps(s[1..], skip);
    }
  }

  lemma {:induction false} SlugStart(s: string)
    requires (forall c | c in s :: !Unfit(c)) && |s| > 0
    ensures |SlugPart(s)| > 0 && (SlugPart(s)[0] == '-' <==> s[0] == '-')
  {
    UnfitIff(s[0]);
    assert s == [s[0]] + s[1..];
    SlugStep(s[0], s[1..]);
  }

  /** On fit text the slug is the second replacement. */
  lemma {:induction false} SqueezedSlug(s: string)
    requires forall c | c in s :: !Unfit(c)
    ensures SlugPart(s) == DashRuns(s, IsDash)
    decreases |s|
  {
    if |s| > 0 {
      UnfitIff(s[0]);
      assert s == [s[0]] + s[1..];
      SlugStep(s[0], s[1..]);
      if s[0] == '-' {
        var rest := SkipWhile(s[1..], IsDash);
        SkipKeeps(s[1..], IsDash);
        SqueezedSlug(rest);
        SkippedDash(s[1..]);
        SlugStep('-', rest);
        if |rest| > 0 {
          SlugStart(rest);
        }
      } else {
        SqueezedSlug(s[1..]);
      }
    }
  }

  /** A row's id names its site, task and step. */
  lemma RowIdSays(c: Settings, t: Trajectory, step: Step)
    ensures CompileStep(c, t, step).body.rowId
      == "cache-" + DashRuns(DashRuns(t.siteKey, Unfit), IsDash) + "-" + DashRuns(DashRuns(t.taskKey, Unfit), IsDash) + "-"
         + Decimal.IntText(step.stepIndex)
  {
    SlugIsTwoPasses(t.siteKey);
    SlugIsTwoPasses(t.taskKey);
  }

  // ---- the order of strategies, by name ----

  const PREFERENCE: seq<string> :=
    ["role_name", "label", "testid", "structural", "text", "placeholder", "css_vocab", "", "topology_only"]

  predicate Precedes(a: string, b: string) {
    exists i, j | 0 <= i < j < |PREFERENCE| :: PREFERENCE[i] == a && PREFERENCE[j] == b
  }

  lemma PreferenceByName(s: Strategy, u: Strategy)
    ensures PreferenceIndex(s) < PreferenceIndex(u) <==> Precedes(StrategyName(s), StrategyName(u))
  {
    var i, j := PreferenceIndex(s), PreferenceIndex(u);
    NamedAt(s);
    NamedAt(u);
    NamesDiffer();
  }

  lemma NamedAt(s: Strategy)
    ensures PreferenceIndex(s) < |PREFERENCE| && PREFERENCE[PreferenceIndex(s)] == StrategyName(s)
  {
  }

  lemma NamesDiffer()
    ensures forall i, j | 0 <= i < j < |PREFERENCE| :: PREFERENCE[i] != PREFERENCE[j]
  {
  }

  /** No unmarked locator is of a better strategy than the primary one, which is unmarked if any is. */
  lemma PrimaryByName(h: Heuristics, candidates: seq<LocatorCandidate>, l: Locator)
    requires forall i | 0 <= i < |candidates| :: candidates[i].loc.strategy != TopologyOnly
    requires l in ChainOf(h, candidates) && l.strategy != TopologyOnly && l.tenantScoped != Some(true)
    ensures var primary := PickPrimaryLocator(ChainOf(h, candidates));
      && primary.Some? && primary.value.tenantScoped != Some(true)
      && !Precedes(StrategyName(l.strategy), StrategyName(primary.value.strategy))
  {
    PrimaryIsMostPreferred(h, candidates);
    var primary := PickPrimaryLocator(ChainOf(h, candidates));
    if primary.Some? {
      assert NotBetter(l, primary.value);
      PreferenceByName(l.strategy, primary.value.strategy);
    }
  }
}
