/** Which parameters a program needs bound, and how that mirrors what the interpreter will look up. */
module Params {
  import opened Wrappers
  import opened Order
  import opened Text
  import opened Json
  import opened CacheTypes

  datatype ProgramStep = ProgramStep(stepIndex: int, rowId: Option<string>, action: Action, assertion: Json)

  datatype Program = Program(
    programId: string,
    siteKey: string,
    taskKey: string,
    testbedVersion: string,
    steps: seq<ProgramStep>,
    declared: Option<seq<string>>)

  // ---- derivation ----

  function OrElse<T>(a: Option<T>, b: Option<T>): Option<T> {
    if a.Some? then a else b
  }

  /** Hole names of an optional template. */
  function TemplateHoles(template: Option<string>): seq<string> {
    if template.Some? then HoleNames(template.value) else []
  }

  function Refs(a: Action): seq<string> {
    if a.paramRefs.Some? then a.paramRefs.value else []
  }

  function RequiredForAction(a: Action): seq<string> {
    match a.kind
    case Navigate => TemplateHoles(a.urlTemplate)
    case Press => TemplateHoles(a.key)
    case Fill => Refs(a)
    case Select => Refs(a)
    case _ => []
  }

  function Expected(assertion: Json, key: string): Option<string> {
    match Prop(assertion, "expected")
    case Some(e) => StrProp(e, key)
    case None => None
  }

  function Target(assertion: Json, key: string): Option<string> {
    match Prop(assertion, "target")
    case Some(e) => StrProp(e, key)
    case None => None
  }

  predicate HasTargetLocator(assertion: Json) {
    Prop(assertion, "target").Some? && Prop(Prop(assertion, "target").value, "locator").Some?
  }

  function RegexTemplate(assertion: Json): Option<string> {
    Expected(assertion, "regex_template")
  }

  /** The template used when there is no pattern; None for assertions that interpolate nothing. */
  function PlainTemplate(assertion: Json): Option<string> {
    match StrProp(assertion, "type")
    case Some("text-matches") => Expected(assertion, "template")
    case Some("url-matches") => OrElse(Target(assertion, "url_template"), Expected(assertion, "template"))
    case _ => None
  }

  predicate Templated(assertion: Json) {
    StrProp(assertion, "type") in {Some("text-matches"), Some("url-matches")}
  }

  function RequiredForAssertion(assertion: Json): seq<string> {
    if Templated(assertion) then TemplateHoles(OrElse(RegexTemplate(assertion), PlainTemplate(assertion))) else []
  }

  function RequiredForStep(step: ProgramStep): seq<string> {
    RequiredForAction(step.action) + RequiredForAssertion(step.assertion)
  }

  /** Everything `f` yields, step after step. */
  function Gather<S, T>(f: S -> seq<T>, steps: seq<S>): seq<T> {
    if |steps| == 0 then [] else Gather(f, steps[..|steps| - 1]) + f(steps[|steps| - 1])
  }

  lemma {:induction false} GatherMembers<S, T>(f: S -> seq<T>, steps: seq<S>, n: T)
    ensures n in Gather(f, steps) <==> exists i :: 0 <= i < |steps| && n in f(steps[i])
  {
    if |steps| > 0 {
      var last := |steps| - 1;
      GatherMembers(f, steps[..last], n);
      assert forall i | 0 <= i < last :: steps[..last][i] == steps[i];
    }
  }

  function StepNames(steps: seq<ProgramStep>): seq<string> {
    Gather(RequiredForStep, steps)
  }

  function Declared(p: Program): seq<string> {
    if p.declared.Some? then p.declared.value else []
  }

  function RequiredParams(p: Program): seq<string> {
    SortBy(Once(Declared(p) + StepNames(p.steps)), StrLe)
  }

  lemma AddNext(seen: seq<string>, more: seq<string>, i: nat)
    requires i < |more|
    ensures var names := Once(seen + more[..i]);
      Once(seen + more[..i + 1]) == if more[i] in names then names else names + [more[i]]
  {
    OnceStep(seen + more[..i], more[i]);
    assert seen + more[..i + 1] == seen + more[..i] + [more[i]];
  }

  method AddNames(names: seq<string>, more: seq<string>, ghost seen: seq<string>) returns (r: seq<string>)
    requires names == Once(seen)
    ensures r == Once(seen + more)
  {
    r := names;
    assert seen + more[..0] == seen;
    for i := 0 to |more|
      invariant r == Once(seen + more[..i])
    {
      AddNext(seen, more, i);
      if more[i] !in r {
        r := r + [more[i]];
      }
    }
    assert more[..|more|] == more;
  }

  lemma StepNamesNext(before: seq<string>, steps: seq<ProgramStep>, k: nat)
    requires k < |steps|
    ensures before + StepNames(steps[..k]) + RequiredForStep(steps[k]) == before + StepNames(steps[..k + 1])
  {
    var front, more := steps[..k + 1], RequiredForStep(steps[k]);
    assert front[..k] == steps[..k] && front[k] == steps[k];
    assert before + StepNames(steps[..k]) + more == before + (StepNames(steps[..k]) + more);
  }

  method CollectRequiredParams(p: Program) returns (r: seq<string>)
    ensures r == RequiredParams(p)
  {
    var declared := Declared(p);
    var names := AddNames([], declared, []);
    assert [] + declared == declared;
    ghost var seen := declared;
    for k := 0 to |p.steps|
      invariant seen == declared + StepNames(p.steps[..k]) && names == Once(seen)
    {
      var more := RequiredForStep(p.steps[k]);
      names := AddNames(names, more, seen);
      StepNamesNext(declared, p.steps, k);
      seen := seen + more;
    }
    assert p.steps[..|p.steps|] == p.steps;
    r := SortBy(names, StrLe);
  }

  ghost predicate NeededBy(steps: seq<ProgramStep>, n: string) {
    exists i :: 0 <= i < |steps| && Needs(steps[i], n)
  }

  predicate Needs(step: ProgramStep, n: string) {
    n in RequiredForStep(step)
  }

  lemma StepNamesMembers(steps: seq<ProgramStep>, n: string)
    ensures n in StepNames(steps) <==> NeededBy(steps, n)
  {
    GatherMembers(RequiredForStep, steps, n);
    if n in StepNames(steps) {
      var i :| 0 <= i < |steps| && n in RequiredForStep(steps[i]);
      assert Needs(steps[i], n);
    }
    if NeededBy(steps, n) {
      var i :| 0 <= i < |steps| && Needs(steps[i], n);
      assert n in RequiredForStep(steps[i]);
    }
  }

  /** The required names: exactly the declared and the needed ones, sorted, each once. */
  lemma RequiredParamsSpec(p: Program)
    ensures Sorted(RequiredParams(p), StrLe) && Distinct(RequiredParams(p))
    ensures forall n :: n in RequiredParams(p) <==> n in Declared(p) || NeededBy(p.steps, n)
  {
    var names := Once(Declared(p) + StepNames(p.steps));
    OnceMembers(Declared(p) + StepNames(p.steps));
    SortElements(names, StrLe);
    SameMembers(names, RequiredParams(p));
    DistinctStays(names, RequiredParams(p));
    StringsAreOrdered();
    SortSorts(names, StrLe, AllStrings());
    forall n ensures n in RequiredParams(p) <==> n in Declared(p) || NeededBy(p.steps, n) {
      StepNamesMembers(p.steps, n);
    }
  }

  // ---- the check before the run ----

  function Unbound(names: seq<string>, b: Bindings): (r: seq<string>)
    ensures forall n :: n in r <==> n in names && n !in b
  {
    if |names| == 0 then []
    else (if names[0] in b then [] else [names[0]]) + Unbound(names[1..], b)
  }

  function MissingParams(p: Program, b: Bindings): seq<string> {
    Unbound(RequiredParams(p), b)
  }

  method AssertParamsBound(p: Program, b: Bindings) returns (missing: seq<string>)
    ensures missing == MissingParams(p, b)
    ensures missing == [] <==> (forall n | n in Declared(p) || NeededBy(p.steps, n) :: n in b)
  {
    var names := CollectRequiredParams(p);
    RequiredParamsSpec(p);
    missing := Unbound(names, b);
    EmptyIffBound(names, b);
  }

  lemma EmptyIffBound(names: seq<string>, b: Bindings)
    ensures Unbound(names, b) == [] <==> forall n | n in names :: n in b
  {
    assert Unbound(names, b) != [] ==> Unbound(names, b)[0] in Unbound(names, b);
  }

  // ---- what the interpreter looks up ----

  function Truthy(s: Option<string>): seq<string> {
    if s.Some? && |s.value| > 0 then [s.value] else []
  }

  /** The templates `executeAction` fills. */
  function ActionTemplates(a: Action): seq<string> {
    match a.kind
    case Navigate => Truthy(a.urlTemplate)
    case Press => Truthy(a.key)
    case _ => []
  }

  /** The templates `evaluateAssertion` fills; text is only looked at when there is a locator to read it from. */
  function AssertionTemplates(assertion: Json): seq<string> {
    if !Templated(assertion) || (StrProp(assertion, "type") == Some("text-matches") && !HasTargetLocator(assertion)) then []
    else if Truthy(RegexTemplate(assertion)) != [] then Truthy(RegexTemplate(assertion))
    else Truthy(PlainTemplate(assertion))
  }

  function StepTemplates(step: ProgramStep): seq<string> {
    ActionTemplates(step.action) + AssertionTemplates(step.assertion)
  }

  /** `firstParam`: the value a fill or select types, or the path an upload sends. */
  function FirstParam(refs: seq<string>, b: Bindings): (r: Option<string>)
    ensures r.Some? <==> exists i :: 0 <= i < |refs| && refs[i] in b
  {
    if |refs| == 0 then None
    else if refs[0] in b then Some(b[refs[0]])
    else
      var rest := FirstParam(refs[1..], b);
      assert forall i | 0 < i < |refs| :: refs[i] == refs[1..][i - 1];
      assert rest.Some? ==> exists i :: 0 <= i < |refs[1..]| && refs[1..][i] in b && refs[i + 1] in b;
      rest
  }

  /** The actions `executeAction` refuses to perform without a bound value. */
  predicate TakesValue(a: Action) {
    a.kind == Fill || a.kind == ActionType.Select || a.kind == Upload
  }

  /** The first pass over the step fills every hole, and finds the value it types or the path it uploads. */
  ghost predicate FirstPassFilled(step: ProgramStep, b: Bindings) {
    && (forall t | t in StepTemplates(step) :: AllBound(t, b))
    && (TakesValue(step.action) ==> FirstParam(Refs(step.action), b).Some?)
  }

  /**
   * Holes the check does not see: with an empty `regex_template` the derivation stops at it and the evaluator does
   * not.
   */
  function Overlooked(step: ProgramStep): seq<string> {
    if RegexTemplate(step.assertion) == Some("") && AssertionTemplates(step.assertion) != []
    then HoleNames(AssertionTemplates(step.assertion)[0]) else []
  }

  lemma ActionLookedUp(a: Action, t: string, n: string)
    requires t in ActionTemplates(a) && n in HoleNames(t)
    ensures n in RequiredForAction(a)
  {
  }

  lemma AssertionLookedUp(step: ProgramStep, t: string, n: string)
    requires t in AssertionTemplates(step.assertion) && n in HoleNames(t)
    ensures n in RequiredForAssertion(step.assertion) || n in Overlooked(step)
  {
  }

  lemma LookedUp(step: ProgramStep, t: string, n: string)
    requires t in StepTemplates(step) && n in HoleNames(t)
    ensures n in RequiredForStep(step) || n in Overlooked(step)
  {
    if t in ActionTemplates(step.action) {
      ActionLookedUp(step.action, t, n);
    } else {
      AssertionLookedUp(step, t, n);
    }
  }

  lemma OverlookedIsLookedUp(step: ProgramStep, n: string)
    requires n in Overlooked(step)
    ensures exists t :: t in StepTemplates(step) && n in HoleNames(t)
  {
    var t := AssertionTemplates(step.assertion)[0];
    assert t in StepTemplates(step);
  }

  ghost predicate Bound(p: Program, b: Bindings) {
    MissingParams(p, b) == []
  }

  ghost predicate Covers(p: Program) {
    forall b :: Bound(p, b) ==> forall i | 0 <= i < |p.steps| :: FirstPassFilled(p.steps[i], b)
  }

  predicate NothingOverlooked(p: Program) {
    forall i | 0 <= i < |p.steps| :: forall n | n in Overlooked(p.steps[i]) :: n in RequiredParams(p)
  }

  /** A step that takes a value names a parameter the program requires. For a fill or select, naming any will do. */
  predicate NamesItsValue(a: Action, required: seq<string>) {
    match a.kind
    case Fill => Refs(a) != []
    case Select => Refs(a) != []
    case Upload => exists n | n in Refs(a) :: n in required
    case _ => true
  }

  predicate ValuesNamed(p: Program) {
    forall i | 0 <= i < |p.steps| :: NamesItsValue(p.steps[i].action, RequiredParams(p))
  }

  /** Bindings for exactly the given names. */
  function Exactly(names: seq<string>): (b: Bindings)
    ensures forall n :: n in b <==> n in names
  {
    map n | n in names :: ""
  }

  /**
   * Passing the check guarantees that no first pass leaves a hole unfilled or a value missing, for every set of
   * bindings, exactly when no empty `regex_template` hides a hole that nothing else requires, every fill and select
   * names a parameter, and every upload names one that something else requires.
   */
  lemma PreflightCoversIff(p: Program)
    ensures Covers(p) <==> NothingOverlooked(p) && ValuesNamed(p)
  {
    if NothingOverlooked(p) && ValuesNamed(p) {
      forall b, i | Bound(p, b) && 0 <= i < |p.steps| ensures FirstPassFilled(p.steps[i], b) {
        EmptyIffBound(RequiredParams(p), b);
        StepCovered(p, i, b);
      }
    } else {
      var b := Exactly(RequiredParams(p));
      EmptyIffBound(RequiredParams(p), b);
      assert Bound(p, b);
      if !NothingOverlooked(p) {
        var i, n :| 0 <= i < |p.steps| && n in Overlooked(p.steps[i]) && n !in RequiredParams(p);
        OverlookedIsLookedUp(p.steps[i], n);
        assert !FirstPassFilled(p.steps[i], b);
      } else {
        var i :| 0 <= i < |p.steps| && !NamesItsValue(p.steps[i].action, RequiredParams(p));
        assert !FirstPassFilled(p.steps[i], b);
      }
    }
  }

  lemma RequiredOfStep(p: Program, i: nat, n: string)
    requires i < |p.steps| && n in RequiredForStep(p.steps[i])
    ensures n in RequiredParams(p)
  {
    RequiredParamsSpec(p);
    assert Needs(p.steps[i], n) && NeededBy(p.steps, n);
  }

  lemma StepCovered(p: Program, i: nat, b: Bindings)
    requires i < |p.steps| && (forall n | n in RequiredParams(p) :: n in b)
    requires forall n | n in Overlooked(p.steps[i]) :: n in RequiredParams(p)
    requires NamesItsValue(p.steps[i].action, RequiredParams(p))
    ensures FirstPassFilled(p.steps[i], b)
  {
    var step := p.steps[i];
    forall t, n | t in StepTemplates(step) && n in HoleNames(t) ensures n in b {
      LookedUp(step, t, n);
      if n in RequiredForStep(step) {
        RequiredOfStep(p, i, n);
      }
    }
    if step.action.kind == Fill || step.action.kind == ActionType.Select {
      var n := Refs(step.action)[0];
      RequiredOfStep(p, i, n);
      assert Refs(step.action)[0] in b;
    } else if step.action.kind == Upload {
      var n :| n in Refs(step.action) && n in RequiredParams(p);
      var k :| 0 <= k < |Refs(step.action)| && Refs(step.action)[k] == n;
      assert Refs(step.action)[k] in b;
    }
  }

  /** An upload of one file, with nothing to check after it. */
  const UPLOAD_STEP := ProgramStep(0, None, Action(Upload, Some(["f"]), None, None, None, None, []), Null)

  lemma UploadNeedsNothing()
    ensures RequiredForStep(UPLOAD_STEP) == [] && Overlooked(UPLOAD_STEP) == []
  {
  }

  lemma UploadHasNoFile()
    ensures !FirstPassFilled(UPLOAD_STEP, map[])
  {
    assert FirstParam(["f"], map[]).None?;
  }

  /** An upload's parameter is not required: a program that uploads a file passes the check with nothing bound. */
  lemma UploadSlipsThrough(p: Program)
    requires p.steps == [UPLOAD_STEP] && p.declared == None
    ensures Bound(p, map[]) && NothingOverlooked(p) && !FirstPassFilled(p.steps[0], map[])
  {
    RequiredParamsSpec(p);
    UploadNeedsNothing();
    UploadHasNoFile();
    EmptyIffBound(RequiredParams(p), map[]);
    assert p.steps[0] == UPLOAD_STEP && forall n :: !NeededBy(p.steps, n);
  }

  /** Nothing is required in vain: each name a step requires is looked up in one of its templates, or is a value it types. */
  lemma RequiredIsLookedUp(step: ProgramStep, n: string)
    requires n in RequiredForStep(step)
    requires StrProp(step.assertion, "type") == Some("text-matches") ==> HasTargetLocator(step.assertion)
    ensures (exists t :: t in StepTemplates(step) && n in HoleNames(t)) || (TakesValue(step.action) && n in Refs(step.action))
  {
    assert HoleNames("") == [];
    if n in RequiredForAction(step.action) && !TakesValue(step.action) {
      var t := ActionTemplates(step.action)[0];
      assert t in StepTemplates(step);
    } else if n in RequiredForAssertion(step.assertion) {
      var t := AssertionTemplates(step.assertion)[0];
      assert t in StepTemplates(step);
    }
  }

  // ---- what a step needs and fills, read from its action and its assertion ----

  function TextAt(assertion: Json, part: string, key: string): Option<string> {
    match Prop(assertion, part)
    case Some(found) => StrProp(found, key)
    case None => None
  }

  predicate HoleIn(template: Option<string>, n: string) {
    template.Some? && n in HoleNames(template.value)
  }

  /** The text an assertion is checked against when no pattern is given. */
  function PlainText(assertion: Json): Option<string> {
    if StrProp(assertion, "type") == Some("url-matches") && TextAt(assertion, "target", "url_template").Some?
    then TextAt(assertion, "target", "url_template")
    else TextAt(assertion, "expected", "template")
  }

  predicate ChecksText(assertion: Json) {
    StrProp(assertion, "type") == Some("text-matches") || StrProp(assertion, "type") == Some("url-matches")
  }

  /** The names a step needs bound: holes of a page, a key or a text it checks, and the parameters it types or chooses. */
  lemma NeedsIff(step: ProgramStep, n: string)
    ensures var a, pattern := step.action, TextAt(step.assertion, "expected", "regex_template");
      Needs(step, n) <==>
        || (a.kind == Navigate && HoleIn(a.urlTemplate, n))
        || (a.kind == Press && HoleIn(a.key, n))
        || ((a.kind == Fill || a.kind == ActionType.Select) && a.paramRefs.Some? && n in a.paramRefs.value)
        || (ChecksText(step.assertion) && HoleIn(if pattern.Some? then pattern else PlainText(step.assertion), n))
  {
  }

  lemma ActionFillsIff(a: Action, t: string)
    ensures t in ActionTemplates(a) <==>
      |t| > 0 && ((a.kind == Navigate && a.urlTemplate == Some(t)) || (a.kind == Press && a.key == Some(t)))
  {
  }

  lemma AssertionFillsIff(assertion: Json, t: string)
    ensures var pattern := TextAt(assertion, "expected", "regex_template");
      t in AssertionTemplates(assertion) <==>
        && |t| > 0 && ChecksText(assertion)
        && (StrProp(assertion, "type") == Some("text-matches") ==>
              Prop(assertion, "target").Some? && Prop(Prop(assertion, "target").value, "locator").Some?)
        && (if pattern.Some? && |pattern.value| > 0 then pattern else PlainText(assertion)) == Some(t)
  {
  }

  /** The templates a first pass fills: an empty one is none, and a text is only looked for in a control that is named. */
  lemma FillsIff(step: ProgramStep, t: string)
    ensures var a, pattern := step.action, TextAt(step.assertion, "expected", "regex_template");
      t in StepTemplates(step) <==>
        && |t| > 0
        && (|| (a.kind == Navigate && a.urlTemplate == Some(t))
            || (a.kind == Press && a.key == Some(t))
            || (&& ChecksText(step.assertion)
                && (StrProp(step.assertion, "type") == Some("text-matches") ==>
                      Prop(step.assertion, "target").Some? && Prop(Prop(step.assertion, "target").value, "locator").Some?)
                && (if pattern.Some? && |pattern.value| > 0 then pattern else PlainText(step.assertion)) == Some(t)))
  {
    ActionFillsIff(step.action, t);
    AssertionFillsIff(step.assertion, t);
  }
}
