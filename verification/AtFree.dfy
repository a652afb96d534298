/** Values without an `@` anywhere in their texts print without one, so no printed form of them holds an address. */
module AtFree {
  import opened Wrappers
  import opened Decimal
  import opened Text
  import opened UrlRegex
  import opened Json
  import opened CacheTypes
  import opened Synthesize

  predicate NoAt(s: string) { '@' !in s }

  predicate NoAtIn(s: Option<string>) { s.Some? ==> NoAt(s.value) }

  predicate Free(j: Json) {
    match j
    case Str(s) => NoAt(s)
    case Arr(items) => forall i | 0 <= i < |items| :: Free(items[i])
    case Obj(fs) => forall i | 0 <= i < |fs| :: NoAt(fs[i].key) && Free(fs[i].value)
    case _ => true
  }

  lemma {:induction false} EscapeFree(s: string)
    requires NoAt(s)
    ensures NoAt(EscapeText(s))
  {
    if |s| > 0 {
      assert s[0] in s && forall c | c in s[1..] :: c in s;
      EscapeFree(s[1..]);
      assert NoAt(EscapeJson(s[0]));
    }
  }

  lemma NumberFree(n: int)
    ensures NoAt(IntText(n))
  {
    assert Digits(NatText(if n < 0 then -n else n));
  }

  lemma {:induction false} PrintFree(j: Json, pretty: bool, d: nat)
    requires Free(j)
    ensures NoAt(Print(j, pretty, d))
    decreases j, 1
  {
    match j
    case Num(n) => NumberFree(n);
    case Str(s) => EscapeFree(s);
    case Arr(items) =>
      if |items| > 0 {
        ItemsFree(items, pretty, d + 1);
        BreakFree(pretty, d + 1);
        BreakFree(pretty, d);
      }
    case Obj(fs) =>
      if |fs| > 0 {
        FieldsFree(fs, pretty, d + 1);
        BreakFree(pretty, d + 1);
        BreakFree(pretty, d);
      }
    case _ =>
  }

  lemma {:induction false} SpacesFree(n: nat)
    ensures NoAt(Spaces(n))
  {
    if n > 0 {
      SpacesFree(n - 1);
    }
  }

  lemma BreakFree(pretty: bool, d: nat)
    ensures NoAt(Break(pretty, d))
  {
    SpacesFree(2 * d);
  }

  lemma {:induction false} ItemsFree(items: seq<Json>, pretty: bool, d: nat)
    requires |items| > 0 && forall i | 0 <= i < |items| :: Free(items[i])
    ensures NoAt(PrintItems(items, pretty, d))
    decreases items, 0
  {
    PrintFree(items[0], pretty, d);
    if |items| > 1 {
      ItemsFree(items[1..], pretty, d);
      BreakFree(pretty, d);
    }
  }

  lemma {:induction false} FieldsFree(fs: seq<Field>, pretty: bool, d: nat)
    requires |fs| > 0 && forall i | 0 <= i < |fs| :: NoAt(fs[i].key) && Free(fs[i].value)
    ensures NoAt(PrintFields(fs, pretty, d))
    decreases fs, 0
  {
    EscapeFree(fs[0].key);
    PrintFree(fs[0].value, pretty, d);
    assert NoAt(PrintField(fs[0], pretty, d));
    if |fs| > 1 {
      FieldsFree(fs[1..], pretty, d);
      BreakFree(pretty, d);
    }
  }

  predicate PairFree(pair: (string, Option<Json>)) {
    NoAt(pair.0) && (pair.1.Some? ==> Free(pair.1.value))
  }

  lemma PresentFree(pairs: seq<(string, Option<Json>)>)
    requires forall i | 0 <= i < |pairs| :: PairFree(pairs[i])
    ensures Free(Obj(Present(pairs)))
  {
    var fs := Present(pairs);
    forall i | 0 <= i < |fs| ensures NoAt(fs[i].key) && Free(fs[i].value) {
      PresentFrom(pairs, i);
      var k :| 0 <= k < |pairs| && pairs[k].1.Some? && fs[i] == Field(pairs[k].0, pairs[k].1.value);
      assert PairFree(pairs[k]);
    }
  }

  // ---- the texts the compiler builds ----

  predicate LocatorFree(l: Locator) {
    && NoAtIn(l.role) && NoAtIn(l.name) && NoAtIn(l.labelText) && NoAtIn(l.testid)
    && NoAtIn(l.structuralPath) && NoAtIn(l.text) && NoAtIn(l.css)
  }

  lemma LocatorJsonFree(l: Locator)
    requires LocatorFree(l)
    ensures Free(LocatorJson(l))
  {
    LocatorNamesFree();
    StrategyNamesFree(l.strategy);
    var pairs := LocatorPairs(l);
    forall i | 0 <= i < |pairs| ensures PairFree(pairs[i]) {
      assert i == 0 || i == 1 || i == 2 || i == 3 || i == 4 || i == 5 || i == 6 || i == 7 || i == 8;
    }
    PresentFree(pairs);
  }

  lemma LocatorNamesFree()
    ensures NoAt("strategy") && NoAt("role") && NoAt("name") && NoAt("label") && NoAt("testid")
    ensures NoAt("structural_path") && NoAt("text") && NoAt("css") && NoAt("tenant_scoped")
  {
  }

  lemma StrategyNamesFree(s: Strategy)
    ensures NoAt(StrategyName(s))
  {
  }

  lemma {:induction false} HolesFree(s: string)
    ensures forall i | 0 <= i < |HoleNames(s)| :: NoAt(HoleNames(s)[i])
    decreases |s|
  {
    if |s| > 0 {
      match HoleAt(s)
      case Some(h) =>
        assert NoAt(h) by {
          assert forall i | 0 <= i < |h| :: IsIdentChar(h[i]);
        }
        HolesFree(s[|h| + 2..]);
      case None => HolesFree(s[1..]);
    }
  }

  lemma {:induction false} EscapedFree(s: string)
    requires NoAt(s)
    ensures NoAt(EscapeRegex(s))
  {
    if |s| > 0 {
      assert s[0] in s && forall c | c in s[1..] :: c in s;
      EscapedFree(s[1..]);
    }
  }

  lemma SuffixFree(t: string, i: nat)
    requires NoAt(t) && i <= |t|
    ensures NoAt(t[i..]) && (i < |t| ==> t[i] != '@')
  {
    assert forall c | c in t[i..] :: c in t;
  }

  lemma EscapeOneFree(c: char)
    requires c != '@'
    ensures NoAt(EscapeOne(c))
  {
  }

  lemma {:induction false} BodyFree(t: string)
    requires NoAt(t)
    ensures NoAt(RegexBody(t))
    decreases |t|
  {
    if |t| == 0 {
    } else if t[0] != '{' {
      SuffixFree(t, 0);
      SuffixFree(t, 1);
      EscapeOneFree(t[0]);
      BodyFree(t[1..]);
    } else if IndexOf(t, '}').None? {
      EscapedFree(t);
    } else {
      var end := IndexOf(t, '}').value;
      SuffixFree(t, end + 1);
      BodyFree(t[end + 1..]);
    }
  }

  lemma RegexFree(t: string)
    requires NoAt(t)
    ensures NoAt(TemplateRegex(t))
  {
    BodyFree(t);
  }

  lemma {:induction false} ParamTypesFree(names: seq<string>, parameters: map<string, string>)
    requires (forall i | 0 <= i < |names| :: NoAt(names[i])) && forall k | k in parameters :: NoAt(parameters[k])
    ensures Free(Obj(ParamTypes(names, parameters)))
  {
    if |names| > 0 {
      ParamTypesFree(names[..|names| - 1], parameters);
    }
  }

  lemma UrlExpectedFree(template: string, parameters: map<string, string>)
    requires NoAt(template) && forall k | k in parameters :: NoAt(parameters[k])
    ensures Free(UrlExpected(template, parameters))
  {
    RegexFree(template);
    HolesFree(template);
    ParamTypesFree(HoleNames(template), parameters);
    PresentFree([("template", Quoted(template)), ("regex_template", Quoted(TemplateRegex(template))),
                 ("param_types", ExtractParamTypes(template, parameters))]);
  }

  lemma HoleExpectedFree(first: seq<(string, Option<Json>)>, name: string, paramType: string, regex: Option<string>)
    requires NoAt(name) && NoAt(paramType) && NoAtIn(regex)
    requires forall i | 0 <= i < |first| :: PairFree(first[i])
    ensures Free(HoleExpected(first, name, paramType, regex))
  {
    assert NoAt(Hole(name)) && NoAt("template") && NoAt("param_types") && NoAt("regex_template");
    var types := Obj([Field(name, Str(paramType))]);
    assert Free(types);
    var pairs := first + [("template", Quoted(Hole(name))), ("param_types", Some(types)), ("regex_template", StrField(regex))];
    forall i | 0 <= i < |pairs| ensures PairFree(pairs[i]) {
      assert i < |first| || i == |first| || i == |first| + 1 || i == |first| + 2;
    }
    PresentFree(pairs);
  }

  lemma AssertionNamesFree()
    ensures NoAt("schema_version") && NoAt("assertion_id") && NoAt("type") && NoAt("strength") && NoAt("target")
    ensures NoAt("expected") && NoAt("timeout_ms") && NoAt("failure_classification") && NoAt(SCHEMA_VERSION)
  {
  }

  lemma MadeFree(
    id: string, kind: string, strength: string, target: Option<Json>, expected: Option<Json>, timeout: int, failure: string)
    requires NoAt(id) && NoAt(kind) && NoAt(strength) && NoAt(failure)
    requires (target.Some? ==> Free(target.value)) && (expected.Some? ==> Free(expected.value))
    ensures Free(MakeAssertion(id, kind, strength, target, expected, timeout, failure))
  {
    AssertionNamesFree();
    var pairs := AssertionPairs(id, kind, strength, target, expected, timeout, failure);
    forall i | 0 <= i < |pairs| ensures PairFree(pairs[i]) {
      assert i == 0 || i == 1 || i == 2 || i == 3 || i == 4 || i == 5 || i == 6 || i == 7;
    }
    PresentFree(pairs);
  }
}
