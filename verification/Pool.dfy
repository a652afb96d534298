/** The compiler's pre-check of pool eligibility, which must never be looser than the write-time authority. */
module Pool {
  import opened Wrappers
  import opened Text
  import opened Json
  import opened CacheTypes
  import opened Taint
  import opened Literals
  import opened Write

  /** The pattern matchers the heuristics use. Nothing below depends on what they match. */
  datatype Heuristics = Heuristics(
    email: string -> bool,
    uuid: string -> bool,
    secret: string -> bool,
    opaqueId: string -> bool,
    mentions: (seq<string>, string) -> bool)

  function LowerChar(c: char): char {
    if 'A' <= c <= 'Z' then (c as int + 32) as char else c
  }

  function Lower(s: string): (r: string)
    ensures |r| == |s| && forall i | 0 <= i < |s| :: r[i] == LowerChar(s[i])
  {
    seq(|s|, i requires 0 <= i < |s| => LowerChar(s[i]))
  }

  const CHROME_ALLOWLIST: set<string> := {
    "username", "password", "email", "sign in", "log in", "login", "submit", "save", "cancel", "next", "back",
    "search", "dashboards", "home", "settings", "grafana"
  }

  /** `^[a-z][a-z0-9-]{0,40}$` on lower-cased text. */
  predicate IsSlug(s: string) {
    1 <= |s| <= 41 && 'a' <= s[0] <= 'z' && forall i | 0 <= i < |s| :: 'a' <= s[i] <= 'z' || '0' <= s[i] <= '9' || s[i] == '-'
  }

  predicate IsChromeLabel(h: Heuristics, value: string) {
    var t := Lower(Trim(value));
    t in CHROME_ALLOWLIST || (IsSlug(t) && !h.opaqueId(t))
  }

  predicate HasHoles(value: string) {
    HoleNames(value) != []
  }

  function Words(s: string): nat
    decreases |s|
  {
    if |s| == 0 then 0
    else if IsSpace(s[0]) then Words(s[1..])
    else 1 + Words(AfterWord(s))
  }

  function AfterWord(s: string): (r: string)
    ensures |s| > 0 && !IsSpace(s[0]) ==> |r| < |s|
    ensures |r| <= |s|
  {
    if |s| == 0 || IsSpace(s[0]) then s else AfterWord(s[1..])
  }

  predicate LooksLikeTenantLiteral(h: Heuristics, value: string) {
    if |Trim(value)| == 0 then false
    else if HasHoles(value) then
      var probe := StripHoles(value);
      h.email(probe) || h.uuid(probe) || h.secret(probe)
    else if h.email(value) || h.uuid(value) || h.secret(value) then true
    else if h.opaqueId(value) && |value| >= 16 then true
    else if IsChromeLabel(h, value) then false
    else Words(Trim(value)) >= 3
  }

  predicate LooksLikeTenantSelector(h: Heuristics, value: string) {
    if |Trim(value)| == 0 then false
    else
      var probe := if HasHoles(value) then StripHoles(value) else value;
      h.email(probe) || h.uuid(probe) || h.secret(probe) || h.opaqueId(probe)
  }

  const SELECTOR_KEYS: set<string> := {"structural_path", "css", "count_scope"}

  /** String leaves with the key they were found under. */
  function CollectStringEntries(j: Json, key: string): seq<(string, string)>
    decreases j, 1
  {
    match j
    case Str(s) => [(key, s)]
    case Arr(items) => CollectItems(items, key)
    case Obj(fs) => CollectFields(fs)
    case _ => []
  }

  function CollectItems(items: seq<Json>, key: string): seq<(string, string)>
    decreases items, 0
  {
    if |items| == 0 then [] else CollectStringEntries(items[0], key) + CollectItems(items[1..], key)
  }

  function CollectFields(fs: seq<Field>): seq<(string, string)>
    decreases fs, 0
  {
    if |fs| == 0 then [] else CollectStringEntries(fs[0].value, fs[0].key) + CollectFields(fs[1..])
  }

  predicate EntryTainted(h: Heuristics, entry: (string, string)) {
    if entry.0 in SELECTOR_KEYS then LooksLikeTenantSelector(h, entry.1) else LooksLikeTenantLiteral(h, entry.1)
  }

  predicate PrecheckTemplateLiteral(h: Heuristics, assertion: Json) {
    match ExpectedTemplate(assertion)
    case Some(t) => |Residue(t)| > 0 && !IsChromeLabel(h, Residue(t)) && !IsChromeLabel(h, t)
    case None => false
  }

  /** The compiler's mirror of the authority's literal check. */
  predicate PrecheckLiteral(v: Vocabulary, h: Heuristics, assertion: Json) {
    || PrecheckTemplateLiteral(h, assertion)
    || TargetTainted(v, assertion)
    || var payload := Obj(Present([("target", Prop(assertion, "target")), ("expected", Prop(assertion, "expected"))]));
       exists entry | entry in CollectStringEntries(payload, "") :: EntryTainted(h, entry)
  }

  /** The schema-visible reason for the first taint found. */
  function MapReason(t: TaintReason): Reason {
    match t
    case NonVocabRoleName => NonVocabRole
    case NonVocabTestId => TaintedAttribute
    case NonVocabAttr => TaintedAttribute
    case StructuralFreeText => TaintedAttribute
    case _ => TenantLocatorText
  }

  function AllReasons(v: Vocabulary, chain: seq<Locator>): seq<TaintReason> {
    if |chain| == 0 then [] else CheckTaint(v, chain[0]) + AllReasons(v, chain[1..])
  }

  /** None when the row may be pooled, otherwise why not. */
  function DecidePoolEligibility(v: Vocabulary, h: Heuristics, chain: seq<Locator>, assertion: Json, hasTopology: bool): Option<Reason> {
    if PrecheckLiteral(v, h, assertion) then Some(LiteralInAssertion)
    else if exists i | 0 <= i < |chain| :: CheckTaint(v, chain[i]) == [] then None
    else if hasTopology then None
    else if AllReasons(v, chain) != [] then Some(MapReason(AllReasons(v, chain)[0]))
    else Some(if |chain| == 0 then TopologyOnlyDegraded else Other)
  }

  lemma {:induction false} SomeCleanLocator(p: Policy, chain: seq<Locator>)
    ensures |PoolSafe(p, chain)| > 0 <==> exists i :: 0 <= i < |chain| && !p.Tainted(chain[i])
  {
    if |chain| > 0 {
      SomeCleanLocator(p, chain[..|chain| - 1]);
    }
  }

  /** On the chain and the target locator the pre-check and the authority agree exactly; only literals can separate them. */
  lemma PrecheckAgreesUpToLiterals(v: Vocabulary, h: Heuristics, body: Body)
    ensures DecidePoolEligibility(v, h, body.action.chain, body.assertion, body.topology.Some?).None?
      <==> (!PrecheckLiteral(v, h, body.assertion)
            && (|PoolSafe(DefaultPolicy(v), body.action.chain)| > 0 || body.topology.Some?))
  {
    SomeCleanLocator(DefaultPolicy(v), body.action.chain);
    var p := DefaultPolicy(v);
    assert forall i | 0 <= i < |body.action.chain| :: p.Tainted(body.action.chain[i]) <==> CheckTaint(v, body.action.chain[i]) != [];
  }

  /** A row the pre-check calls eligible is refused by the authority exactly when one of two literal tests differs. */
  lemma LooserIff(v: Vocabulary, h: Heuristics, body: Body)
    requires DecidePoolEligibility(v, h, body.action.chain, body.assertion, body.topology.Some?).None?
    ensures WriteCacheRow(DefaultPolicy(v), Candidate(body, Some(true))).Err?
      <==> TemplateLiteral(v, body.assertion) || EmailLiteral(body.assertion)
  {
    var p := DefaultPolicy(v);
    DefaultIsLawful(v);
    PrecheckAgreesUpToLiterals(v, h, body);
    RefusedIffOverclaimed(p, Candidate(body, Some(true)));
    PoolRowBuilt(p, Candidate(body, Some(true)));
  }

  // ---- the two template tests ----

  lemma {:induction false} ColonStays(s: string)
    requires ':' in s
    ensures ':' in StripHoles(s)
    decreases |s|
  {
    match HoleAt(s)
    case None =>
      if s[0] != ':' {
        assert s == [s[0]] + s[1..];
        ColonStays(s[1..]);
      }
    case Some(h) =>
      SplitHole(s);
      var rest := s[|h| + 2..];
      assert ':' !in Hole(h) by {
        assert forall i | 0 <= i < |h| :: IsIdentChar(h[i]);
      }
      ColonStays(rest);
  }

  lemma {:induction false} ColonSurvivesStart(s: string)
    requires ':' in s
    ensures ':' in TrimStart(s)
  {
    if IsSpace(s[0]) {
      assert s == [s[0]] + s[1..];
      ColonSurvivesStart(s[1..]);
    }
  }

  lemma {:induction false} ColonSurvivesEnd(s: string)
    requires ':' in s
    ensures ':' in TrimEnd(s)
  {
    if IsSpace(s[|s| - 1]) {
      assert s == s[..|s| - 1] + [s[|s| - 1]];
      ColonSurvivesEnd(s[..|s| - 1]);
    }
  }

  lemma ColonIsNoLabel(h: Heuristics, value: string)
    requires ':' in value
    ensures !IsChromeLabel(h, value)
  {
    ColonSurvivesStart(value);
    ColonSurvivesEnd(TrimStart(value));
    var t := Trim(value);
    var i :| 0 <= i < |t| && t[i] == ':';
    assert Lower(t)[i] == ':';
    NoColonInAllowlist(Lower(t), i);
  }

  lemma NoColonInAllowlist(t: string, i: nat)
    requires i < |t| && t[i] == ':'
    ensures t !in CHROME_ALLOWLIST
  {
  }

  /** A template with a colon outside its holes, as every absolute URL has, never passes the pre-check. */
  lemma ColonFailsPrecheck(h: Heuristics, assertion: Json)
    requires ExpectedTemplate(assertion).Some? && ':' in ExpectedTemplate(assertion).value
    ensures PrecheckTemplateLiteral(h, assertion)
  {
    var t := ExpectedTemplate(assertion).value;
    ColonStays(t);
    ColonSurvivesStart(StripHoles(t));
    ColonSurvivesEnd(TrimStart(StripHoles(t)));
    ColonIsNoLabel(h, Residue(t));
    ColonIsNoLabel(h, t);
  }

  lemma HoleHasNoResidue(name: string)
    requires IsIdent(name)
    ensures Residue(Hole(name)) == ""
  {
    HoleAtFinds(Hole(name), name);
    assert Hole(name)[|name| + 2..] == "";
    assert StripHoles(Hole(name)) == "";
  }

  lemma {:induction false} NoAtSign(s: string)
    requires '@' !in s
    ensures '@' !in StripBraced(s)
    decreases |s|
  {
    if |s| > 0 {
      if s[0] == '{' && IndexOf(s, '}').Some? && IndexOf(s, '}').value > 1 {
        NoAtSign(s[IndexOf(s, '}').value + 1..]);
      } else {
        NoAtSign(s[1..]);
        assert s[0] in s;
      }
    }
  }

  lemma NoAtSignNoEmail(assertion: Json)
    requires '@' !in Print(assertion, false, 0)
    ensures !EmailLiteral(assertion)
  {
    NoAtSign(Print(assertion, false, 0));
  }

  // ---- the heuristics, said of the text ----

  /** How many words begin: a character that is no blank, at the front or after a blank. */
  function WordStarts(s: string, afterBlank: bool): nat {
    if |s| == 0 then 0
    else (if afterBlank && !IsSpace(s[0]) then 1 else 0) + WordStarts(s[1..], IsSpace(s[0]))
  }

  lemma {:induction false} RestOfWord(s: string)
    ensures WordStarts(s, false) == WordStarts(AfterWord(s), true)
  {
    if |s| > 0 && !IsSpace(s[0]) {
      RestOfWord(s[1..]);
    }
  }

  lemma {:induction false} WordsAreStarts(s: string)
    ensures Words(s) == WordStarts(s, true)
    decreases |s|
  {
    if |s| > 0 {
      if IsSpace(s[0]) {
        WordsAreStarts(s[1..]);
      } else {
        RestOfWord(s[1..]);
        WordsAreStarts(AfterWord(s));
      }
    }
  }

  lemma TrimmedAwayIff(s: string)
    ensures |Trim(s)| == 0 <==> Blanks(s)
  {
    var left, right := TrimLeaves(s);
    if |Trim(s)| > 0 {
      assert Trim(s)[0] in s;
    }
  }

  /** A word of the product's own: listed, or one lower-case slug of at most forty-one characters that is no opaque id. */
  ghost predicate ProductWord(h: Heuristics, value: string) {
    var t := Lower(Trim(value));
    || t in CHROME_ALLOWLIST
    || (&& 0 < |t| < 42 && 97 <= t[0] as int <= 122 && !h.opaqueId(t)
        && forall c | c in t :: 97 <= c as int <= 122 || 48 <= c as int <= 57 || c == '-')
  }

  /** Lower-casing, by character code. */
  lemma LowerSays(c: char)
    ensures LowerChar(c) == if 65 <= c as int <= 90 then (c as int + 32) as char else c
  {
  }

  lemma SlugIff(t: string)
    ensures IsSlug(t) <==>
      0 < |t| < 42 && 97 <= t[0] as int <= 122 && forall c | c in t :: 97 <= c as int <= 122 || 48 <= c as int <= 57 || c == '-'
  {
    if forall c | c in t :: 97 <= c as int <= 122 || 48 <= c as int <= 57 || c == '-' {
      forall i | 0 <= i < |t| ensures 'a' <= t[i] <= 'z' || '0' <= t[i] <= '9' || t[i] == '-' {
        assert t[i] in t;
      }
    }
  }

  lemma LabelIsProductWord(h: Heuristics, value: string)
    ensures IsChromeLabel(h, value) <==> ProductWord(h, value)
  {
    SlugIff(Lower(Trim(value)));
  }

  /** Recognisable personal data always counts; an opaque id if long enough; prose from three words on, unless it is the product's. */
  lemma LiteralSays(h: Heuristics, value: string)
    ensures LooksLikeTenantLiteral(h, value) <==>
      && !Blanks(value)
      && (if HoleNames(value) != [] then
            h.email(StripHoles(value)) || h.uuid(StripHoles(value)) || h.secret(StripHoles(value))
          else
            || h.email(value) || h.uuid(value) || h.secret(value) || (|value| >= 16 && h.opaqueId(value))
            || (!ProductWord(h, value) && WordStarts(Trim(value), true) > 2))
  {
    TrimmedAwayIff(value);
    WordsAreStarts(Trim(value));
    LabelIsProductWord(h, value);
  }

  /** A selector is no prose, so only recognisable data counts in it. */
  lemma SelectorSays(h: Heuristics, value: string)
    ensures LooksLikeTenantSelector(h, value) <==>
      && !Blanks(value)
      && var probe := if HoleNames(value) != [] then StripHoles(value) else value;
        h.email(probe) || h.uuid(probe) || h.secret(probe) || h.opaqueId(probe)
  {
    TrimmedAwayIff(value);
  }

  /** The text stands somewhere in the tree, `key` being the property it was found under. */
  ghost predicate Shows(j: Json, under: string, key: string, text: string)
    decreases j
  {
    match j
    case Str(s) => key == under && text == s
    case Arr(items) => exists i :: 0 <= i < |items| && Shows(items[i], under, key, text)
    case Obj(fs) => exists i :: 0 <= i < |fs| && Shows(fs[i].value, fs[i].key, key, text)
    case _ => false
  }

  lemma {:induction false} EntriesIff(j: Json, under: string, key: string, text: string)
    ensures (key, text) in CollectStringEntries(j, under) <==> Shows(j, under, key, text)
    decreases j, 1
  {
    match j
    case Arr(items) => ItemsIff(items, under, key, text);
    case Obj(fs) => FieldsIff(fs, key, text);
    case _ =>
  }

  lemma {:induction false} ItemsIff(items: seq<Json>, under: string, key: string, text: string)
    ensures (key, text) in CollectItems(items, under) <==> exists i :: 0 <= i < |items| && Shows(items[i], under, key, text)
    decreases items, 0
  {
    if |items| > 0 {
      EntriesIff(items[0], under, key, text);
      ItemsIff(items[1..], under, key, text);
      if exists i :: 0 <= i < |items[1..]| && Shows(items[1..][i], under, key, text) {
        var i :| 0 <= i < |items[1..]| && Shows(items[1..][i], under, key, text);
        assert items[i + 1] == items[1..][i];
      }
      forall i | 0 < i < |items| && Shows(items[i], under, key, text)
        ensures exists k :: 0 <= k < |items[1..]| && Shows(items[1..][k], under, key, text)
      {
        assert items[1..][i - 1] == items[i];
      }
    }
  }

  lemma {:induction false} FieldsIff(fs: seq<Field>, key: string, text: string)
    ensures (key, text) in CollectFields(fs) <==> exists i :: 0 <= i < |fs| && Shows(fs[i].value, fs[i].key, key, text)
    decreases fs, 0
  {
    if |fs| > 0 {
      EntriesIff(fs[0].value, fs[0].key, key, text);
      FieldsIff(fs[1..], key, text);
      if exists i :: 0 <= i < |fs[1..]| && Shows(fs[1..][i].value, fs[1..][i].key, key, text) {
        var i :| 0 <= i < |fs[1..]| && Shows(fs[1..][i].value, fs[1..][i].key, key, text);
        assert fs[i + 1] == fs[1..][i];
      }
      forall i | 0 < i < |fs| && Shows(fs[i].value, fs[i].key, key, text)
        ensures exists k :: 0 <= k < |fs[1..]| && Shows(fs[1..][k].value, fs[1..][k].key, key, text)
      {
        assert fs[1..][i - 1] == fs[i];
      }
    }
  }

  /** Some text of the assertion's target or expectation looks like a tenant's. */
  ghost predicate ShowsTenantText(h: Heuristics, assertion: Json, part: string) {
    exists key, text :: Prop(assertion, part).Some? && Shows(Prop(assertion, part).value, part, key, text)
      && (if key in {"structural_path", "css", "count_scope"} then LooksLikeTenantSelector(h, text) else LooksLikeTenantLiteral(h, text))
  }

  lemma PayloadShows(target: Option<Json>, expected: Option<Json>, key: string, text: string)
    ensures Shows(Obj(Present([("target", target), ("expected", expected)])), "", key, text) <==>
      (target.Some? && Shows(target.value, "target", key, text)) || (expected.Some? && Shows(expected.value, "expected", key, text))
  {
    var pairs := [("target", target), ("expected", expected)];
    assert pairs[1..] == [("expected", expected)] && pairs[1..][1..] == [] && Present(pairs[1..][1..]) == [];
    assert Present(pairs[1..]) == if expected.Some? then [Field("expected", expected.value)] else [];
    var fs := Present(pairs);
    assert fs == (if target.Some? then [Field("target", target.value)] else [])
      + (if expected.Some? then [Field("expected", expected.value)] else []);
    if target.Some? {
      assert fs[0] == Field("target", target.value);
    }
    if expected.Some? {
      assert fs[|fs| - 1] == Field("expected", expected.value);
    }
  }

  lemma SelectorKeysAre(key: string)
    ensures key in SELECTOR_KEYS <==> key in {"structural_path", "css", "count_scope"}
  {
  }

  lemma EntriesSay(h: Heuristics, assertion: Json)
    ensures var payload := Obj(Present([("target", Prop(assertion, "target")), ("expected", Prop(assertion, "expected"))]));
      (exists entry | entry in CollectStringEntries(payload, "") :: EntryTainted(h, entry))
        <==> ShowsTenantText(h, assertion, "target") || ShowsTenantText(h, assertion, "expected")
  {
    var target, expected := Prop(assertion, "target"), Prop(assertion, "expected");
    var payload := Obj(Present([("target", target), ("expected", expected)]));
    forall key, text
      ensures (key, text) in CollectStringEntries(payload, "") <==>
        (target.Some? && Shows(target.value, "target", key, text)) || (expected.Some? && Shows(expected.value, "expected", key, text))
    {
      EntriesIff(payload, "", key, text);
      PayloadShows(target, expected, key, text);
    }
    forall key, text
      ensures EntryTainted(h, (key, text)) ==
        (if key in {"structural_path", "css", "count_scope"} then LooksLikeTenantSelector(h, text) else LooksLikeTenantLiteral(h, text))
    {
      SelectorKeysAre(key);
    }
    if exists entry | entry in CollectStringEntries(payload, "") :: EntryTainted(h, entry) {
      var entry :| entry in CollectStringEntries(payload, "") && EntryTainted(h, entry);
      assert entry == (entry.0, entry.1);
    }
    if ShowsTenantText(h, assertion, "target") {
      var key, text :| Prop(assertion, "target").Some? && Shows(Prop(assertion, "target").value, "target", key, text)
        && (if key in {"structural_path", "css", "count_scope"} then LooksLikeTenantSelector(h, text) else LooksLikeTenantLiteral(h, text));
      assert (key, text) in CollectStringEntries(payload, "");
    }
    if ShowsTenantText(h, assertion, "expected") {
      var key, text :| Prop(assertion, "expected").Some? && Shows(Prop(assertion, "expected").value, "expected", key, text)
        && (if key in {"structural_path", "css", "count_scope"} then LooksLikeTenantSelector(h, text) else LooksLikeTenantLiteral(h, text));
      assert (key, text) in CollectStringEntries(payload, "");
    }
  }

  /**
   * The pre-check finds a literal if and only if the expected text is more than the product's words, the target may not
   * be shared, or some text anywhere in the two looks like a tenant's.
   */
  lemma PrecheckLiteralIff(v: Vocabulary, h: Heuristics, assertion: Json)
    ensures PrecheckLiteral(v, h, assertion) <==>
      || (exists t :: Expects(assertion, t) && |Trim(StripHoles(t))| > 0
                      && !ProductWord(h, Trim(StripHoles(t))) && !ProductWord(h, t))
      || (exists loc :: Targets(assertion, loc) && loc.strategy != TopologyOnly && !Shared(v, loc))
      || ShowsTenantText(h, assertion, "target") || ShowsTenantText(h, assertion, "expected")
  {
    TargetIff(v, assertion);
    EntriesSay(h, assertion);
    if ExpectedTemplate(assertion).Some? {
      var t := ExpectedTemplate(assertion).value;
      assert Expects(assertion, t);
      LabelIsProductWord(h, t);
      LabelIsProductWord(h, Residue(t));
    }
  }

  lemma FirstReason(v: Vocabulary, chain: seq<Locator>)
    ensures AllReasons(v, chain) == [] <==> forall i | 0 <= i < |chain| :: CheckTaint(v, chain[i]) == []
    ensures |chain| > 0 && CheckTaint(v, chain[0]) != [] ==>
      AllReasons(v, chain) != [] && AllReasons(v, chain)[0] == CheckTaint(v, chain[0])[0]
  {
    NoReasons(v, chain);
  }

  lemma {:induction false} NoReasons(v: Vocabulary, chain: seq<Locator>)
    ensures AllReasons(v, chain) == [] <==> forall i | 0 <= i < |chain| :: CheckTaint(v, chain[i]) == []
  {
    if |chain| > 0 {
      NoReasons(v, chain[1..]);
      assert forall i | 0 < i < |chain| :: chain[i] == chain[1..][i - 1];
    }
  }

  lemma MappedSays(t: TaintReason)
    ensures MapReason(t)
      == if t == NonVocabRoleName then NonVocabRole
         else if t in {NonVocabTestId, NonVocabAttr, StructuralFreeText} then TaintedAttribute
         else TenantLocatorText
    ensures MapReason(t) != LiteralInAssertion
  {
  }

  /** The verdict, from whether a literal was found, a locator is clean, and what the locators' reasons are. */
  function Verdict(literal: bool, clean: bool, hasTopology: bool, empty: bool, reasons: seq<TaintReason>): Option<Reason> {
    if literal then Some(LiteralInAssertion)
    else if clean || hasTopology then None
    else if reasons != [] then Some(MapReason(reasons[0]))
    else Some(if empty then TopologyOnlyDegraded else Other)
  }

  lemma DecidedByVerdict(v: Vocabulary, h: Heuristics, chain: seq<Locator>, assertion: Json, hasTopology: bool, clean: bool)
    requires clean == exists i :: 0 <= i < |chain| && CheckTaint(v, chain[i]) == []
    ensures DecidePoolEligibility(v, h, chain, assertion, hasTopology)
      == Verdict(PrecheckLiteral(v, h, assertion), clean, hasTopology, chain == [], AllReasons(v, chain))
  {
  }

  /** The verdict and its reason: a literal first, then the first locator's first taint, if nothing can stand for the step. */
  lemma PrecheckSays(v: Vocabulary, h: Heuristics, chain: seq<Locator>, assertion: Json, hasTopology: bool)
    ensures var verdict := DecidePoolEligibility(v, h, chain, assertion, hasTopology);
      && (verdict == Some(LiteralInAssertion) <==> PrecheckLiteral(v, h, assertion))
      && (verdict.None? <==>
            !PrecheckLiteral(v, h, assertion) && (hasTopology || exists i :: 0 <= i < |chain| && CheckTaint(v, chain[i]) == []))
      && (verdict.Some? && verdict != Some(LiteralInAssertion) ==>
            if chain == [] then verdict == Some(TopologyOnlyDegraded)
            else
              && CheckTaint(v, chain[0]) != []
              && var first := CheckTaint(v, chain[0])[0];
                verdict == Some(if first == NonVocabRoleName then NonVocabRole
                                else if first in {NonVocabTestId, NonVocabAttr, StructuralFreeText} then TaintedAttribute
                                else TenantLocatorText))
  {
    var clean := exists i :: 0 <= i < |chain| && CheckTaint(v, chain[i]) == [];
    DecidedByVerdict(v, h, chain, assertion, hasTopology, clean);
    FirstReason(v, chain);
    if AllReasons(v, chain) != [] {
      MappedSays(AllReasons(v, chain)[0]);
    }
  }
}
