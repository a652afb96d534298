/** Which locators may leave a tenant: the named taint rules over a fixed vocabulary. */
module Taint {
  import opened Wrappers
  import opened Text
  import opened CacheTypes
  import opened Json

  /**
   * The pinned vocabulary sets and the two selector judges (CSS attributes, structural paths).
   * Nothing below depends on what they contain.
   */
  datatype Vocabulary = Vocabulary(
    chromeNames: set<string>,
    vendorNames: set<string>,
    vendorTestIds: set<string>,
    roles: set<string>,
    testIds: set<string>,
    cssIsVocab: string -> bool,
    pathIsStructural: string -> bool)

  datatype TaintReason =
    FreeTextFound | NonVocabAttr | AriaOrNameTenant | RoleTextTenant | NonVocabRoleName | NonVocabTestId
    | StructuralFreeText | CallerMarkedTenant

  /** JavaScript's `\s`. */
  predicate IsSpace(c: char) {
    9 <= c as int <= 13 || c == ' ' || c as int == 0xA0 || c as int == 0xFEFF || c as int == 0x1680
    || 0x2000 <= c as int <= 0x200A || c as int == 0x2028 || c as int == 0x2029 || c as int == 0x202F
    || c as int == 0x205F || c as int == 0x3000
  }

  /** The code points of white space and line terminators in ECMAScript. */
  const BLANKS: set<int> :=
    {0x09, 0x0A, 0x0B, 0x0C, 0x0D, 0x20, 0xA0, 0x1680, 0x2000, 0x2001, 0x2002, 0x2003, 0x2004, 0x2005, 0x2006, 0x2007,
     0x2008, 0x2009, 0x200A, 0x2028, 0x2029, 0x202F, 0x205F, 0x3000, 0xFEFF}

  /** What counts as blank, against the list of code points the language gives. */
  lemma SpaceIff(c: char)
    ensures IsSpace(c) <==> c as int in BLANKS
  {
  }

  predicate OnlyBlanksAndSeparators(s: string) {
    forall i | 0 <= i < |s| :: IsSpace(s[i]) || s[i] in "-_/.:"
  }

  /** Holes and separators only. */
  predicate IsTemplateOnly(value: string) {
    OnlyBlanksAndSeparators(StripHoles(value))
  }

  predicate IsChromeName(v: Vocabulary, value: string) {
    value in v.chromeNames || IsTemplateOnly(value)
  }

  predicate IsPoolSafeName(v: Vocabulary, value: string) {
    IsChromeName(v, value) || value in v.vendorNames
  }

  predicate IsPoolSafeTestId(v: Vocabulary, value: string) {
    value in v.testIds || IsTemplateOnly(value) || value in v.vendorTestIds
  }

  function OrElse(a: Option<string>, b: string): string {
    if a.Some? then a.value else b
  }

  function CallerRule(loc: Locator): seq<TaintReason> {
    if loc.tenantScoped == Some(true) then [CallerMarkedTenant] else []
  }

  function FreeTextRule(v: Vocabulary, loc: Locator): seq<TaintReason> {
    if loc.strategy == FreeText then [FreeTextFound]
    else if loc.strategy == Placeholder then
      var value := OrElse(loc.text, OrElse(loc.name, OrElse(loc.labelText, "")));
      if |value| == 0 || !IsChromeName(v, value) then [FreeTextFound] else []
    else []
  }

  function CssRule(v: Vocabulary, loc: Locator): seq<TaintReason> {
    var css := OrElse(loc.css, "");
    if |css| == 0 then (if loc.strategy == CssVocab then [NonVocabAttr] else [])
    else if v.cssIsVocab(css) then [] else [NonVocabAttr]
  }

  predicate NameTainted(v: Vocabulary, name: Option<string>) {
    name.Some? && !IsPoolSafeName(v, name.value)
  }

  function NameRule(v: Vocabulary, loc: Locator): seq<TaintReason> {
    if (loc.strategy == RoleName || loc.strategy == ByLabel)
      && (NameTainted(v, loc.name) || NameTainted(v, loc.labelText) || NameTainted(v, loc.text))
    then [AriaOrNameTenant] else []
  }

  function RoleTextRule(v: Vocabulary, loc: Locator): seq<TaintReason> {
    if loc.strategy == RoleName && NameTainted(v, loc.text) then [RoleTextTenant] else []
  }

  function RoleRule(v: Vocabulary, loc: Locator): seq<TaintReason> {
    if loc.role.Some? && loc.role.value !in v.roles then [NonVocabRoleName] else []
  }

  function TestIdRule(v: Vocabulary, loc: Locator): seq<TaintReason> {
    var id := OrElse(loc.testid, "");
    if loc.strategy != TestId && loc.testid.None? then []
    else if |id| == 0 || !IsPoolSafeTestId(v, id) then [NonVocabTestId] else []
  }

  function PathRule(v: Vocabulary, loc: Locator): seq<TaintReason> {
    var path := OrElse(loc.structuralPath, "");
    if loc.strategy != Structural && loc.structuralPath.None? then []
    else if |path| == 0 || !v.pathIsStructural(path) then [StructuralFreeText] else []
  }

  /** Every rule but the first; none of them reads `tenant_scoped`. */
  function ContentReasons(v: Vocabulary, loc: Locator): seq<TaintReason> {
    FreeTextRule(v, loc) + CssRule(v, loc) + NameRule(v, loc) + RoleTextRule(v, loc)
    + RoleRule(v, loc) + TestIdRule(v, loc) + PathRule(v, loc)
  }

  /** The reasons the default rules give, in rule order. A locator is tainted when there is one. */
  function CheckTaint(v: Vocabulary, loc: Locator): seq<TaintReason> {
    if loc.strategy == TopologyOnly then [] else CallerRule(loc) + ContentReasons(v, loc)
  }

  /** The reason a row reports for a tainted locator. */
  function PoolReason(reasons: seq<TaintReason>): Reason {
    if NonVocabAttr in reasons then TaintedAttribute
    else if NonVocabRoleName in reasons then NonVocabRole
    else TenantLocatorText
  }

  function Mark(loc: Locator, tenant: bool): Locator {
    loc.(tenantScoped := Some(tenant))
  }

  function Unmark(loc: Locator): Locator {
    loc.(tenantScoped := None)
  }

  /** What the write path asks: a taint check for locators and a literal check for assertions. */
  datatype Policy = Policy(check: Locator -> seq<TaintReason>, literal: Json -> bool) {
    predicate Tainted(loc: Locator) {
      check(loc) != []
    }
  }

  /** The locator that stands for a step known only by its place in the flow. */
  const TOPOLOGY: Locator := Locator(TopologyOnly, None, None, None, None, None, None, None, Some(false))

  /** Marking a locator with its verdict changes neither verdict nor reason, and free text is always tainted. */
  predicate KeepsVerdict(p: Policy, loc: Locator) {
    if p.Tainted(loc)
    then p.Tainted(Mark(loc, true)) && PoolReason(p.check(Mark(loc, true))) == PoolReason(p.check(loc))
    else !p.Tainted(Mark(loc, false)) && loc.strategy != FreeText
  }

  /** All the write path relies on; the locator-less fallback must be clean. */
  ghost predicate Lawful(p: Policy) {
    (forall loc :: KeepsVerdict(p, loc)) && !p.Tainted(TOPOLOGY)
  }

  lemma DefaultRulesKeepVerdict(v: Vocabulary, loc: Locator)
    ensures var t := CheckTaint(v, loc) != [];
      && (CheckTaint(v, Mark(loc, t)) != [] <==> t)
      && (t ==> PoolReason(CheckTaint(v, Mark(loc, true))) == PoolReason(CheckTaint(v, loc)))
      && (!t ==> loc.strategy != FreeText)
  {
    var t := CheckTaint(v, loc) != [];
    assert ContentReasons(v, Mark(loc, t)) == ContentReasons(v, loc);
    assert loc.strategy == FreeText ==> ContentReasons(v, loc)[0] == FreeTextFound;
    if loc.strategy != TopologyOnly {
      assert forall r :: r in CheckTaint(v, loc) <==> r in CallerRule(loc) || r in ContentReasons(v, loc);
      assert forall r :: r in CheckTaint(v, Mark(loc, t)) <==> r in CallerRule(Mark(loc, t)) || r in ContentReasons(v, loc);
    }
  }

  // ---- which locators the default rules let pass, field by field ----

  /** Holes, blanks and `-`, `_`, `/`, `.`, `:`, in any order. */
  predicate HolesAndSeparators(s: string)
    decreases |s|
  {
    if |s| == 0 then true
    else match HoleAt(s)
      case Some(h) => HolesAndSeparators(s[|h| + 2..])
      case None => (IsSpace(s[0]) || s[0] in {'-', '_', '/', '.', ':'}) && HolesAndSeparators(s[1..])
  }

  lemma OneMoreSeparator(c: char, rest: string)
    ensures OnlyBlanksAndSeparators([c] + rest) <==>
      (IsSpace(c) || c in {'-', '_', '/', '.', ':'}) && OnlyBlanksAndSeparators(rest)
  {
    var s := [c] + rest;
    assert s[0] == c && c in "-_/.:" <==> c in {'-', '_', '/', '.', ':'};
    assert forall i | 0 <= i < |rest| :: s[i + 1] == rest[i];
  }

  lemma {:induction false} TemplateOnlyIff(s: string)
    ensures IsTemplateOnly(s) <==> HolesAndSeparators(s)
    decreases |s|
  {
    if |s| > 0 {
      match HoleAt(s)
      case Some(h) =>
        TemplateOnlyIff(s[|h| + 2..]);
      case None =>
        TemplateOnlyIff(s[1..]);
        OneMoreSeparator(s[0], StripHoles(s[1..]));
    }
  }

  /** Nothing of a tenant's: fixed interface text, or holes and separators only. */
  predicate Chrome(v: Vocabulary, text: string) {
    text in v.chromeNames || HolesAndSeparators(text)
  }

  /** Nothing there, or a name any installation of the site could show. */
  predicate NobodysName(v: Vocabulary, field: Option<string>) {
    field.Some? ==> Chrome(v, field.value) || field.value in v.vendorNames
  }

  /** The text a placeholder locator shows: the first field that is there. */
  predicate ShowsChrome(v: Vocabulary, loc: Locator) {
    if loc.text.Some? then |loc.text.value| > 0 && Chrome(v, loc.text.value)
    else if loc.name.Some? then |loc.name.value| > 0 && Chrome(v, loc.name.value)
    else loc.labelText.Some? && |loc.labelText.value| > 0 && Chrome(v, loc.labelText.value)
  }

  /** What a shared locator may consist of. */
  predicate Shared(v: Vocabulary, loc: Locator) {
    && loc.tenantScoped != Some(true) && loc.strategy != FreeText
    && (loc.strategy == Placeholder ==> ShowsChrome(v, loc))
    && (loc.strategy == RoleName || loc.strategy == ByLabel ==>
          NobodysName(v, loc.name) && NobodysName(v, loc.labelText) && NobodysName(v, loc.text))
    && (loc.role.Some? ==> loc.role.value in v.roles)
    && SharedTestId(v, loc) && SharedCss(v, loc) && SharedPath(v, loc)
  }

  predicate SharedTestId(v: Vocabulary, loc: Locator) {
    && (loc.strategy == TestId ==> loc.testid.Some?)
    && (loc.testid.Some? ==>
          |loc.testid.value| > 0
            && (loc.testid.value in v.testIds || loc.testid.value in v.vendorTestIds || HolesAndSeparators(loc.testid.value)))
  }

  predicate SharedCss(v: Vocabulary, loc: Locator) {
    && (loc.strategy == CssVocab ==> loc.css.Some? && |loc.css.value| > 0)
    && (loc.css.Some? && |loc.css.value| > 0 ==> v.cssIsVocab(loc.css.value))
  }

  predicate SharedPath(v: Vocabulary, loc: Locator) {
    && (loc.strategy == Structural ==> loc.structuralPath.Some?)
    && (loc.structuralPath.Some? ==> |loc.structuralPath.value| > 0 && v.pathIsStructural(loc.structuralPath.value))
  }

  lemma ChromeIff(v: Vocabulary, text: string)
    ensures IsChromeName(v, text) <==> Chrome(v, text)
  {
    TemplateOnlyIff(text);
  }

  lemma NameTaintedIff(v: Vocabulary, field: Option<string>)
    ensures !NameTainted(v, field) <==> NobodysName(v, field)
  {
    if field.Some? {
      ChromeIff(v, field.value);
    }
  }

  lemma PlaceholderIff(v: Vocabulary, loc: Locator)
    ensures FreeTextRule(v, loc) == [] <==> loc.strategy != FreeText && (loc.strategy == Placeholder ==> ShowsChrome(v, loc))
  {
    ChromeIff(v, OrElse(loc.text, OrElse(loc.name, OrElse(loc.labelText, ""))));
  }

  lemma NamesIff(v: Vocabulary, loc: Locator)
    ensures NameRule(v, loc) == [] && RoleTextRule(v, loc) == [] <==>
      (loc.strategy == RoleName || loc.strategy == ByLabel ==>
         NobodysName(v, loc.name) && NobodysName(v, loc.labelText) && NobodysName(v, loc.text))
  {
    NameTaintedIff(v, loc.name);
    NameTaintedIff(v, loc.labelText);
    NameTaintedIff(v, loc.text);
  }

  lemma SelectorsIff(v: Vocabulary, loc: Locator)
    ensures TestIdRule(v, loc) == [] <==> SharedTestId(v, loc)
    ensures CssRule(v, loc) == [] <==> SharedCss(v, loc)
    ensures PathRule(v, loc) == [] <==> SharedPath(v, loc)
  {
    TemplateOnlyIff(OrElse(loc.testid, ""));
  }

  lemma NoReasons(v: Vocabulary, loc: Locator)
    ensures ContentReasons(v, loc) == [] <==>
      && FreeTextRule(v, loc) == [] && CssRule(v, loc) == [] && NameRule(v, loc) == [] && RoleTextRule(v, loc) == []
      && RoleRule(v, loc) == [] && TestIdRule(v, loc) == [] && PathRule(v, loc) == []
  {
  }

  /** A locator passes the default rules if and only if it stands for a place in the flow or every field may be shared. */
  lemma CleanIff(v: Vocabulary, loc: Locator)
    ensures CheckTaint(v, loc) == [] <==> loc.strategy == TopologyOnly || Shared(v, loc)
  {
    NoReasons(v, loc);
    PlaceholderIff(v, loc);
    NamesIff(v, loc);
    SelectorsIff(v, loc);
  }

  /** The reason a row records names the offending kind of field: a selector first, then a role, then any text. */
  lemma ReasonByField(v: Vocabulary, loc: Locator)
    requires CheckTaint(v, loc) != []
    ensures PoolReason(CheckTaint(v, loc))
      == if !SharedCss(v, loc) then TaintedAttribute
         else if loc.role.Some? && loc.role.value !in v.roles then NonVocabRole
         else TenantLocatorText
  {
    SelectorsIff(v, loc);
    var reasons := CheckTaint(v, loc);
    assert forall r :: r in reasons <==>
      || r in CallerRule(loc) || r in FreeTextRule(v, loc) || r in CssRule(v, loc) || r in NameRule(v, loc)
      || r in RoleTextRule(v, loc) || r in RoleRule(v, loc) || r in TestIdRule(v, loc) || r in PathRule(v, loc);
    assert NonVocabAttr in CssRule(v, loc) <==> CssRule(v, loc) != [];
    assert NonVocabRoleName in RoleRule(v, loc) <==> RoleRule(v, loc) != [];
  }

  /** The first reason given, in the order the rules are asked. */
  lemma FirstReasonByField(v: Vocabulary, loc: Locator)
    requires CheckTaint(v, loc) != []
    ensures CheckTaint(v, loc)[0]
      == if loc.tenantScoped == Some(true) then CallerMarkedTenant
         else if loc.strategy == FreeText || (loc.strategy == Placeholder && !ShowsChrome(v, loc)) then FreeTextFound
         else if !SharedCss(v, loc) then NonVocabAttr
         else if (loc.strategy == RoleName || loc.strategy == ByLabel)
           && !(NobodysName(v, loc.name) && NobodysName(v, loc.labelText) && NobodysName(v, loc.text)) then AriaOrNameTenant
         else if loc.role.Some? && loc.role.value !in v.roles then NonVocabRoleName
         else if !SharedTestId(v, loc) then NonVocabTestId
         else StructuralFreeText
  {
    PlaceholderIff(v, loc);
    SelectorsIff(v, loc);
    NameTaintedIff(v, loc.name);
    NameTaintedIff(v, loc.labelText);
    NameTaintedIff(v, loc.text);
  }
}

/** Tenant literals inside an assertion, and the default policy of the write path. */
module Literals {
  import opened Wrappers
  import opened Text
  import opened Json
  import opened CacheTypes
  import opened Taint

  function TrimStart(s: string): (r: string)
    ensures |r| <= |s|
  {
    if |s| > 0 && IsSpace(s[0]) then TrimStart(s[1..]) else s
  }

  function TrimEnd(s: string): (r: string)
    ensures |r| <= |s|
  {
    if |s| > 0 && IsSpace(s[|s| - 1]) then TrimEnd(s[..|s| - 1]) else s
  }

  function Trim(s: string): string {
    TrimEnd(TrimStart(s))
  }

  /** What is left of a template once its holes are gone. */
  function Residue(template: string): string {
    Trim(StripHoles(template))
  }

  function StrategyOf(name: Option<string>): Strategy {
    match name
    case Some("role_name") => RoleName
    case Some("label") => ByLabel
    case Some("testid") => TestId
    case Some("structural") => Structural
    case Some("text") => FreeText
    case Some("placeholder") => Placeholder
    case Some("css_vocab") => CssVocab
    case Some("topology_only") => TopologyOnly
    case _ => Unrecognized
  }

  /** A locator embedded in an assertion. */
  function LocatorOf(j: Json): Locator {
    Locator(
      StrategyOf(StrProp(j, "strategy")), StrProp(j, "role"), StrProp(j, "name"), StrProp(j, "label"),
      StrProp(j, "testid"), StrProp(j, "structural_path"), StrProp(j, "text"), StrProp(j, "css"),
      match Prop(j, "tenant_scoped") case Some(Bool(b)) => Some(b) case _ => None)
  }

  function ExpectedTemplate(assertion: Json): Option<string> {
    match Prop(assertion, "expected")
    case Some(expected) => StrProp(expected, "template")
    case None => None
  }

  function TargetLocator(assertion: Json): Option<Locator> {
    match Prop(assertion, "target")
    case Some(target) => (match Prop(target, "locator") case Some(l) => Some(LocatorOf(l)) case None => None)
    case None => None
  }

  predicate EmailLocal(c: char) {
    'a' <= c <= 'z' || 'A' <= c <= 'Z' || '0' <= c <= '9' || c in "._%+-"
  }

  predicate EmailDomain(c: char) {
    'a' <= c <= 'z' || 'A' <= c <= 'Z' || '0' <= c <= '9' || c == '.' || c == '-'
  }

  predicate Letter(c: char) {
    'a' <= c <= 'z' || 'A' <= c <= 'Z'
  }

  /** From the `@` at `i`, a domain runs up to a dot at `j` with a two-letter ending behind it. */
  predicate DomainTo(s: string, i: nat, j: nat)
    requires i < j < |s|
  {
    && i + 1 < j && j + 2 < |s| && s[j] == '.'
    && (forall c | c in s[i + 1..j] :: EmailDomain(c))
    && (forall c | c in s[j + 1..j + 3] :: Letter(c))
  }

  predicate EmailAt(s: string, i: nat)
    requires i < |s|
  {
    s[i] == '@' && i > 0 && EmailLocal(s[i - 1]) && exists j | i < j < |s| :: DomainTo(s, i, j)
  }

  predicate HasEmail(s: string) {
    exists i | 0 <= i < |s| :: EmailAt(s, i)
  }

  /** `text.replace(/\{[^}]+\}/g, "")`. */
  function StripBraced(s: string): (r: string)
    decreases |s|
  {
    if |s| == 0 then ""
    else if s[0] == '{' && IndexOf(s, '}').Some? && IndexOf(s, '}').value > 1 then
      StripBraced(s[IndexOf(s, '}').value + 1..])
    else [s[0]] + StripBraced(s[1..])
  }

  predicate TemplateLiteral(v: Vocabulary, assertion: Json) {
    match ExpectedTemplate(assertion)
    case Some(t) =>
      |Residue(t)| > 0 && !IsChromeName(v, Residue(t)) && !IsTemplateOnly(t) && !IsChromeName(v, t)
    case None => false
  }

  predicate TargetTainted(v: Vocabulary, assertion: Json) {
    match TargetLocator(assertion)
    case Some(loc) => CheckTaint(v, loc) != []
    case None => false
  }

  predicate EmailLiteral(assertion: Json) {
    HasEmail(StripBraced(Print(assertion, false, 0)))
  }

  predicate AssertionHasTenantLiteral(v: Vocabulary, assertion: Json) {
    TemplateLiteral(v, assertion) || TargetTainted(v, assertion) || EmailLiteral(assertion)
  }

  // ---- when an assertion holds a tenant's literal ----

  /** The character classes of the pattern below, by character code. */
  lemma AddressChars(c: char)
    ensures Letter(c) <==> 65 <= c as int <= 90 || 97 <= c as int <= 122
    ensures EmailDomain(c) <==> 65 <= c as int <= 90 || 97 <= c as int <= 122 || 48 <= c as int <= 57 || c in {'.', '-'}
    ensures EmailLocal(c) <==>
      65 <= c as int <= 90 || 97 <= c as int <= 122 || 48 <= c as int <= 57 || c in {'.', '_', '%', '+', '-'}
  {
  }

  /** `[a-zA-Z0-9._%+-]+@[a-zA-Z0-9.-]+\.[a-zA-Z]{2,}`, matched whole and in these parts. */
  predicate IsAddress(address: string, user: string, domain: string, top: string) {
    && address == user + "@" + domain + "." + top && |user| > 0 && |domain| > 0 && |top| >= 2
    && (forall c | c in user :: EmailLocal(c)) && (forall c | c in domain :: EmailDomain(c)) && (forall c | c in top :: Letter(c))
  }

  ghost predicate ShowsAddress(s: string) {
    exists before, address, after, user, domain, top: string ::
      s == before + address + after && IsAddress(address, user, domain, top)
  }

  lemma AroundAt(s: string, i: nat, j: nat)
    requires 0 < i < j && j + 3 <= |s| && i + 1 < j && s[i] == '@' && s[j] == '.'
    ensures s[i - 1..j + 3] == s[i - 1..i] + "@" + s[i + 1..j] + "." + s[j + 1..j + 3]
    ensures s == s[..i - 1] + s[i - 1..j + 3] + s[j + 3..]
  {
  }

  lemma AddressShows(s: string, i: nat, j: nat)
    requires i < |s| && EmailAt(s, i) && i < j < |s| && DomainTo(s, i, j)
    ensures ShowsAddress(s)
  {
    var before, address, after := s[..i - 1], s[i - 1..j + 3], s[j + 3..];
    var user, domain, top := s[i - 1..i], s[i + 1..j], s[j + 1..j + 3];
    AroundAt(s, i, j);
    assert user == [s[i - 1]] && |top| == 2;
    assert IsAddress(address, user, domain, top);
  }

  lemma PartsInside(s: string, before: string, user: string, domain: string, top: string, after: string)
    requires s == before + (user + "@" + domain + "." + top) + after && |user| > 0 && |top| >= 2
    ensures var i := |before| + |user|;
      var j := i + 1 + |domain|;
      && j + 3 <= |s| && s[i] == '@' && s[i - 1] == user[|user| - 1]
      && s[i + 1..j] == domain && s[j] == '.' && s[j + 1..j + 3] == top[..2]
  {
  }

  lemma ShownIsFound(s: string, before: string, address: string, after: string, user: string, domain: string, top: string)
    requires s == before + address + after && IsAddress(address, user, domain, top)
    ensures HasEmail(s)
  {
    var i := |before| + |user|;
    var j := i + 1 + |domain|;
    PartsInside(s, before, user, domain, top, after);
    assert DomainTo(s, i, j);
    assert EmailAt(s, i);
  }

  /** The authority's search finds exactly what the pattern matches somewhere. */
  lemma EmailIff(s: string)
    ensures HasEmail(s) <==> ShowsAddress(s)
  {
    if HasEmail(s) {
      var i :| 0 <= i < |s| && EmailAt(s, i);
      var j :| i < j < |s| && DomainTo(s, i, j);
      AddressShows(s, i, j);
    }
    if ShowsAddress(s) {
      var before, address, after, user, domain, top: string :|
        s == before + address + after && IsAddress(address, user, domain, top);
      ShownIsFound(s, before, address, after, user, domain, top);
    }
  }

  /** A braced group that is not empty disappears, whatever is in it. */
  lemma {:induction false} BracedGoes(before: string, inside: string, after: string)
    requires '{' !in before && |inside| > 0 && '}' !in inside
    ensures StripBraced(before + ['{'] + inside + ['}'] + after) == before + StripBraced(after)
    decreases |before|
  {
    var s := before + ['{'] + inside + ['}'] + after;
    if |before| == 0 {
      var k := IndexOf(s, '}').value;
      assert s[|inside| + 1] == '}' && forall i | 0 <= i <= |inside| :: s[i] != '}';
      assert k == |inside| + 1 && s[k + 1..] == after;
    } else {
      assert before[0] in before && s[1..] == before[1..] + ['{'] + inside + ['}'] + after;
      BracedGoes(before[1..], inside, after);
      assert before == [before[0]] + before[1..];
    }
  }

  /** What trimming leaves: blanks go at both ends, and nothing else. */
  lemma TrimLeaves(s: string) returns (left: string, right: string)
    ensures s == left + Trim(s) + right && Blanks(left) && Blanks(right)
    ensures |Trim(s)| > 0 ==> !IsSpace(Trim(s)[0]) && !IsSpace(Trim(s)[|Trim(s)| - 1])
  {
    left := TrimStartLeaves(s);
    right := TrimEndLeaves(TrimStart(s));
    assert s == left + (Trim(s) + right);
  }

  predicate Blanks(s: string) {
    forall c | c in s :: IsSpace(c)
  }

  lemma {:induction false} TrimStartLeaves(s: string) returns (left: string)
    ensures s == left + TrimStart(s) && Blanks(left) && (|TrimStart(s)| > 0 ==> !IsSpace(TrimStart(s)[0]))
  {
    left := "";
    if |s| > 0 && IsSpace(s[0]) {
      var l := TrimStartLeaves(s[1..]);
      left := [s[0]] + l;
    }
  }

  lemma {:induction false} TrimEndLeaves(s: string) returns (right: string)
    ensures s == TrimEnd(s) + right && Blanks(right) && TrimEnd(s) <= s
    ensures |TrimEnd(s)| > 0 ==> !IsSpace(TrimEnd(s)[|TrimEnd(s)| - 1])
  {
    right := "";
    if |s| > 0 && IsSpace(s[|s| - 1]) {
      var r := TrimEndLeaves(s[..|s| - 1]);
      right := r + [s[|s| - 1]];
    }
  }

  /** An expected text that is more than interface text: something is left of it once holes and outer blanks are gone. */
  predicate TenantText(v: Vocabulary, t: string) {
    |Trim(StripHoles(t))| > 0 && !Chrome(v, Trim(StripHoles(t))) && !Chrome(v, t)
  }

  /** The locator the assertion is about. */
  predicate Targets(assertion: Json, loc: Locator) {
    match Prop(assertion, "target")
    case Some(target) => (match Prop(target, "locator") case Some(l) => LocatorOf(l) == loc case None => false)
    case None => false
  }

  predicate Expects(assertion: Json, text: string) {
    match Prop(assertion, "expected")
    case Some(expected) => StrProp(expected, "template") == Some(text)
    case None => false
  }

  lemma TextIff(v: Vocabulary, assertion: Json)
    ensures TemplateLiteral(v, assertion) <==> exists t :: Expects(assertion, t) && TenantText(v, t)
  {
    if ExpectedTemplate(assertion).Some? {
      var t := ExpectedTemplate(assertion).value;
      assert Expects(assertion, t);
      ChromeIff(v, t);
      ChromeIff(v, Residue(t));
    }
  }

  lemma TargetIff(v: Vocabulary, assertion: Json)
    ensures TargetTainted(v, assertion) <==> exists loc :: Targets(assertion, loc) && loc.strategy != TopologyOnly && !Shared(v, loc)
  {
    if TargetLocator(assertion).Some? {
      var loc := TargetLocator(assertion).value;
      assert Targets(assertion, loc);
      CleanIff(v, loc);
    }
  }

  /**
   * An assertion holds a tenant's literal if and only if it expects a tenant's text, is about a locator that may not
   * be shared, or shows an e-mail address outside braces.
   */
  lemma LiteralIff(v: Vocabulary, assertion: Json)
    ensures AssertionHasTenantLiteral(v, assertion) <==>
      || (exists t :: Expects(assertion, t) && TenantText(v, t))
      || (exists loc :: Targets(assertion, loc) && loc.strategy != TopologyOnly && !Shared(v, loc))
      || ShowsAddress(StripBraced(Print(assertion, false, 0)))
  {
    TextIff(v, assertion);
    TargetIff(v, assertion);
    EmailIff(StripBraced(Print(assertion, false, 0)));
  }

  function DefaultPolicy(v: Vocabulary): Policy {
    Policy(l => CheckTaint(v, l), a => AssertionHasTenantLiteral(v, a))
  }

  lemma DefaultIsLawful(v: Vocabulary)
    ensures Lawful(DefaultPolicy(v))
  {
    forall loc: Locator ensures KeepsVerdict(DefaultPolicy(v), loc) {
      DefaultRulesKeepVerdict(v, loc);
    }
  }
}
