/** The compiler's locator chains: recorder candidates in preference order, with a locator-less fallback. */
module Locators {
  import opened Wrappers
  import opened Order
  import opened CacheTypes
  import opened Taint
  import opened Pool

  datatype LocatorCandidate = LocatorCandidate(loc: Locator, rank: int)

  function PreferenceIndex(s: Strategy): nat {
    match s
    case RoleName => 0
    case ByLabel => 1
    case TestId => 2
    case Structural => 3
    case FreeText => 4
    case Placeholder => 5
    case CssVocab => 6
    case Unrecognized => 7
    case TopologyOnly => 8
  }

  /** Preference first, then the recorder's own rank. */
  predicate CandidateLe(a: LocatorCandidate, b: LocatorCandidate) {
    var p, q := PreferenceIndex(a.loc.strategy), PreferenceIndex(b.loc.strategy);
    if p != q then p < q else a.rank <= b.rank
  }

  predicate Prose(h: Heuristics, field: Option<string>) {
    field.Some? && LooksLikeTenantLiteral(h, field.value)
  }

  predicate Selector(h: Heuristics, field: Option<string>) {
    field.Some? && LooksLikeTenantSelector(h, field.value)
  }

  /** A candidate as the chain carries it: marked when its own words look like tenant data. */
  function Compiled(h: Heuristics, c: LocatorCandidate): Locator {
    var loc := c.loc;
    if Prose(h, loc.name) || Prose(h, loc.labelText) || Prose(h, loc.text)
      || (loc.strategy == CssVocab && Selector(h, loc.css))
    then loc.(tenantScoped := Some(true)) else loc
  }

  predicate FieldsLookTainted(h: Heuristics, loc: Locator) {
    || Prose(h, loc.name) || Prose(h, loc.labelText) || Prose(h, loc.text) || Prose(h, loc.testid)
    || Selector(h, loc.css) || Selector(h, loc.structuralPath)
    || loc.tenantScoped == Some(true)
  }

  function CompiledAll(h: Heuristics, cs: seq<LocatorCandidate>): (r: seq<Locator>)
    ensures |r| == |cs| && forall i | 0 <= i < |cs| :: r[i] == Compiled(h, cs[i])
  {
    seq(|cs|, i requires 0 <= i < |cs| => Compiled(h, cs[i]))
  }

  function ChainOf(h: Heuristics, candidates: seq<LocatorCandidate>): seq<Locator> {
    var chain := CompiledAll(h, SortBy(candidates, CandidateLe));
    if |candidates| == 0 then []
    else if forall i | 0 <= i < |chain| :: FieldsLookTainted(h, chain[i]) then chain + [TOPOLOGY]
    else chain
  }

  method BuildLocatorFallbackChain(h: Heuristics, candidates: seq<LocatorCandidate>)
    returns (chain: seq<Locator>, topologyOnly: bool)
    ensures chain == ChainOf(h, candidates)
    ensures topologyOnly <==> |chain| == |candidates| + 1
  {
    if |candidates| == 0 {
      return [], false;
    }
    var ordered := SortBy(candidates, CandidateLe);
    chain := [];
    for k := 0 to |ordered|
      invariant |chain| == k && forall i | 0 <= i < k :: chain[i] == Compiled(h, ordered[i])
    {
      var compiled := ordered[k].loc;
      if Prose(h, compiled.name) || Prose(h, compiled.labelText) || Prose(h, compiled.text) {
        compiled := compiled.(tenantScoped := Some(true));
      }
      if compiled.strategy == CssVocab && Selector(h, compiled.css) {
        compiled := compiled.(tenantScoped := Some(true));
      }
      chain := chain + [compiled];
    }
    assert chain == CompiledAll(h, ordered);
    topologyOnly := forall i | 0 <= i < |chain| :: FieldsLookTainted(h, chain[i]);
    if topologyOnly {
      chain := chain + [TOPOLOGY];
    }
  }

  ghost function AllCandidates(): iset<LocatorCandidate> { iset c: LocatorCandidate | PreferenceIndex(c.loc.strategy) >= 0 }

  /**
   * The chain holds every candidate once, most preferred strategy first, ties by rank; nothing else is in it except
   * the locator-less fallback, which ends it exactly when every candidate looks tenant-specific.
   */
  lemma ChainInPreferenceOrder(h: Heuristics, candidates: seq<LocatorCandidate>) returns (ordered: seq<LocatorCandidate>)
    ensures multiset(ordered) == multiset(candidates) && Sorted(ordered, CandidateLe)
    ensures var chain := ChainOf(h, candidates);
      && |ordered| <= |chain| <= |ordered| + 1
      && (forall i | 0 <= i < |ordered| :: chain[i] == Compiled(h, ordered[i]))
      && (|chain| > |ordered| ==> chain[|ordered|] == TOPOLOGY)
      && (|chain| > |ordered| <==> |candidates| > 0 && forall i | 0 <= i < |ordered| :: FieldsLookTainted(h, chain[i]))
  {
    ordered := SortBy(candidates, CandidateLe);
    SortElements(candidates, CandidateLe);
    SortSorts(candidates, CandidateLe, AllCandidates());
  }

  predicate Named(l: Locator) {
    l.strategy != TopologyOnly
  }

  predicate Preferred(l: Locator) {
    Named(l) && l.tenantScoped != Some(true)
  }

  /** `chain.find(p)`. */
  function FirstWhere(chain: seq<Locator>, p: Locator -> bool): (r: Option<Locator>)
    ensures r.Some? ==> p(r.value)
    ensures r.None? <==> forall i | 0 <= i < |chain| :: !p(chain[i])
  {
    if |chain| == 0 then None else if p(chain[0]) then Some(chain[0]) else FirstWhere(chain[1..], p)
  }

  function PickPrimaryLocator(chain: seq<Locator>): Option<Locator> {
    var untainted := FirstWhere(chain, Preferred);
    if untainted.Some? then untainted else FirstWhere(chain, Named)
  }

  lemma {:induction false} FirstWherePosition(chain: seq<Locator>, p: Locator -> bool) returns (k: nat)
    ensures k <= |chain| && forall i | 0 <= i < k :: !p(chain[i])
    ensures k < |chain| <==> FirstWhere(chain, p).Some?
    ensures k < |chain| ==> FirstWhere(chain, p) == Some(chain[k])
  {
    if |chain| == 0 || p(chain[0]) {
      k := 0;
    } else {
      k := FirstWherePosition(chain[1..], p);
      k := k + 1;
    }
  }

  /** `l` is unusable, or marked where `primary` is not, or no earlier in preference order. */
  predicate NotBetter(l: Locator, primary: Locator) {
    && (Preferred(l) ==> Preferred(primary))
    && (Named(l) && (Preferred(l) || !Preferred(primary)) ==> PreferenceIndex(primary.strategy) <= PreferenceIndex(l.strategy))
  }

  lemma OrderedAreNamed(h: Heuristics, candidates: seq<LocatorCandidate>, ordered: seq<LocatorCandidate>, chain: seq<Locator>)
    requires forall i | 0 <= i < |candidates| :: Named(candidates[i].loc)
    requires multiset(ordered) == multiset(candidates) && |ordered| <= |chain|
    requires forall i | 0 <= i < |ordered| :: chain[i] == Compiled(h, ordered[i])
    ensures |ordered| == |candidates| && forall i | 0 <= i < |ordered| :: Named(chain[i])
  {
    SameMembers(candidates, ordered);
    assert |multiset(ordered)| == |ordered| && |multiset(candidates)| == |candidates|;
    forall i | 0 <= i < |ordered| ensures Named(chain[i]) {
      assert ordered[i] in candidates;
    }
  }

  /** The primary locator of a compiled chain beats every other usable one on preference. */
  lemma PrimaryIsMostPreferred(h: Heuristics, candidates: seq<LocatorCandidate>)
    requires forall i | 0 <= i < |candidates| :: Named(candidates[i].loc)
    ensures var chain := ChainOf(h, candidates);
      var primary := PickPrimaryLocator(chain);
      && (primary.None? <==> candidates == [])
      && (primary.Some? ==> primary.value in chain && forall l | l in chain :: NotBetter(l, primary.value))
  {
    var chain := ChainOf(h, candidates);
    var ordered := ChainInPreferenceOrder(h, candidates);
    OrderedAreNamed(h, candidates, ordered, chain);
    var p: Locator -> bool := if FirstWhere(chain, Preferred).Some? then Preferred else Named;
    var k := FirstWherePosition(chain, p);
    if candidates != [] {
      assert Named(chain[0]);
    }
    forall i | 0 <= i < |chain| && p(chain[i])
      ensures k < |ordered| && PreferenceIndex(chain[k].strategy) <= PreferenceIndex(chain[i].strategy)
    {
      assert k <= i < |ordered|;
      assert i == k || CandidateLe(ordered[k], ordered[i]);
    }
    forall l | l in chain && candidates != [] ensures NotBetter(l, chain[k]) {
      var i :| 0 <= i < |chain| && chain[i] == l;
    }
  }

  /** The field is there and reads like a tenant's. */
  ghost predicate ReadsAsTenants(h: Heuristics, field: Option<string>) {
    exists text :: field == Some(text) && LooksLikeTenantLiteral(h, text)
  }

  ghost predicate SelectsTenants(h: Heuristics, field: Option<string>) {
    exists text :: field == Some(text) && LooksLikeTenantSelector(h, text)
  }

  /** A candidate is carried as recorded, and marked as the tenant's when its name, label or text reads so, or a CSS selector does. */
  lemma CompiledSays(h: Heuristics, c: LocatorCandidate)
    ensures var l := Compiled(h, c);
      && l.(tenantScoped := c.loc.tenantScoped) == c.loc
      && l.tenantScoped
        == if ReadsAsTenants(h, c.loc.name) || ReadsAsTenants(h, c.loc.labelText) || ReadsAsTenants(h, c.loc.text)
             || (c.loc.strategy == CssVocab && SelectsTenants(h, c.loc.css))
           then Some(true) else c.loc.tenantScoped
  {
    assert c.loc.(tenantScoped := Some(true)).(tenantScoped := c.loc.tenantScoped) == c.loc;
  }

  /** What makes a locator useless to the pool in the compiler's eyes. */
  lemma LooksTaintedSays(h: Heuristics, l: Locator)
    ensures FieldsLookTainted(h, l) <==>
      || l.tenantScoped == Some(true)
      || ReadsAsTenants(h, l.name) || ReadsAsTenants(h, l.labelText) || ReadsAsTenants(h, l.text) || ReadsAsTenants(h, l.testid)
      || SelectsTenants(h, l.css) || SelectsTenants(h, l.structuralPath)
  {
  }

  /** Equally preferred candidates come in the recorder's order of rank. */
  lemma RanksInOrder(h: Heuristics, candidates: seq<LocatorCandidate>) returns (ordered: seq<LocatorCandidate>)
    ensures multiset(ordered) == multiset(candidates)
    ensures |ordered| <= |ChainOf(h, candidates)| && forall i | 0 <= i < |ordered| :: ChainOf(h, candidates)[i] == Compiled(h, ordered[i])
    ensures forall i, j | 0 <= i < j < |ordered| && ordered[i].loc.strategy == ordered[j].loc.strategy :: ordered[i].rank <= ordered[j].rank
  {
    ordered := ChainInPreferenceOrder(h, candidates);
    forall i, j | 0 <= i < j < |ordered| && ordered[i].loc.strategy == ordered[j].loc.strategy
      ensures ordered[i].rank <= ordered[j].rank
    {
      assert CandidateLe(ordered[i], ordered[j]);
    }
  }
}
