/**
 * The write-time privacy authority: it splits a row into the copy that may be pooled and the copy that stays with
 * its tenant, and refuses a caller who claims more than the row earns.
 */
module Write {
  import opened Wrappers
  import opened CacheTypes
  import opened Taint

  // ---- the chain ----

  function PoolSafe(p: Policy, chain: seq<Locator>): seq<Locator> {
    if |chain| == 0 then []
    else
      var rest := PoolSafe(p, chain[..|chain| - 1]);
      var last := chain[|chain| - 1];
      if p.Tainted(last) then rest else rest + [Mark(last, false)]
  }

  function TenantOnly(p: Policy, chain: seq<Locator>): seq<Locator> {
    if |chain| == 0 then []
    else
      var rest := TenantOnly(p, chain[..|chain| - 1]);
      var last := chain[|chain| - 1];
      if p.Tainted(last) then rest + [Mark(last, true)] else rest
  }

  /** The reason of the first tainted locator, which is the only one a row records. */
  function FirstReason(p: Policy, chain: seq<Locator>): (r: Option<Reason>)
    ensures r in {None, Some(TaintedAttribute), Some(NonVocabRole), Some(TenantLocatorText)}
  {
    if |chain| == 0 then None
    else
      var rest := FirstReason(p, chain[..|chain| - 1]);
      var last := chain[|chain| - 1];
      if rest.Some? then rest
      else if p.Tainted(last) then Some(PoolReason(p.check(last))) else None
  }

  method ClassifyLocators(p: Policy, chain: seq<Locator>)
    returns (poolSafe: seq<Locator>, tenantOnly: seq<Locator>, reasons: seq<Reason>)
    ensures poolSafe == PoolSafe(p, chain) && tenantOnly == TenantOnly(p, chain)
    ensures (if |reasons| > 0 then Some(reasons[0]) else None) == FirstReason(p, chain)
    ensures forall i, j | 0 <= i < j < |reasons| :: reasons[i] != reasons[j]
  {
    poolSafe, tenantOnly, reasons := [], [], [];
    for k := 0 to |chain|
      invariant poolSafe == PoolSafe(p, chain[..k]) && tenantOnly == TenantOnly(p, chain[..k])
      invariant (if |reasons| > 0 then Some(reasons[0]) else None) == FirstReason(p, chain[..k])
      invariant forall i, j | 0 <= i < j < |reasons| :: reasons[i] != reasons[j]
    {
      assert chain[..k + 1][..k] == chain[..k];
      var found := p.check(chain[k]);
      if |found| > 0 {
        tenantOnly := tenantOnly + [Mark(chain[k], true)];
        if PoolReason(found) !in reasons {
          reasons := reasons + [PoolReason(found)];
        }
      } else {
        poolSafe := poolSafe + [Mark(chain[k], false)];
      }
    }
    assert chain[..|chain|] == chain;
  }

  // ---- building rows ----

  /** The fail-closed look at an eligible row's chain, locator by locator. */
  function Refusal(chain: seq<Locator>): Option<Reason> {
    if |chain| == 0 then None
    else if chain[0].tenantScoped == Some(true) then Some(PoolLeakRefused)
    else if chain[0].strategy == FreeText then Some(TenantLocatorText)
    else Refusal(chain[1..])
  }

  function Finalize(c: Candidate, chain: seq<Locator>, eligible: bool, reason: Reason): Result<CacheRow, Reason> {
    var row := CacheRow(
      c.body.(action := c.body.action.(chain := chain)),
      eligible,
      if eligible then None else Some(reason));
    if eligible && Refusal(chain).Some? then Err(Refusal(chain).value) else Ok(row)
  }

  function BuildPoolRow(p: Policy, c: Candidate): Result<CacheRow, Reason> {
    var chain := c.body.action.chain;
    if p.literal(c.body.assertion) then Finalize(c, [], false, LiteralInAssertion)
    else if |PoolSafe(p, chain)| > 0 then Finalize(c, PoolSafe(p, chain), true, Other)
    else if c.body.topology.Some? then Finalize(c, [TOPOLOGY], true, Other)
    else Finalize(c, [], false, if FirstReason(p, chain).Some? then FirstReason(p, chain).value else Other)
  }

  function TenantChain(p: Policy, chain: seq<Locator>): seq<Locator> {
    PoolSafe(p, chain) + TenantOnly(p, chain)
  }

  function TenantReason(p: Policy, c: Candidate): Reason {
    var chain := c.body.action.chain;
    if p.literal(c.body.assertion) then LiteralInAssertion
    else if |TenantOnly(p, chain)| > 0 && |PoolSafe(p, chain)| == 0 then TopologyOnlyDegraded
    else if FirstReason(p, chain).Some? then FirstReason(p, chain).value
    else Other
  }

  function BuildTenantRow(p: Policy, c: Candidate): (row: CacheRow)
    ensures Finalize(c, TenantChain(p, c.body.action.chain), false, TenantReason(p, c)) == Ok(row)
    ensures !row.poolEligible
  {
    Finalize(c, TenantChain(p, c.body.action.chain), false, TenantReason(p, c)).value
  }

  /** The gatekeeper. It re-checks what it is about to call shareable before letting it through. */
  function WriteCacheRow(p: Policy, c: Candidate): Result<CacheRow, Reason> {
    match BuildPoolRow(p, c)
    case Err(e) => Err(e)
    case Ok(pool) =>
      if c.claim == Some(true) && !pool.poolEligible then
        Err(if pool.reason.Some? then pool.reason.value else Other)
      else if pool.poolEligible && exists i | 0 <= i < |pool.body.action.chain| :: p.Tainted(pool.body.action.chain[i]) then
        Err(PoolLeakRefused)
      else if pool.poolEligible && p.literal(pool.body.assertion) then
        Err(LiteralInAssertion)
      else Ok(pool)
  }

  datatype Pair = Pair(pool: CacheRow, tenant: CacheRow)

  function WriteCacheRowPair(p: Policy, c: Candidate): Result<Pair, Reason> {
    match WriteCacheRow(p, c)
    case Err(e) => Err(e)
    case Ok(pool) =>
      if BuildTenantRow(p, c).poolEligible then Err(PoolLeakRefused) else Ok(Pair(pool, BuildTenantRow(p, c)))
  }

  // ---- what classification keeps ----

  lemma {:induction false} PoolSafeIsClean(p: Policy, chain: seq<Locator>)
    requires Lawful(p)
    ensures forall l | l in PoolSafe(p, chain) :: !p.Tainted(l) && l.tenantScoped == Some(false) && l.strategy != FreeText
    ensures Refusal(PoolSafe(p, chain)).None?
    ensures PoolSafe(p, PoolSafe(p, chain)) == PoolSafe(p, chain) && TenantOnly(p, PoolSafe(p, chain)) == []
    ensures FirstReason(p, PoolSafe(p, chain)).None?
  {
    if |chain| > 0 {
      var last := chain[|chain| - 1];
      var s := PoolSafe(p, chain[..|chain| - 1]);
      PoolSafeIsClean(p, chain[..|chain| - 1]);
      assert KeepsVerdict(p, last);
      if !p.Tainted(last) {
        assert (s + [Mark(last, false)])[..|s|] == s;
        RefusalSnoc(s, Mark(last, false));
      }
    }
  }

  lemma {:induction false} RefusalSnoc(chain: seq<Locator>, l: Locator)
    requires Refusal(chain).None? && l.tenantScoped != Some(true) && l.strategy != FreeText
    ensures Refusal(chain + [l]).None?
  {
    if |chain| > 0 {
      assert (chain + [l])[1..] == chain[1..] + [l];
      RefusalSnoc(chain[1..], l);
    }
  }

  lemma {:induction false} ClassifyConcat(p: Policy, a: seq<Locator>, b: seq<Locator>)
    ensures PoolSafe(p, a + b) == PoolSafe(p, a) + PoolSafe(p, b)
    ensures TenantOnly(p, a + b) == TenantOnly(p, a) + TenantOnly(p, b)
  {
    if |b| == 0 {
      assert a + b == a;
    } else {
      assert (a + b)[..|a + b| - 1] == a + b[..|b| - 1];
      ClassifyConcat(p, a, b[..|b| - 1]);
    }
  }

  lemma {:induction false} FirstReasonConcat(p: Policy, a: seq<Locator>, b: seq<Locator>)
    ensures FirstReason(p, a + b) == if FirstReason(p, a).Some? then FirstReason(p, a) else FirstReason(p, b)
  {
    if |b| == 0 {
      assert a + b == a;
    } else {
      assert (a + b)[..|a + b| - 1] == a + b[..|b| - 1];
      FirstReasonConcat(p, a, b[..|b| - 1]);
    }
  }

  /** The tenant half keeps its verdicts and its first reason when it is classified again. */
  lemma {:induction false} TenantOnlyStays(p: Policy, chain: seq<Locator>)
    requires Lawful(p)
    ensures var t := TenantOnly(p, chain);
      TenantOnly(p, t) == t && PoolSafe(p, t) == [] && FirstReason(p, t) == FirstReason(p, chain)
    ensures FirstReason(p, chain).Some? <==> |TenantOnly(p, chain)| > 0
  {
    if |chain| > 0 {
      var last := chain[|chain| - 1];
      var t := TenantOnly(p, chain[..|chain| - 1]);
      TenantOnlyStays(p, chain[..|chain| - 1]);
      assert KeepsVerdict(p, last);
      if p.Tainted(last) {
        assert (t + [Mark(last, true)])[..|t|] == t;
      }
    }
  }

  lemma TenantChainStays(p: Policy, chain: seq<Locator>)
    requires Lawful(p)
    ensures var t := TenantChain(p, chain);
      && PoolSafe(p, t) == PoolSafe(p, chain) && TenantOnly(p, t) == TenantOnly(p, chain)
      && FirstReason(p, t) == FirstReason(p, chain) && TenantChain(p, t) == t
  {
    PoolSafeIsClean(p, chain);
    TenantOnlyStays(p, chain);
    ClassifyConcat(p, PoolSafe(p, chain), TenantOnly(p, chain));
    FirstReasonConcat(p, PoolSafe(p, chain), TenantOnly(p, chain));
  }

  // ---- the laws of the write path ----

  /** What may be in the pool file: clean locators, and an assertion free of tenant literals. */
  ghost predicate Shareable(p: Policy, row: CacheRow) {
    && (forall l | l in row.body.action.chain :: !p.Tainted(l) && l.strategy != FreeText && l.tenantScoped != Some(true))
    && !p.literal(row.body.assertion)
  }

  /** Everything a row carries besides its locator chain. */
  ghost predicate SameButChain(a: Body, b: Body) {
    a.(action := a.action.(chain := [])) == b.(action := b.action.(chain := []))
  }

  predicate Poolable(p: Policy, body: Body) {
    && !p.literal(body.assertion)
    && (|PoolSafe(p, body.action.chain)| > 0 || body.topology.Some?)
  }

  lemma PoolRowBuilt(p: Policy, c: Candidate)
    requires Lawful(p)
    ensures var r := BuildPoolRow(p, c);
      && r.Ok? && SameButChain(r.value.body, c.body)
      && (r.value.poolEligible ==> Shareable(p, r.value))
      && (r.value.poolEligible <==> Poolable(p, c.body))
  {
    PoolSafeIsClean(p, c.body.action.chain);
    assert Refusal([TOPOLOGY]).None?;
  }

  /**
   * The gatekeeper refuses exactly the callers who claimed eligibility the row lacks; its re-checks never fire.
   * What it lets through as eligible is shareable.
   */
  lemma RefusedIffOverclaimed(p: Policy, c: Candidate)
    requires Lawful(p)
    ensures BuildPoolRow(p, c).Ok?
    ensures WriteCacheRow(p, c).Err? <==> c.claim == Some(true) && !BuildPoolRow(p, c).value.poolEligible
    ensures WriteCacheRow(p, c).Ok? ==>
      BuildPoolRow(p, c) == WriteCacheRow(p, c) && SameButChain(WriteCacheRow(p, c).value.body, c.body)
    ensures WriteCacheRow(p, c).Ok? && WriteCacheRow(p, c).value.poolEligible ==> Shareable(p, WriteCacheRow(p, c).value)
    ensures WriteCacheRowPair(p, c).Ok? <==> WriteCacheRow(p, c).Ok?
  {
    PoolRowBuilt(p, c);
  }

  /** Pooling the tenant copy gives what pooling the original gives. */
  lemma PoolOfTenant(p: Policy, c: Candidate)
    requires Lawful(p)
    ensures BuildPoolRow(p, AsCandidate(BuildTenantRow(p, c))) == BuildPoolRow(p, c)
  {
    TenantChainStays(p, c.body.action.chain);
  }

  /** The tenant copy is its own tenant copy. */
  lemma TenantOfTenant(p: Policy, c: Candidate)
    requires Lawful(p)
    ensures BuildTenantRow(p, AsCandidate(BuildTenantRow(p, c))) == BuildTenantRow(p, c)
  {
    TenantChainStays(p, c.body.action.chain);
  }

  lemma PoolChainStays(p: Policy, c: Candidate)
    requires Lawful(p) && BuildPoolRow(p, c).Ok?
    ensures var row := BuildPoolRow(p, c).value;
      if row.poolEligible
      then PoolSafe(p, row.body.action.chain) == row.body.action.chain && |row.body.action.chain| > 0
        && Refusal(row.body.action.chain).None? && row.reason == None
      else row.body.action.chain == []
  {
    PoolSafeIsClean(p, c.body.action.chain);
    assert [TOPOLOGY][..0] == [] && Mark(TOPOLOGY, false) == TOPOLOGY;
    assert PoolSafe(p, [TOPOLOGY]) == [TOPOLOGY];
    assert Refusal([TOPOLOGY]).None?;
  }

  /**
   * Writing a pool row again never changes its eligibility or its chain. Its recorded reason survives exactly when
   * it is one that does not depend on the locators the first write dropped.
   */
  lemma RewritingPoolRow(p: Policy, c: Candidate)
    requires Lawful(p)
    ensures BuildPoolRow(p, c).Ok?
    ensures var row := BuildPoolRow(p, c).value;
      var again := WriteCacheRow(p, AsCandidate(row));
      && again.Ok? && again.value.body == row.body && again.value.poolEligible == row.poolEligible
      && (again.value == row <==> row.reason in {None, Some(LiteralInAssertion), Some(Other)})
  {
    PoolRowBuilt(p, c);
    PoolChainStays(p, c);
    var row := BuildPoolRow(p, c).value;
    SameChainSameBody(row.body);
    RefusedIffOverclaimed(p, AsCandidate(row));
    if !row.poolEligible {
      assert PoolSafe(p, []) == [] && FirstReason(p, []) == None;
    }
  }

  lemma SameChainSameBody(b: Body)
    ensures b.(action := b.action.(chain := b.action.chain)) == b
  {
  }

  // ---- what is written, in full ----

  /** With `ClassifyConcat`: a clean locator goes to the pool half, marked shareable, a tainted one to the tenant half. */
  lemma ClassifyOne(p: Policy, l: Locator)
    ensures PoolSafe(p, [l]) == if p.check(l) == [] then [l.(tenantScoped := Some(false))] else []
    ensures TenantOnly(p, [l]) == if p.check(l) == [] then [] else [l.(tenantScoped := Some(true))]
  {
    assert [l][..0] == [];
  }

  /** The tainted locator whose reason counts is the first one. */
  predicate FirstTainted(p: Policy, chain: seq<Locator>, k: int) {
    0 <= k < |chain| && p.check(chain[k]) != [] && forall i | 0 <= i < k :: p.check(chain[i]) == []
  }

  lemma {:induction false} HalvesEmptyIff(p: Policy, chain: seq<Locator>)
    ensures PoolSafe(p, chain) == [] <==> forall i | 0 <= i < |chain| :: p.check(chain[i]) != []
    ensures TenantOnly(p, chain) == [] <==> forall i | 0 <= i < |chain| :: p.check(chain[i]) == []
  {
    if |chain| > 0 {
      var front := chain[..|chain| - 1];
      HalvesEmptyIff(p, front);
      assert forall i | 0 <= i < |front| :: chain[i] == front[i];
    }
  }

  lemma {:induction false} FirstReasonIs(p: Policy, chain: seq<Locator>, k: int)
    requires FirstTainted(p, chain, k)
    ensures FirstReason(p, chain) == Some(PoolReason(p.check(chain[k])))
  {
    var n := |chain| - 1;
    if k < n {
      assert forall i | 0 <= i < n :: chain[i] == chain[..n][i];
      FirstReasonIs(p, chain[..n], k);
    } else {
      NoReasonInFront(p, chain[..n]);
    }
  }

  lemma {:induction false} NoReasonInFront(p: Policy, chain: seq<Locator>)
    requires forall i | 0 <= i < |chain| :: p.check(chain[i]) == []
    ensures FirstReason(p, chain).None?
  {
    if |chain| > 0 {
      NoReasonInFront(p, chain[..|chain| - 1]);
    }
  }

  lemma SomeTaintedHasReason(p: Policy, chain: seq<Locator>)
    requires TenantOnly(p, chain) != []
    ensures FirstReason(p, chain).Some?
    ensures forall k | FirstTainted(p, chain, k) :: FirstReason(p, chain) == Some(PoolReason(p.check(chain[k])))
  {
    ReasonWhenTainted(p, chain);
    forall k | FirstTainted(p, chain, k) ensures FirstReason(p, chain) == Some(PoolReason(p.check(chain[k]))) {
      FirstReasonIs(p, chain, k);
    }
  }

  lemma {:induction false} ReasonWhenTainted(p: Policy, chain: seq<Locator>)
    ensures FirstReason(p, chain).Some? <==> TenantOnly(p, chain) != []
  {
    if |chain| > 0 {
      ReasonWhenTainted(p, chain[..|chain| - 1]);
    }
  }

  /** Why a row may not be shared, from its assertion and its chain. */
  ghost predicate ReasonSays(p: Policy, c: Candidate, ifAllTainted: Option<Reason>, reason: Option<Reason>) {
    var chain := c.body.action.chain;
    if p.literal(c.body.assertion) then reason == Some(LiteralInAssertion)
    else if chain != [] && ifAllTainted.Some? && (forall i | 0 <= i < |chain| :: p.check(chain[i]) != []) then reason == ifAllTainted
    else if exists i :: 0 <= i < |chain| && p.check(chain[i]) != [] then
      forall k | FirstTainted(p, chain, k) :: reason == Some(PoolReason(p.check(chain[k])))
    else reason == Some(Other)
  }

  /** Both copies of a row: which may be shared, which locators each keeps, and what reason is recorded. */
  lemma CopiesSay(p: Policy, c: Candidate)
    requires Lawful(p)
    ensures BuildPoolRow(p, c).Ok?
    ensures var chain := c.body.action.chain;
      var someClean := exists i :: 0 <= i < |chain| && p.check(chain[i]) == [];
      var pool, tenant := BuildPoolRow(p, c).value, BuildTenantRow(p, c);
      && (pool.poolEligible <==> !p.literal(c.body.assertion) && (someClean || c.body.topology.Some?))
      && pool.body == c.body.(action := c.body.action.(chain :=
           if !pool.poolEligible then [] else if someClean then PoolSafe(p, chain) else [TOPOLOGY]))
      && (if pool.poolEligible then pool.reason == None else ReasonSays(p, c, None, pool.reason))
      && !tenant.poolEligible && ReasonSays(p, c, Some(TopologyOnlyDegraded), tenant.reason)
      && tenant.body == c.body.(action := c.body.action.(chain := PoolSafe(p, chain) + TenantOnly(p, chain)))
  {
    var chain := c.body.action.chain;
    PoolRowBuilt(p, c);
    HalvesEmptyIff(p, chain);
    ReasonWhenTainted(p, chain);
    if TenantOnly(p, chain) != [] {
      SomeTaintedHasReason(p, chain);
    }
  }
}
