/**
 * A compiled bundle into the cache, all or nothing, and what a resolver then finds, in this process and in the next.
 */
module Ingest {
  import opened Wrappers
  import opened CacheTypes
  import opened Taint
  import opened Write
  import opened Store
  import opened Reload
  import opened Resolve
  import opened Decimal

  datatype Bundle = Bundle(siteKey: string, taskKey: string, rows: seq<Candidate>)

  datatype IngestError =
    | MissingProgramRef(steps: seq<int>)
    | MixedPrograms
    | Refused(step: int, reason: Reason)

  datatype Tally = Tally(poolEligible: nat, tenantOnly: seq<(int, Reason)>, widened: seq<int>)

  datatype Summary = Summary(programId: Option<string>, steps: nat, tally: Tally)

  function StepsWithoutRef(rows: seq<Candidate>): (r: seq<int>)
    ensures r == [] <==> forall i | 0 <= i < |rows| :: rows[i].body.program.Some?
  {
    if |rows| == 0 then []
    else (if rows[0].body.program.None? then [rows[0].body.stepIndex] else []) + StepsWithoutRef(rows[1..])
  }

  function ProgramIdOf(c: Candidate): Option<string> {
    if c.body.program.Some? then Some(c.body.program.value.programId) else None
  }

  /** Every row names a program, and they all name the same one. */
  predicate Resolvable(rows: seq<Candidate>) {
    && (forall i | 0 <= i < |rows| :: rows[i].body.program.Some?)
    && (forall i | 0 <= i < |rows| :: ProgramIdOf(rows[i]) == ProgramIdOf(rows[0]))
  }

  /** What `ingestBundle` accepts: a resolvable bundle none of whose rows claims more than it earns. */
  predicate Accepts(p: Policy, rows: seq<Candidate>) {
    Resolvable(rows) && forall i | 0 <= i < |rows| :: WriteCacheRowPair(p, rows[i]).Ok?
  }

  /** The rows an accepted bundle appends: for each step the pool copy, then the tenant copy. */
  function Written(p: Policy, rows: seq<Candidate>): seq<CacheRow>
    requires forall i | 0 <= i < |rows| :: WriteCacheRowPair(p, rows[i]).Ok?
  {
    if |rows| == 0 then []
    else
      var last := WriteCacheRowPair(p, rows[|rows| - 1]).value;
      Written(p, rows[..|rows| - 1]) + [last.pool, last.tenant]
  }

  /** One more row accounted for. A row the compiler called ineligible and the authority did not is `widened`. */
  function Count(t: Tally, c: Candidate, pool: CacheRow): Tally {
    if pool.poolEligible then
      t.(poolEligible := t.poolEligible + 1,
         widened := if c.claim == Some(false) then t.widened + [c.body.stepIndex] else t.widened)
    else
      t.(tenantOnly := t.tenantOnly + [(c.body.stepIndex, if pool.reason.Some? then pool.reason.value else Other)])
  }

  function TallyOf(rows: seq<Candidate>, pools: seq<CacheRow>): Tally
    requires |rows| == |pools|
  {
    if |rows| == 0 then Tally(0, [], [])
    else Count(TallyOf(rows[..|rows| - 1], pools[..|pools| - 1]), rows[|rows| - 1], pools[|pools| - 1])
  }

  /** Every step is counted once, and a widened step is one the caller denied and the authority granted. */
  lemma {:induction false} TallyAdds(rows: seq<Candidate>, pools: seq<CacheRow>)
    requires |rows| == |pools|
    ensures var t := TallyOf(rows, pools);
      && t.poolEligible + |t.tenantOnly| == |rows|
      && forall step :: step in t.widened <==> exists i :: 0 <= i < |rows| && IsWidened(rows[i], pools[i], step)
  {
    if |rows| > 0 {
      var n := |rows| - 1;
      var front, fronts := rows[..n], pools[..n];
      TallyAdds(front, fronts);
      var t, s := TallyOf(rows, pools), TallyOf(front, fronts);
      forall step ensures step in t.widened <==> exists i :: 0 <= i < |rows| && IsWidened(rows[i], pools[i], step) {
        if step in s.widened {
          var i :| 0 <= i < n && IsWidened(front[i], fronts[i], step);
          assert IsWidened(rows[i], pools[i], step);
        }
        if IsWidened(rows[n], pools[n], step) {
          assert step in t.widened;
        }
        if exists i :: 0 <= i < n && IsWidened(rows[i], pools[i], step) {
          var i :| 0 <= i < n && IsWidened(rows[i], pools[i], step);
          assert IsWidened(front[i], fronts[i], step);
        }
      }
    }
  }

  predicate KeptHome(c: Candidate, pool: CacheRow, entry: (int, Reason)) {
    !pool.poolEligible && entry == (c.body.stepIndex, match pool.reason case Some(reason) => reason case None => Other)
  }

  /** The steps kept from the pool are listed with their recorded reasons. */
  lemma {:induction false} TenantOnlyAre(rows: seq<Candidate>, pools: seq<CacheRow>, entry: (int, Reason))
    requires |rows| == |pools|
    ensures entry in TallyOf(rows, pools).tenantOnly <==> exists i :: 0 <= i < |rows| && KeptHome(rows[i], pools[i], entry)
  {
    if |rows| > 0 {
      var n := |rows| - 1;
      var front, fronts := rows[..n], pools[..n];
      TenantOnlyAre(front, fronts, entry);
      assert forall i | 0 <= i < n :: front[i] == rows[i] && fronts[i] == pools[i];
      if entry in TallyOf(front, fronts).tenantOnly {
        var i :| 0 <= i < n && KeptHome(front[i], fronts[i], entry);
        assert KeptHome(rows[i], pools[i], entry);
      }
      if exists i :: 0 <= i < n && KeptHome(rows[i], pools[i], entry) {
        var i :| 0 <= i < n && KeptHome(rows[i], pools[i], entry);
        assert KeptHome(front[i], fronts[i], entry);
      }
    }
  }

  predicate IsWidened(c: Candidate, pool: CacheRow, step: int) {
    c.body.stepIndex == step && c.claim == Some(false) && pool.poolEligible
  }

  /** The verdicts on an accepted bundle's rows. */
  function PairsOf(p: Policy, rows: seq<Candidate>): (r: seq<Pair>)
    requires forall i | 0 <= i < |rows| :: WriteCacheRowPair(p, rows[i]).Ok?
    ensures |r| == |rows| && forall i | 0 <= i < |rows| :: r[i] == WriteCacheRowPair(p, rows[i]).value
  {
    seq(|rows|, i requires 0 <= i < |rows| => WriteCacheRowPair(p, rows[i]).value)
  }

  function Pools(pairs: seq<Pair>): (r: seq<CacheRow>)
    ensures |r| == |pairs| && forall i | 0 <= i < |pairs| :: r[i] == pairs[i].pool
  {
    seq(|pairs|, i requires 0 <= i < |pairs| => pairs[i].pool)
  }

  function Flatten(pairs: seq<Pair>): seq<CacheRow> {
    if |pairs| == 0 then [] else Flatten(pairs[..|pairs| - 1]) + [pairs[|pairs| - 1].pool, pairs[|pairs| - 1].tenant]
  }

  lemma {:induction false} WrittenIsFlat(p: Policy, rows: seq<Candidate>)
    requires forall i | 0 <= i < |rows| :: WriteCacheRowPair(p, rows[i]).Ok?
    ensures Flatten(PairsOf(p, rows)) == Written(p, rows)
  {
    if |rows| > 0 {
      assert PairsOf(p, rows)[..|rows| - 1] == PairsOf(p, rows[..|rows| - 1]);
      WrittenIsFlat(p, rows[..|rows| - 1]);
    }
  }

  /** Every row names a program, and all of them the same one. */
  predicate OneProgram(rows: seq<Candidate>) {
    forall i | 0 <= i < |rows| ::
      rows[i].body.program.Some? && rows[0].body.program.Some?
        && rows[i].body.program.value.programId == rows[0].body.program.value.programId
  }

  predicate LacksRef(c: Candidate, step: int) {
    c.body.program.None? && c.body.stepIndex == step
  }

  predicate FirstRefused(p: Policy, rows: seq<Candidate>, k: int, step: int, reason: Reason) {
    && 0 <= k < |rows| && rows[k].body.stepIndex == step && WriteCacheRowPair(p, rows[k]) == Err(reason)
    && forall i | 0 <= i < k :: WriteCacheRowPair(p, rows[i]).Ok?
  }

  /** Why a bundle is refused: rows without a program first, then rows of several programs, then the first refused row. */
  ghost predicate ErrorSays(p: Policy, rows: seq<Candidate>, e: IngestError) {
    match e
    case MissingProgramRef(steps) =>
      steps != [] && forall step :: step in steps <==> exists i :: 0 <= i < |rows| && LacksRef(rows[i], step)
    case MixedPrograms =>
      && (forall i | 0 <= i < |rows| :: rows[i].body.program.Some?)
      && exists i, j :: 0 <= i < |rows| && 0 <= j < |rows| && ProgramIdOf(rows[i]) != ProgramIdOf(rows[j])
    case Refused(step, reason) => Resolvable(rows) && exists k :: FirstRefused(p, rows, k, step, reason)
  }

  lemma {:induction false} MissingAre(rows: seq<Candidate>, step: int)
    ensures step in StepsWithoutRef(rows) <==> exists i :: 0 <= i < |rows| && LacksRef(rows[i], step)
  {
    if |rows| > 0 {
      MissingAre(rows[1..], step);
      if exists i :: 0 <= i < |rows[1..]| && LacksRef(rows[1..][i], step) {
        var i :| 0 <= i < |rows[1..]| && LacksRef(rows[1..][i], step);
        assert LacksRef(rows[i + 1], step);
      }
      forall i | 0 < i < |rows| && LacksRef(rows[i], step) ensures exists k :: 0 <= k < |rows[1..]| && LacksRef(rows[1..][k], step) {
        assert LacksRef(rows[1..][i - 1], step);
      }
    }
  }

  /** The first pass: every row is decided, nothing is persisted. */
  method Decide(p: Policy, rows: seq<Candidate>) returns (r: Result<seq<Pair>, IngestError>)
    ensures r.Ok? <==> Accepts(p, rows)
    ensures r.Ok? ==> r.value == PairsOf(p, rows)
    ensures r.Err? ==> ErrorSays(p, rows, r.error)
    ensures r.Ok? ==> OneProgram(rows)
  {
    var missing := StepsWithoutRef(rows);
    if missing != [] {
      forall step ensures step in missing <==> exists i :: 0 <= i < |rows| && LacksRef(rows[i], step) {
        MissingAre(rows, step);
      }
      return Err(MissingProgramRef(missing));
    }
    if exists i | 0 <= i < |rows| :: ProgramIdOf(rows[i]) != ProgramIdOf(rows[0]) {
      return Err(MixedPrograms);
    }
    var decided: seq<Pair> := [];
    for k := 0 to |rows|
      invariant |decided| == k
      invariant forall i | 0 <= i < k :: WriteCacheRowPair(p, rows[i]).Ok? && decided[i] == WriteCacheRowPair(p, rows[i]).value
    {
      var outcome := WriteCacheRowPair(p, rows[k]);
      if outcome.Err? {
        assert FirstRefused(p, rows, k, rows[k].body.stepIndex, outcome.error);
        return Err(Refused(rows[k].body.stepIndex, outcome.error));
      }
      decided := decided + [outcome.value];
    }
    r := Ok(decided);
  }

  method WritePair(store: JsonlCacheStore, pair: Pair)
    requires store.Valid()
    modifies store
    ensures store.Valid() && (old(store.Faithful()) ==> store.Faithful())
    ensures store.history == old(store.history) + [pair.pool, pair.tenant]
  {
    ghost var before := store.history;
    store.Write(pair.pool);
    store.Write(pair.tenant);
    assert before + [pair.pool] + [pair.tenant] == before + [pair.pool, pair.tenant];
  }

  lemma PersistNext(rows: seq<Candidate>, pairs: seq<Pair>, pools: seq<CacheRow>, k: nat, before: seq<CacheRow>)
    requires k < |rows| == |pairs| == |pools| && pools[k] == pairs[k].pool
    ensures before + Flatten(pairs[..k + 1]) == before + Flatten(pairs[..k]) + [pairs[k].pool, pairs[k].tenant]
    ensures TallyOf(rows[..k + 1], pools[..k + 1]) == Count(TallyOf(rows[..k], pools[..k]), rows[k], pairs[k].pool)
  {
    assert rows[..k + 1][..k] == rows[..k] && pools[..k + 1][..k] == pools[..k] && pairs[..k + 1][..k] == pairs[..k];
  }

  /** The second pass. The authority is a function, so asking it again gives the verdicts already in hand. */
  method Persist(rows: seq<Candidate>, pairs: seq<Pair>, store: JsonlCacheStore) returns (tally: Tally)
    requires store.Valid() && |pairs| == |rows|
    modifies store
    ensures store.Valid() && (old(store.Faithful()) ==> store.Faithful())
    ensures store.history == old(store.history) + Flatten(pairs)
    ensures tally == TallyOf(rows, Pools(pairs))
  {
    var pools := Pools(pairs);
    tally := Tally(0, [], []);
    for k := 0 to |rows|
      invariant store.Valid() && (old(store.Faithful()) ==> store.Faithful())
      invariant store.history == old(store.history) + Flatten(pairs[..k])
      invariant tally == TallyOf(rows[..k], pools[..k])
    {
      WritePair(store, pairs[k]);
      PersistNext(rows, pairs, pools, k, old(store.history));
      tally := Count(tally, rows[k], pairs[k].pool);
    }
    assert rows[..|rows|] == rows && pools[..|rows|] == pools && pairs[..|rows|] == pairs;
  }

  method IngestBundle(p: Policy, bundle: Bundle, store: JsonlCacheStore) returns (r: Result<Summary, IngestError>)
    requires store.Valid()
    modifies store
    ensures store.Valid() && (old(store.Faithful()) ==> store.Faithful())
    ensures r.Ok? <==> Accepts(p, bundle.rows)
    ensures r.Err? ==> unchanged(store) && ErrorSays(p, bundle.rows, r.error)
    ensures r.Ok? ==> OneProgram(bundle.rows)
    ensures r.Ok? ==> r.value.programId == if |bundle.rows| > 0 then Some(bundle.rows[0].body.program.value.programId) else None
    ensures r.Ok? ==> store.history == old(store.history) + Written(p, bundle.rows)
    ensures r.Ok? ==> r.value.steps == |bundle.rows| && r.value.tally == TallyOf(bundle.rows, Pools(PairsOf(p, bundle.rows)))
  {
    var decided := Decide(p, bundle.rows);
    if decided.Err? {
      return Err(decided.error);
    }
    WrittenIsFlat(p, bundle.rows);
    var tally := Persist(bundle.rows, decided.value, store);
    r := Ok(Summary(if |bundle.rows| > 0 then ProgramIdOf(bundle.rows[0]) else None, |bundle.rows|, tally));
  }

  /** Refusal has one cause besides a missing or mixed program reference: a claim the authority does not grant. */
  lemma AcceptedIffNoOverclaim(p: Policy, rows: seq<Candidate>)
    requires Lawful(p)
    ensures Accepts(p, rows) <==>
      (Resolvable(rows) && forall i | 0 <= i < |rows| :: rows[i].claim == Some(true) ==> Poolable(p, rows[i].body))
  {
    forall i | 0 <= i < |rows|
      ensures WriteCacheRowPair(p, rows[i]).Ok? <==> (rows[i].claim == Some(true) ==> Poolable(p, rows[i].body))
    {
      RefusedIffOverclaimed(p, rows[i]);
      PoolRowBuilt(p, rows[i]);
    }
  }

  // ---- what is current after an ingest ----

  function StepKey(key: ProgramKey, step: int): string {
    CacheKeyString(CacheKey(key.siteKey, key.taskKey, step))
  }

  /** Steps of one task never share a key string. */
  lemma StepKeyInjective(key: ProgramKey, i: int, j: int)
    requires StepKey(key, i) == StepKey(key, j)
    ensures i == j
  {
    var front := key.siteKey + NUL + key.taskKey + NUL;
    assert StepKey(key, i)[|front|..] == IntText(i) && StepKey(key, j)[|front|..] == IntText(j);
    IntTextInjective(i, j);
  }

  /** A bundle that is one whole program: steps `0..n-1`, one task, one id, one length. */
  ghost predicate IsProgramBundle(rows: seq<Candidate>, key: ProgramKey, id: string) {
    && |rows| >= 1
    && (forall i | 0 <= i < |rows| :: IsStepOf(rows[i].body, key, id, |rows|))
    && (forall i, j | 0 <= i < j < |rows| :: rows[i].body.stepIndex != rows[j].body.stepIndex)
  }

  ghost predicate IsStepOf(b: Body, key: ProgramKey, id: string, n: int) {
    && b.siteKey == key.siteKey && b.taskKey == key.taskKey && 0 <= b.stepIndex < n
    && b.program.Some? && b.program.value.programId == id && b.program.value.stepsTotal == n
  }

  /** The tenant copy of the step, if the bundle has it. */
  function TenantOf(p: Policy, rows: seq<Candidate>, step: int): Option<CacheRow> {
    if |rows| == 0 then None
    else if rows[|rows| - 1].body.stepIndex == step then Some(BuildTenantRow(p, rows[|rows| - 1]))
    else TenantOf(p, rows[..|rows| - 1], step)
  }

  /** Every row of the bundle has its two copies. */
  predicate AllDecided(p: Policy, rows: seq<Candidate>) {
    forall i | 0 <= i < |rows| :: WriteCacheRowPair(p, rows[i]).Ok?
  }

  /** The pool copy of the step, if the bundle has it and it may be pooled. */
  function PoolOf(p: Policy, rows: seq<Candidate>, step: int): Option<CacheRow>
    requires AllDecided(p, rows)
  {
    if |rows| == 0 then None
    else
      var pool := WriteCacheRowPair(p, rows[|rows| - 1]).value.pool;
      if rows[|rows| - 1].body.stepIndex == step && pool.poolEligible then Some(pool)
      else PoolOf(p, rows[..|rows| - 1], step)
  }

  ghost predicate OfTask(rows: seq<Candidate>, key: ProgramKey) {
    forall i | 0 <= i < |rows| :: rows[i].body.siteKey == key.siteKey && rows[i].body.taskKey == key.taskKey
  }

  lemma PairKeys(p: Policy, c: Candidate, key: ProgramKey)
    requires Lawful(p) && WriteCacheRowPair(p, c).Ok? && c.body.siteKey == key.siteKey && c.body.taskKey == key.taskKey
    ensures var pair := WriteCacheRowPair(p, c).value;
      && KeyText(pair.pool) == KeyText(pair.tenant) == StepKey(key, c.body.stepIndex)
      && !pair.tenant.poolEligible && pair.tenant == BuildTenantRow(p, c)
  {
    RefusedIffOverclaimed(p, c);
  }

  /**
   * Under each step's key the last row written is its tenant copy, in the merged order and among tenant rows; among
   * pool rows it is the pool copy.
   */
  lemma {:induction false} WrittenLast(p: Policy, rows: seq<Candidate>, key: ProgramKey, step: int)
    requires Lawful(p) && OfTask(rows, key) && AllDecided(p, rows)
    ensures LastFor(Written(p, rows), KeyText, StepKey(key, step)) == TenantOf(p, rows, step)
    ensures LastOf(Written(p, rows), StepKey(key, step), false) == TenantOf(p, rows, step)
    ensures LastOf(Written(p, rows), StepKey(key, step), true) == PoolOf(p, rows, step)
  {
    if |rows| > 0 {
      var front, c := rows[..|rows| - 1], rows[|rows| - 1];
      WrittenLast(p, front, key, step);
      PairKeys(p, c, key);
      LastOfPair(Written(p, front), WriteCacheRowPair(p, c).value, StepKey(key, step));
      if StepKey(key, c.body.stepIndex) == StepKey(key, step) {
        StepKeyInjective(key, c.body.stepIndex, step);
      }
    }
  }

  /** Two rows under one key, the second tenant-scoped, appended to a history. */
  lemma LastOfPair(w: seq<CacheRow>, pair: Pair, k: string)
    requires KeyText(pair.pool) == KeyText(pair.tenant) && !pair.tenant.poolEligible
    ensures var h := w + [pair.pool, pair.tenant];
      if KeyText(pair.tenant) == k
      then
        && LastFor(h, KeyText, k) == Some(pair.tenant) && LastOf(h, k, false) == Some(pair.tenant)
        && LastOf(h, k, true) == (if pair.pool.poolEligible then Some(pair.pool) else LastOf(w, k, true))
      else LastFor(h, KeyText, k) == LastFor(w, KeyText, k) && forall e :: LastOf(h, k, e) == LastOf(w, k, e)
  {
    var one := w + [pair.pool];
    var h := w + [pair.pool, pair.tenant];
    assert h[..|h| - 1] == one && one[..|w|] == w;
    forall e: bool ensures LastOf(h, k, e)
      == if SplitKeyText(pair.tenant) == SplitText(k, e) then Some(pair.tenant)
         else if SplitKeyText(pair.pool) == SplitText(k, e) then Some(pair.pool) else LastOf(w, k, e)
    {
      assert LastOf(h, k, e) == if SplitKeyText(pair.tenant) == SplitText(k, e) then Some(pair.tenant) else LastOf(one, k, e);
    }
    forall e: bool ensures SplitKeyText(pair.tenant) == SplitText(k, e) <==> KeyText(pair.tenant) == k && e == false {
      if SplitKeyText(pair.tenant) == SplitText(k, e) {
        SplitTextInjective(KeyText(pair.tenant), k, false, e);
      }
    }
    forall e: bool ensures SplitKeyText(pair.pool) == SplitText(k, e) <==> KeyText(pair.pool) == k && e == pair.pool.poolEligible {
      if SplitKeyText(pair.pool) == SplitText(k, e) {
        SplitTextInjective(KeyText(pair.pool), k, pair.pool.poolEligible, e);
      }
    }
  }

  lemma {:induction false} BundleHasStep(p: Policy, rows: seq<Candidate>, i: nat)
    requires i < |rows| && forall a, b | 0 <= a < b < |rows| :: rows[a].body.stepIndex != rows[b].body.stepIndex
    ensures TenantOf(p, rows, rows[i].body.stepIndex) == Some(BuildTenantRow(p, rows[i]))
  {
    if i < |rows| - 1 {
      BundleHasStep(p, rows[..|rows| - 1], i);
    }
  }

  lemma {:induction false} TenantComesFromBundle(p: Policy, rows: seq<Candidate>, step: int)
    ensures TenantOf(p, rows, step).Some? ==>
      exists i :: 0 <= i < |rows| && rows[i].body.stepIndex == step && TenantOf(p, rows, step) == Some(BuildTenantRow(p, rows[i]))
  {
    if |rows| > 0 && rows[|rows| - 1].body.stepIndex != step {
      TenantComesFromBundle(p, rows[..|rows| - 1], step);
      if TenantOf(p, rows, step).Some? {
        var i :| 0 <= i < |rows| - 1 && rows[..|rows| - 1][i].body.stepIndex == step
          && TenantOf(p, rows, step) == Some(BuildTenantRow(p, rows[..|rows| - 1][i]));
        assert rows[i].body.stepIndex == step;
      }
    }
  }

  /** `n` distinct steps out of `0..n-1` are all of them. */
  lemma {:induction false} EveryStepPresent(rows: seq<Candidate>, n: nat, step: int)
    requires |rows| == n && 0 <= step < n
    requires forall i | 0 <= i < |rows| :: 0 <= rows[i].body.stepIndex < n
    requires forall i, j | 0 <= i < j < |rows| :: rows[i].body.stepIndex != rows[j].body.stepIndex
    ensures exists i :: 0 <= i < |rows| && rows[i].body.stepIndex == step
  {
    var steps := seq(n, i requires 0 <= i < n => rows[i].body.stepIndex);
    FullRange(steps, n);
    assert step in steps;
    var i :| 0 <= i < n && steps[i] == step;
    assert rows[i].body.stepIndex == step;
  }

  /** Pigeonhole: distinct numbers below `n`, as many as there are. */
  lemma {:induction false} FullRange(s: seq<int>, n: nat)
    requires |s| == n && (forall i | 0 <= i < n :: 0 <= s[i] < n) && forall i, j | 0 <= i < j < n :: s[i] != s[j]
    ensures forall k | 0 <= k < n :: k in s
  {
    if n > 0 {
      var top := n - 1;
      if top in s {
        var t :| 0 <= t < n && s[t] == top;
        var rest := s[..t] + s[t + 1..];
        FullRange(rest, top);
        assert forall k | 0 <= k < top :: k in rest ==> k in s;
      } else {
        TooMany(s, top);
      }
    }
  }

  lemma {:induction false} TooMany(s: seq<int>, n: nat)
    requires |s| > n && forall i, j | 0 <= i < j < |s| :: s[i] != s[j]
    ensures exists i :: 0 <= i < |s| && !(0 <= s[i] < n)
  {
    if n == 0 {
      assert !(0 <= s[0] < 0);
    } else {
      var top := n - 1;
      if top in s {
        var t :| 0 <= t < |s| && s[t] == top;
        var rest := s[..t] + s[t + 1..];
        TooMany(rest, top);
        var i :| 0 <= i < |rest| && !(0 <= rest[i] < top);
        var j := if i < t then i else i + 1;
        assert s[j] == rest[i] && s[j] != top;
      } else {
        TooMany(s, top);
        var i :| 0 <= i < |s| && !(0 <= s[i] < top);
        assert s[i] in s;
      }
    }
  }
}
