/**
 * Ingest, then resolve: what a resolver finds, at either scope, in the process that ingested and in the next one to
 * open the files, whatever the cache and its files held before.
 */
module IngestResolve {
  import opened Wrappers
  import opened CacheTypes
  import opened Taint
  import opened Write
  import opened Store
  import opened Reload
  import opened Resolve
  import opened Ingest

  // ---- what a view shows under each step ----

  /** The row a scope reads under a step. */
  function Answer(h: seq<CacheRow>, key: ProgramKey, step: int, scope: Scope): Option<CacheRow> {
    if scope == PoolOnly then LastOf(h, StepKey(key, step), true) else LastFor(h, KeyText, StepKey(key, step))
  }

  /** A row the view shows: the one its scope reads under its step, of this task. */
  ghost predicate Shown(row: CacheRow, h: seq<CacheRow>, key: ProgramKey, scope: Scope) {
    && row.body.siteKey == key.siteKey && row.body.taskKey == key.taskKey
    && Answer(h, key, row.body.stepIndex, scope) == Some(row)
  }

  lemma ViewShows(view: seq<CacheRow>, h: seq<CacheRow>, key: ProgramKey, scope: Scope, row: CacheRow)
    requires IsView(view, h, key, scope)
    ensures row in view <==> Shown(row, h, key, scope)
  {
    if row.body.siteKey == key.siteKey && row.body.taskKey == key.taskKey {
      assert KeyText(row) == StepKey(key, row.body.stepIndex);
      if scope == PoolOnly && Shown(row, h, key, scope) {
        LastForIsThere(h, SplitKeyText, SplitText(KeyText(row), true));
        SplitTextInjective(KeyText(row), KeyText(row), row.poolEligible, true);
      }
    }
  }

  /** `after` shows `cells` under steps `0..n-1` and what `before` shows elsewhere. */
  ghost predicate Overlays(
    before: seq<CacheRow>, after: seq<CacheRow>, cells: seq<Option<CacheRow>>, key: ProgramKey, scope: Scope)
  {
    forall step :: Answer(after, key, step, scope)
      == if 0 <= step < |cells| then cells[step] else Answer(before, key, step, scope)
  }

  /** The cells are the steps of one whole program. */
  ghost predicate AreSteps(cells: seq<Option<CacheRow>>, key: ProgramKey, id: string) {
    forall i | 0 <= i < |cells| ::
      cells[i].Some? && IsStepOf(cells[i].value.body, key, id, |cells|) && cells[i].value.body.stepIndex == i
  }

  /** No row beyond the bundle's steps still carries its program id. A caller can check this before ingesting. */
  ghost predicate NoLeftover(h: seq<CacheRow>, key: ProgramKey, id: string, n: int, scope: Scope) {
    forall row | Shown(row, h, key, scope) && BelongsTo(row, id) :: 0 <= row.body.stepIndex < n
  }

  /** The answer is program `id`, `n` steps long. */
  predicate Names(r: Resolution, id: string, n: nat) {
    r.Hit? && r.programId == id && r.stepsTotal == |r.rows| == n
  }

  /**
   * What a resolution finds where `cells` stand: that program of that length, if and only if the cells are its steps
   * and nothing is left over; then cell by cell; and nothing else once they are.
   */
  ghost predicate Finds(r: Resolution, cells: seq<Option<CacheRow>>, key: ProgramKey, id: string, clear: bool) {
    && (Names(r, id, |cells|) <==> AreSteps(cells, key, id) && clear)
    && (Names(r, id, |cells|) ==> forall i | 0 <= i < |cells| :: cells[i] == Some(r.rows[i]))
    && (AreSteps(cells, key, id) && r.Hit? ==> Names(r, id, |cells|))
  }

  lemma WholeIfClear(
    view: seq<CacheRow>, before: seq<CacheRow>, after: seq<CacheRow>, cells: seq<Option<CacheRow>>,
    key: ProgramKey, id: string, scope: Scope)
    requires Overlays(before, after, cells, key, scope) && IsView(view, after, key, scope) && |cells| > 0
    requires AreSteps(cells, key, id) && NoLeftover(before, key, id, |cells|, scope)
    ensures WholeOf(view, id, |cells|)
  {
    forall i | 0 <= i < |cells| ensures HasStep(view, id, i) {
      ViewShows(view, after, key, scope, cells[i].value);
      assert BelongsTo(cells[i].value, id);
    }
    forall row | row in view && BelongsTo(row, id)
      ensures row.body.program.value.stepsTotal == |cells| && 0 <= row.body.stepIndex < |cells|
    {
      ViewShows(view, after, key, scope, row);
      assert !(0 <= row.body.stepIndex < |cells|) ==> Shown(row, before, key, scope);
    }
  }

  /** A program of that many steps found in the view is made of the cells, and nothing else carries its id. */
  lemma FoundIsCells(
    view: seq<CacheRow>, r: Resolution, before: seq<CacheRow>, after: seq<CacheRow>, cells: seq<Option<CacheRow>>,
    key: ProgramKey, id: string, scope: Scope)
    requires Overlays(before, after, cells, key, scope) && IsView(view, after, key, scope) && Answers(r, view)
    requires Names(r, id, |cells|)
    ensures AreSteps(cells, key, id) && NoLeftover(before, key, id, |cells|, scope)
    ensures forall i | 0 <= i < |cells| :: cells[i] == Some(r.rows[i])
  {
    var n := |cells|;
    forall i | 0 <= i < n ensures cells[i] == Some(r.rows[i]) && IsStepOf(r.rows[i].body, key, id, n) && r.rows[i].body.stepIndex == i {
      assert r.rows[i] in view;
      ViewShows(view, after, key, scope, r.rows[i]);
    }
    var m :| m >= 1 && WholeOf(view, id, m);
    assert r.rows[0] in view && BelongsTo(r.rows[0], id);
    forall row | Shown(row, before, key, scope) && BelongsTo(row, id) ensures 0 <= row.body.stepIndex < n {
      ViewShows(view, after, key, scope, row);
      assert !(0 <= row.body.stepIndex < n) ==> row in view;
    }
  }

  /** Whoever holds step 0 is the only program there can be. */
  lemma OnlyThatProgram(
    view: seq<CacheRow>, r: Resolution, before: seq<CacheRow>, after: seq<CacheRow>, cells: seq<Option<CacheRow>>,
    key: ProgramKey, id: string, scope: Scope)
    requires Overlays(before, after, cells, key, scope) && IsView(view, after, key, scope) && Answers(r, view)
    requires |cells| > 0 && AreSteps(cells, key, id) && r.Hit?
    ensures Names(r, id, |cells|)
  {
    assert r.rows[0] in view;
    ViewShows(view, after, key, scope, r.rows[0]);
    assert cells[0] == Some(r.rows[0]);
  }

  /** Older versions and compile times play no part: what is found depends on the cells and on leftover rows alone. */
  lemma ResolvesAfterIngest(
    view: seq<CacheRow>, r: Resolution, before: seq<CacheRow>, after: seq<CacheRow>, cells: seq<Option<CacheRow>>,
    key: ProgramKey, id: string, scope: Scope)
    requires |cells| > 0 && Overlays(before, after, cells, key, scope)
    requires IsView(view, after, key, scope) && Answers(r, view)
    ensures Finds(r, cells, key, id, NoLeftover(before, key, id, |cells|, scope))
  {
    if Names(r, id, |cells|) {
      FoundIsCells(view, r, before, after, cells, key, id, scope);
    }
    if AreSteps(cells, key, id) {
      if NoLeftover(before, key, id, |cells|, scope) {
        WholeIfClear(view, before, after, cells, key, id, scope);
        ViewShows(view, after, key, scope, cells[0].value);
        assert Whole(view, id) && HasRef(cells[0].value);
      }
      if r.Hit? {
        OnlyThatProgram(view, r, before, after, cells, key, id, scope);
      }
    }
  }

  // ---- in the process that ingested ----

  /** The tenant copies, step by step. */
  function Tenants(p: Policy, rows: seq<Candidate>): (cells: seq<Option<CacheRow>>)
    ensures |cells| == |rows| && forall i | 0 <= i < |rows| :: cells[i] == TenantOf(p, rows, i)
  {
    seq(|rows|, i requires 0 <= i < |rows| => TenantOf(p, rows, i))
  }

  /** What pool scope reads: the pool copy of each step that may be pooled, and what was there before of the others. */
  function Pooled(p: Policy, rows: seq<Candidate>, h: seq<CacheRow>, key: ProgramKey): (cells: seq<Option<CacheRow>>)
    requires AllDecided(p, rows)
    ensures |cells| == |rows|
    ensures forall i | 0 <= i < |rows| :: cells[i] == PooledAt(p, rows, h, key, i)
  {
    seq(|rows|, i requires 0 <= i < |rows| => PooledAt(p, rows, h, key, i))
  }

  function PooledAt(p: Policy, rows: seq<Candidate>, h: seq<CacheRow>, key: ProgramKey, step: int): Option<CacheRow>
    requires AllDecided(p, rows)
  {
    if PoolOf(p, rows, step).Some? then PoolOf(p, rows, step) else Answer(h, key, step, PoolOnly)
  }

  lemma TenantStep(p: Policy, rows: seq<Candidate>, key: ProgramKey, id: string, step: int)
    requires Lawful(p) && IsProgramBundle(rows, key, id)
    ensures TenantOf(p, rows, step).Some? <==> 0 <= step < |rows|
    ensures TenantOf(p, rows, step).Some? ==>
      IsStepOf(TenantOf(p, rows, step).value.body, key, id, |rows|) && TenantOf(p, rows, step).value.body.stepIndex == step
  {
    TenantComesFromBundle(p, rows, step);
    if 0 <= step < |rows| {
      EveryStepPresent(rows, |rows|, step);
      var i :| 0 <= i < |rows| && rows[i].body.stepIndex == step;
      BundleHasStep(p, rows, i);
    }
  }

  ghost predicate IsPoolCopy(pool: CacheRow, c: Candidate, step: int) {
    c.body.stepIndex == step && SameButChain(pool.body, c.body)
  }

  lemma {:induction false} PoolComesFromBundle(p: Policy, rows: seq<Candidate>, step: int)
    requires Lawful(p) && AllDecided(p, rows)
    ensures PoolOf(p, rows, step).Some? ==> exists i :: 0 <= i < |rows| && IsPoolCopy(PoolOf(p, rows, step).value, rows[i], step)
  {
    if |rows| > 0 {
      var n := |rows| - 1;
      RefusedIffOverclaimed(p, rows[n]);
      PoolComesFromBundle(p, rows[..n], step);
      if PoolOf(p, rows[..n], step).Some? && PoolOf(p, rows, step) == PoolOf(p, rows[..n], step) {
        var i :| 0 <= i < n && IsPoolCopy(PoolOf(p, rows, step).value, rows[..n][i], step);
        assert IsPoolCopy(PoolOf(p, rows, step).value, rows[i], step);
      }
    }
  }

  lemma TenantsAreSteps(p: Policy, rows: seq<Candidate>, key: ProgramKey, id: string)
    requires Lawful(p) && IsProgramBundle(rows, key, id)
    ensures AreSteps(Tenants(p, rows), key, id)
  {
    forall i | 0 <= i < |rows| ensures TenantOf(p, rows, i).Some? {
      TenantStep(p, rows, key, id, i);
    }
    forall i | 0 <= i < |rows|
      ensures IsStepOf(TenantOf(p, rows, i).value.body, key, id, |rows|)
      ensures TenantOf(p, rows, i).value.body.stepIndex == i
    {
      TenantStep(p, rows, key, id, i);
    }
  }

  lemma {:induction false} BundlePoolsStep(p: Policy, rows: seq<Candidate>, i: nat)
    requires i < |rows| && AllDecided(p, rows) && WriteCacheRowPair(p, rows[i]).value.pool.poolEligible
    ensures PoolOf(p, rows, rows[i].body.stepIndex).Some?
  {
    if i < |rows| - 1 {
      BundlePoolsStep(p, rows[..|rows| - 1], i);
    }
  }

  /** When every row may be pooled, pool scope reads the bundle alone. */
  lemma PooledAreSteps(p: Policy, rows: seq<Candidate>, h: seq<CacheRow>, key: ProgramKey, id: string)
    requires Lawful(p) && IsProgramBundle(rows, key, id) && AllDecided(p, rows)
    requires forall i | 0 <= i < |rows| :: Poolable(p, rows[i].body)
    ensures AreSteps(Pooled(p, rows, h, key), key, id)
    ensures forall i | 0 <= i < |rows| :: Pooled(p, rows, h, key)[i] == PoolOf(p, rows, i)
  {
    forall i | 0 <= i < |rows|
      ensures PoolOf(p, rows, i).Some? && IsStepOf(PoolOf(p, rows, i).value.body, key, id, |rows|)
        && PoolOf(p, rows, i).value.body.stepIndex == i
    {
      EveryStepPresent(rows, |rows|, i);
      var k :| 0 <= k < |rows| && rows[k].body.stepIndex == i;
      PoolRowBuilt(p, rows[k]);
      RefusedIffOverclaimed(p, rows[k]);
      BundlePoolsStep(p, rows, k);
      PoolComesFromBundle(p, rows, i);
      var j :| 0 <= j < |rows| && IsPoolCopy(PoolOf(p, rows, i).value, rows[j], i);
      PoolCopyIsStep(PoolOf(p, rows, i).value, rows[j], key, id, |rows|, i);
    }
  }

  lemma PoolCopyIsStep(pool: CacheRow, c: Candidate, key: ProgramKey, id: string, n: int, step: int)
    requires IsPoolCopy(pool, c, step) && IsStepOf(c.body, key, id, n)
    ensures IsStepOf(pool.body, key, id, n) && pool.body.stepIndex == step
  {
    var x, y := pool.body.(action := pool.body.action.(chain := [])), c.body.(action := c.body.action.(chain := []));
    assert x.siteKey == y.siteKey && x.taskKey == y.taskKey && x.stepIndex == y.stepIndex && x.program == y.program;
  }

  lemma OverlaysInProcess(h: seq<CacheRow>, p: Policy, rows: seq<Candidate>, key: ProgramKey, id: string)
    requires Lawful(p) && IsProgramBundle(rows, key, id) && AllDecided(p, rows)
    ensures Overlays(h, h + Written(p, rows), Tenants(p, rows), key, Any)
    ensures Overlays(h, h + Written(p, rows), Pooled(p, rows, h, key), key, PoolOnly)
  {
    forall step
      ensures Answer(h + Written(p, rows), key, step, Any)
        == if 0 <= step < |rows| then TenantOf(p, rows, step) else Answer(h, key, step, Any)
      ensures Answer(h + Written(p, rows), key, step, PoolOnly)
        == if PoolOf(p, rows, step).Some? then PoolOf(p, rows, step) else Answer(h, key, step, PoolOnly)
      ensures PoolOf(p, rows, step).Some? ==> 0 <= step < |rows|
    {
      WrittenLast(p, rows, key, step);
      TenantStep(p, rows, key, id, step);
      PoolComesFromBundle(p, rows, step);
      LastForConcat(h, Written(p, rows), KeyText, StepKey(key, step));
      LastForConcat(h, Written(p, rows), SplitKeyText, SplitText(StepKey(key, step), true));
    }
  }

  // ---- in the next process ----

  lemma {:induction false} WrittenFirst(p: Policy, rows: seq<Candidate>)
    requires AllDecided(p, rows) && |rows| > 0
    ensures var first := WriteCacheRowPair(p, rows[0]).value;
      AllDecided(p, rows[1..]) && Written(p, rows) == [first.pool, first.tenant] + Written(p, rows[1..])
  {
    var n, rest := |rows| - 1, rows[1..];
    assert AllDecided(p, rest);
    WrittenSnoc(p, rows);
    if n == 0 {
      assert rows[..0] == [] && rest == [];
    } else {
      WrittenFirst(p, rows[..n]);
      WrittenSnoc(p, rest);
      assert rows[..n][1..] == rest[..n - 1] && rest[n - 1] == rows[n];
    }
  }

  lemma WrittenSnoc(p: Policy, rows: seq<Candidate>)
    requires AllDecided(p, rows) && |rows| > 0
    ensures var n := |rows| - 1;
      var last := WriteCacheRowPair(p, rows[n]).value;
      AllDecided(p, rows[..n]) && Written(p, rows) == Written(p, rows[..n]) + [last.pool, last.tenant]
  {
  }

  /** The rows that go to the file of one eligibility, those of the bundle's first row set apart. */
  lemma RoutedFirst(p: Policy, rows: seq<Candidate>, eligible: bool)
    requires AllDecided(p, rows) && |rows| > 0
    ensures AllDecided(p, rows[1..])
    ensures var first := WriteCacheRowPair(p, rows[0]).value;
      Routed(Written(p, rows), eligible) == Routed([first.pool, first.tenant], eligible) + Routed(Written(p, rows[1..]), eligible)
  {
    var first := WriteCacheRowPair(p, rows[0]).value;
    WrittenFirst(p, rows);
    RoutedConcat([first.pool, first.tenant], Written(p, rows[1..]), eligible);
  }

  lemma RoutedTwo(a: CacheRow, b: CacheRow)
    requires !b.poolEligible
    ensures Routed([a, b], true) == if a.poolEligible then [a] else []
    ensures Routed([a, b], false) == if a.poolEligible then [b] else [a, b]
  {
    assert [a, b][..1] == [a] && [a][..0] == [];
    forall e: bool ensures Routed([a, b], e) == (if a.poolEligible == e then [a] else []) + (if b.poolEligible == e then [b] else []) {
      assert Routed([a], e) == if a.poolEligible == e then [a] else [];
    }
  }

  /** What each file yields of the bundle under a step. */
  lemma RoutedAnswers(p: Policy, rows: seq<Candidate>, key: ProgramKey, step: int)
    requires Lawful(p) && OfTask(rows, key) && AllDecided(p, rows)
    ensures LastFor(Routed(Written(p, rows), false), KeyText, StepKey(key, step)) == TenantOf(p, rows, step)
    ensures LastFor(Routed(Written(p, rows), true), KeyText, StepKey(key, step)) == PoolOf(p, rows, step)
  {
    WrittenLast(p, rows, key, step);
    FileHoldsLast(Written(p, rows), StepKey(key, step), false, false);
    FileHoldsLast(Written(p, rows), StepKey(key, step), true, true);
  }

  /** The bundle's first row, as it goes to the files. */
  function FirstPair(p: Policy, rows: seq<Candidate>): Pair
    requires AllDecided(p, rows) && |rows| > 0
  {
    WriteCacheRowPair(p, rows[0]).value
  }

  /**
   * The first line appended to the tenant file is glued onto what a crash or another program left there, and it is the
   * first row's tenant copy. A row that may not be pooled has its pool copy go first, and that is no loss.
   */
  predicate LosesFirst(p: Policy, rows: seq<Candidate>, tenantFile: string)
    requires AllDecided(p, rows) && |rows| > 0
  {
    !CleanEnd(tenantFile) && FirstPair(p, rows).pool.poolEligible
  }

  lemma RestHasNotFirst(p: Policy, rows: seq<Candidate>, key: ProgramKey, id: string)
    requires Lawful(p) && IsProgramBundle(rows, key, id) && AllDecided(p, rows)
    ensures AllDecided(p, rows[1..]) && OfTask(rows[1..], key)
    ensures TenantOf(p, rows[1..], rows[0].body.stepIndex).None? && PoolOf(p, rows[1..], rows[0].body.stepIndex).None?
  {
    TenantComesFromBundle(p, rows[1..], rows[0].body.stepIndex);
    PoolComesFromBundle(p, rows[1..], rows[0].body.stepIndex);
    assert forall i | 0 <= i < |rows[1..]| :: rows[1..][i] == rows[i + 1];
  }

  lemma DropFirst(s: seq<CacheRow>, key: string)
    requires |s| > 0
    ensures LastFor(s, KeyText, key)
      == if LastFor(s[1..], KeyText, key).Some? then LastFor(s[1..], KeyText, key)
         else if KeyText(s[0]) == key then Some(s[0]) else None
  {
    assert s == [s[0]] + s[1..] && [s[0]][..0] == [];
    LastForConcat([s[0]], s[1..], KeyText, key);
  }

  /** What the tenant file yields of the bundle when its first line is lost and is a tenant copy. */
  lemma TenantFileLacksFirst(p: Policy, rows: seq<Candidate>, key: ProgramKey, id: string, step: int)
    requires Lawful(p) && IsProgramBundle(rows, key, id) && AllDecided(p, rows) && FirstPair(p, rows).pool.poolEligible
    ensures var all := Routed(Written(p, rows), false);
      |all| > 0 && LastFor(all[1..], KeyText, StepKey(key, step))
        == if step == rows[0].body.stepIndex then None else TenantOf(p, rows, step)
  {
    var all, tenant := Routed(Written(p, rows), false), FirstPair(p, rows).tenant;
    RoutedFirst(p, rows, false);
    RoutedTwo(FirstPair(p, rows).pool, tenant);
    RoutedAnswers(p, rows, key, step);
    RestHasNotFirst(p, rows, key, id);
    RoutedAnswers(p, rows[1..], key, step);
    PairKeys(p, rows[0], key);
    FirstDropped(all, tenant, Routed(Written(p, rows[1..]), false), StepKey(key, step));
    if KeyText(tenant) == StepKey(key, step) {
      StepKeyInjective(key, rows[0].body.stepIndex, step);
    }
  }

  lemma FirstDropped(all: seq<CacheRow>, first: CacheRow, rest: seq<CacheRow>, k: string)
    requires all == [first] + rest
    ensures |all| > 0 && all[1..] == rest && LastFor(all[1..], KeyText, k) == LastFor(rest, KeyText, k)
    ensures KeyText(first) != k ==> LastFor(all, KeyText, k) == LastFor(rest, KeyText, k)
    ensures KeyText(first) == k && LastFor(rest, KeyText, k).None? ==> LastFor(all, KeyText, k) == Some(first)
  {
    assert all[1..] == rest;
    DropFirst(all, k);
  }

  lemma FirstOfTwoDropped(all: seq<CacheRow>, a: CacheRow, b: CacheRow, rest: seq<CacheRow>, k: string)
    requires all == [a, b] + rest && KeyText(a) == KeyText(b)
    ensures LastFor(all[1..], KeyText, k) == LastFor(all, KeyText, k)
  {
    var others := all[1..];
    assert all[0] == a && others[0] == b;
    DropFirst(all, k);
    DropFirst(others, k);
  }

  /** A pool copy that went first and is lost hides nothing: the tenant copy follows it. */
  lemma TenantFileLacksNothing(p: Policy, rows: seq<Candidate>, key: ProgramKey, step: int)
    requires Lawful(p) && OfTask(rows, key) && AllDecided(p, rows) && |rows| > 0 && !FirstPair(p, rows).pool.poolEligible
    ensures var all := Routed(Written(p, rows), false);
      |all| > 0 && LastFor(all[1..], KeyText, StepKey(key, step)) == LastFor(all, KeyText, StepKey(key, step))
  {
    var all, first, k := Routed(Written(p, rows), false), FirstPair(p, rows), StepKey(key, step);
    var rest := Routed(Written(p, rows[1..]), false);
    RoutedFirst(p, rows, false);
    RoutedTwo(first.pool, first.tenant);
    PairKeys(p, rows[0], key);
    FirstOfTwoDropped(all, first.pool, first.tenant, rest, k);
  }

  /** What the tenant file yields of the bundle: every tenant copy, but for the first row's when that is lost. */
  lemma TenantFileYields(p: Policy, rows: seq<Candidate>, key: ProgramKey, id: string, tenantFile: string, step: int)
    requires Lawful(p) && IsProgramBundle(rows, key, id) && AllDecided(p, rows)
    ensures LastFor(Landing(tenantFile, Routed(Written(p, rows), false)), KeyText, StepKey(key, step))
      == if LosesFirst(p, rows, tenantFile) && step == rows[0].body.stepIndex then None else TenantOf(p, rows, step)
  {
    RoutedAnswers(p, rows, key, step);
    if !CleanEnd(tenantFile) {
      if FirstPair(p, rows).pool.poolEligible {
        TenantFileLacksFirst(p, rows, key, id, step);
      } else {
        TenantFileLacksNothing(p, rows, key, step);
      }
    }
  }

  /** What the pool file yields of the first row's step. */
  lemma PoolFileYieldsFirst(p: Policy, rows: seq<Candidate>, key: ProgramKey, id: string, poolFile: string)
    requires Lawful(p) && IsProgramBundle(rows, key, id) && AllDecided(p, rows) && FirstPair(p, rows).pool.poolEligible
    ensures LastFor(Landing(poolFile, Routed(Written(p, rows), true)), KeyText, StepKey(key, rows[0].body.stepIndex))
      == if CleanEnd(poolFile) then Some(FirstPair(p, rows).pool) else None
  {
    var pool, step := FirstPair(p, rows).pool, rows[0].body.stepIndex;
    RoutedFirst(p, rows, true);
    RoutedTwo(pool, FirstPair(p, rows).tenant);
    RestHasNotFirst(p, rows, key, id);
    RoutedAnswers(p, rows[1..], key, step);
    PairKeys(p, rows[0], key);
    FirstDropped(Routed(Written(p, rows), true), pool, Routed(Written(p, rows[1..]), true), StepKey(key, step));
  }

  lemma PoolFileYieldsNoOther(p: Policy, rows: seq<Candidate>, key: ProgramKey, id: string, poolFile: string, step: int)
    requires Lawful(p) && IsProgramBundle(rows, key, id) && AllDecided(p, rows) && !(0 <= step < |rows|)
    ensures LastFor(Landing(poolFile, Routed(Written(p, rows), true)), KeyText, StepKey(key, step)).None?
  {
    var all := Routed(Written(p, rows), true);
    RoutedAnswers(p, rows, key, step);
    PoolComesFromBundle(p, rows, step);
    if |all| > 0 {
      DropFirst(all, StepKey(key, step));
    }
  }

  /** The rows of both files that are still read after the ingest, in load order. */
  ghost function Survivors(c: Codec, p: Policy, rows: seq<Candidate>, poolFile: string, tenantFile: string): seq<CacheRow>
    requires AllDecided(p, rows)
  {
    Kept(c, poolFile, Routed(Written(p, rows), true)) + Kept(c, tenantFile, Routed(Written(p, rows), false))
  }

  /** What the next process reads. */
  ghost function Reread(c: Codec, p: Policy, rows: seq<Candidate>, poolFile: string, tenantFile: string): seq<CacheRow>
    requires AllDecided(p, rows)
  {
    var pool, tenant := Routed(Written(p, rows), true), Routed(Written(p, rows), false);
    (Kept(c, poolFile, pool) + Landing(poolFile, pool)) + (Kept(c, tenantFile, tenant) + Landing(tenantFile, tenant))
  }

  /** In place of a lost tenant copy: an older tenant row of the step if one is left, else the pool copy, else an older pool row. */
  ghost function Instead(
    c: Codec, p: Policy, rows: seq<Candidate>, key: ProgramKey, poolFile: string, tenantFile: string): Option<CacheRow>
    requires AllDecided(p, rows) && |rows| > 0
  {
    var k := StepKey(key, rows[0].body.stepIndex);
    var tenant := LastFor(Kept(c, tenantFile, Routed(Written(p, rows), false)), KeyText, k);
    if tenant.Some? then tenant
    else if CleanEnd(poolFile) then Some(FirstPair(p, rows).pool)
    else LastFor(Kept(c, poolFile, Routed(Written(p, rows), true)), KeyText, k)
  }

  /** What the next process reads under each step of the bundle. */
  ghost function Later(
    c: Codec, p: Policy, rows: seq<Candidate>, key: ProgramKey, poolFile: string, tenantFile: string): (cells: seq<Option<CacheRow>>)
    requires AllDecided(p, rows) && |rows| > 0
    ensures |cells| == |rows|
    ensures !LosesFirst(p, rows, tenantFile) ==> cells == Tenants(p, rows)
  {
    seq(|rows|, i requires 0 <= i < |rows| =>
      if LosesFirst(p, rows, tenantFile) && i == rows[0].body.stepIndex then Instead(c, p, rows, key, poolFile, tenantFile)
      else TenantOf(p, rows, i))
  }

  /**
   * After a torn tenant file the next process still finds the program exactly when what it reads under the first row's
   * step is a row of it; and what it finds is the bundle's tenant copies exactly when that row is the tenant copy.
   */
  lemma LostFirstIff(
    c: Codec, p: Policy, rows: seq<Candidate>, key: ProgramKey, id: string, poolFile: string, tenantFile: string)
    requires Lawful(p) && IsProgramBundle(rows, key, id) && AllDecided(p, rows) && LosesFirst(p, rows, tenantFile)
    ensures var cells, row := Later(c, p, rows, key, poolFile, tenantFile), Instead(c, p, rows, key, poolFile, tenantFile);
      && (AreSteps(cells, key, id) <==>
            row.Some? && IsStepOf(row.value.body, key, id, |rows|) && row.value.body.stepIndex == rows[0].body.stepIndex)
      && (cells == Tenants(p, rows) <==> row == TenantOf(p, rows, rows[0].body.stepIndex))
  {
    var at, row := rows[0].body.stepIndex, Instead(c, p, rows, key, poolFile, tenantFile);
    TenantsAreSteps(p, rows, key, id);
    OneCell(Tenants(p, rows), at, row, key, id);
    LaterInOneCell(c, p, rows, key, poolFile, tenantFile);
  }

  lemma LaterInOneCell(c: Codec, p: Policy, rows: seq<Candidate>, key: ProgramKey, poolFile: string, tenantFile: string)
    requires AllDecided(p, rows) && |rows| > 0 && LosesFirst(p, rows, tenantFile) && 0 <= rows[0].body.stepIndex < |rows|
    ensures Later(c, p, rows, key, poolFile, tenantFile)
      == Tenants(p, rows)[rows[0].body.stepIndex := Instead(c, p, rows, key, poolFile, tenantFile)]
  {
  }

  lemma OneCell(cells: seq<Option<CacheRow>>, at: nat, row: Option<CacheRow>, key: ProgramKey, id: string)
    requires AreSteps(cells, key, id) && at < |cells|
    ensures AreSteps(cells[at := row], key, id) <==>
      row.Some? && IsStepOf(row.value.body, key, id, |cells|) && row.value.body.stepIndex == at
    ensures cells[at := row] == cells <==> row == cells[at]
  {
    var changed := cells[at := row];
    assert changed[at] == row && forall i | 0 <= i < |cells| && i != at :: changed[i] == cells[i];
  }

  lemma LastForFour(a: seq<CacheRow>, b: seq<CacheRow>, c: seq<CacheRow>, d: seq<CacheRow>, k: string)
    ensures LastFor((a + b) + (c + d), KeyText, k)
      == if LastFor(d, KeyText, k).Some? then LastFor(d, KeyText, k)
         else if LastFor(c, KeyText, k).Some? then LastFor(c, KeyText, k)
         else if LastFor(b, KeyText, k).Some? then LastFor(b, KeyText, k) else LastFor(a, KeyText, k)
    ensures LastFor(a + c, KeyText, k) == if LastFor(c, KeyText, k).Some? then LastFor(c, KeyText, k) else LastFor(a, KeyText, k)
  {
    LastForConcat(a + b, c + d, KeyText, k);
    LastForConcat(c, d, KeyText, k);
    LastForConcat(a, b, KeyText, k);
    LastForConcat(a, c, KeyText, k);
  }

  lemma RereadUnderStep(
    c: Codec, p: Policy, rows: seq<Candidate>, key: ProgramKey, id: string, poolFile: string, tenantFile: string, step: int)
    requires Lawful(p) && IsProgramBundle(rows, key, id) && AllDecided(p, rows)
    ensures Answer(Reread(c, p, rows, poolFile, tenantFile), key, step, Any)
      == if 0 <= step < |rows| then Later(c, p, rows, key, poolFile, tenantFile)[step]
         else Answer(Survivors(c, p, rows, poolFile, tenantFile), key, step, Any)
  {
    var pool, tenant := Routed(Written(p, rows), true), Routed(Written(p, rows), false);
    LastForFour(
      Kept(c, poolFile, pool), Landing(poolFile, pool), Kept(c, tenantFile, tenant), Landing(tenantFile, tenant), StepKey(key, step));
    TenantFileYields(p, rows, key, id, tenantFile, step);
    TenantStep(p, rows, key, id, step);
    if !(0 <= step < |rows|) {
      PoolFileYieldsNoOther(p, rows, key, id, poolFile, step);
    } else if LosesFirst(p, rows, tenantFile) && step == rows[0].body.stepIndex {
      PoolFileYieldsFirst(p, rows, key, id, poolFile);
    }
  }

  /** Whatever the files held, and however they ended: this is how the next process reads the task. */
  lemma OverlaysReread(
    c: Codec, p: Policy, rows: seq<Candidate>, key: ProgramKey, id: string, poolFile: string, tenantFile: string)
    requires Lawful(p) && IsProgramBundle(rows, key, id) && AllDecided(p, rows)
    ensures Overlays(
      Survivors(c, p, rows, poolFile, tenantFile), Reread(c, p, rows, poolFile, tenantFile),
      Later(c, p, rows, key, poolFile, tenantFile), key, Any)
  {
    forall step
      ensures Answer(Reread(c, p, rows, poolFile, tenantFile), key, step, Any)
        == if 0 <= step < |rows| then Later(c, p, rows, key, poolFile, tenantFile)[step]
           else Answer(Survivors(c, p, rows, poolFile, tenantFile), key, step, Any)
    {
      RereadUnderStep(c, p, rows, key, id, poolFile, tenantFile, step);
    }
  }

  // ---- at pool scope in the next process ----

  ghost predicate DistinctRows(rows: seq<Candidate>) {
    forall i, j | 0 <= i < j < |rows| :: rows[i].body.stepIndex != rows[j].body.stepIndex
  }

  /** The step whose pool copy is the first line appended to the pool file. */
  function FirstPooled(p: Policy, rows: seq<Candidate>): Option<int>
    requires AllDecided(p, rows)
  {
    if |rows| == 0 then None
    else if FirstPair(p, rows).pool.poolEligible then Some(rows[0].body.stepIndex)
    else FirstPooled(p, rows[1..])
  }

  lemma DropFirstOf(s: seq<CacheRow>, key: string)
    requires |s| > 0 && s[0].poolEligible
    ensures LastOf(s, key, true)
      == if LastOf(s[1..], key, true).Some? then LastOf(s[1..], key, true)
         else if KeyText(s[0]) == key then Some(s[0]) else None
  {
    assert s == [s[0]] + s[1..] && [s[0]][..0] == [];
    LastForConcat([s[0]], s[1..], SplitKeyText, SplitText(key, true));
    if SplitKeyText(s[0]) == SplitText(key, true) {
      SplitTextInjective(KeyText(s[0]), key, true, true);
    }
  }

  /** What the pool file holds of the bundle under a step. */
  lemma PoolFileAnswers(p: Policy, rows: seq<Candidate>, key: ProgramKey, step: int)
    requires Lawful(p) && OfTask(rows, key) && AllDecided(p, rows)
    ensures LastOf(Routed(Written(p, rows), true), StepKey(key, step), true) == PoolOf(p, rows, step)
    ensures LastOf(Routed(Written(p, rows), false), StepKey(key, step), true) == None
  {
    WrittenLast(p, rows, key, step);
    FileHoldsLast(Written(p, rows), StepKey(key, step), true, true);
    FileHoldsLast(Written(p, rows), StepKey(key, step), false, true);
  }

  lemma PoolRestHasNotFirst(p: Policy, rows: seq<Candidate>)
    requires Lawful(p) && AllDecided(p, rows) && DistinctRows(rows) && |rows| > 0
    ensures PoolOf(p, rows[1..], rows[0].body.stepIndex).None?
  {
    PoolComesFromBundle(p, rows[1..], rows[0].body.stepIndex);
    assert forall i | 0 <= i < |rows[1..]| :: rows[1..][i] == rows[i + 1];
  }

  /** What is left under a step once the first line of the pool file is lost. */
  function PoolLacking(p: Policy, rows: seq<Candidate>, step: int): Option<CacheRow>
    requires AllDecided(p, rows)
  {
    if FirstPooled(p, rows) == Some(step) then None else PoolOf(p, rows, step)
  }

  lemma FirstOfDropped(all: seq<CacheRow>, first: CacheRow, rest: seq<CacheRow>, k: string)
    requires all == [first] + rest && first.poolEligible
    ensures |all| > 0 && all[1..] == rest
    ensures KeyText(first) != k ==> LastOf(rest, k, true) == LastOf(all, k, true)
  {
    assert all[1..] == rest;
    DropFirstOf(all, k);
  }

  /** The pool file gets the bundle's first row first, if that row may be pooled. */
  lemma PoolFileStarts(p: Policy, rows: seq<Candidate>, key: ProgramKey)
    requires Lawful(p) && OfTask(rows, key) && AllDecided(p, rows) && |rows| > 0
    ensures AllDecided(p, rows[1..]) && OfTask(rows[1..], key)
    ensures KeyText(FirstPair(p, rows).pool) == StepKey(key, rows[0].body.stepIndex)
    ensures var pool, rest := FirstPair(p, rows).pool, Routed(Written(p, rows[1..]), true);
      Routed(Written(p, rows), true) == if pool.poolEligible then [pool] + rest else rest
  {
    PairKeys(p, rows[0], key);
    RoutedFirst(p, rows, true);
    RoutedTwo(FirstPair(p, rows).pool, FirstPair(p, rows).tenant);
  }

  /** What is read of the rest of the pool file under a step. */
  lemma RestAnswers(p: Policy, rows: seq<Candidate>, key: ProgramKey, step: int)
    requires Lawful(p) && OfTask(rows, key) && AllDecided(p, rows) && |rows| > 0
    ensures AllDecided(p, rows[1..])
    ensures LastOf(Routed(Written(p, rows[1..]), true), StepKey(key, step), true) == PoolOf(p, rows[1..], step)
  {
    PoolFileAnswers(p, rows[1..], key, step);
  }

  /** When the bundle's first row may be pooled, its pool copy is that line. */
  lemma PoolFileLosesFirst(p: Policy, rows: seq<Candidate>, key: ProgramKey, step: int)
    requires Lawful(p) && OfTask(rows, key) && AllDecided(p, rows) && DistinctRows(rows)
    requires |rows| > 0 && FirstPair(p, rows).pool.poolEligible
    ensures var all := Routed(Written(p, rows), true);
      |all| > 0 && LastOf(all[1..], StepKey(key, step), true) == PoolLacking(p, rows, step)
  {
    var at := rows[0].body.stepIndex;
    PoolFileStarts(p, rows, key);
    FirstOfDropped(
      Routed(Written(p, rows), true), FirstPair(p, rows).pool, Routed(Written(p, rows[1..]), true), StepKey(key, step));
    PoolFileAnswers(p, rows, key, step);
    if step == at {
      RestAnswers(p, rows, key, step);
      PoolRestHasNotFirst(p, rows);
    } else if StepKey(key, at) == StepKey(key, step) {
      StepKeyInjective(key, at, step);
    }
  }

  /** A first row that may not be pooled leaves the pool file to the others. */
  lemma UnpooledFirst(p: Policy, rows: seq<Candidate>, key: ProgramKey, step: int)
    requires Lawful(p) && OfTask(rows, key) && AllDecided(p, rows)
    requires |rows| > 0 && !FirstPair(p, rows).pool.poolEligible
    ensures Routed(Written(p, rows), true) == Routed(Written(p, rows[1..]), true)
    ensures PoolOf(p, rows, step) == PoolOf(p, rows[1..], step)
  {
    PoolFileStarts(p, rows, key);
    PoolFileAnswers(p, rows, key, step);
    RestAnswers(p, rows, key, step);
  }

  /** Losing the first line of the pool file costs the first poolable step its pool copy and no other. */
  lemma {:induction false} PoolFileLacksFirst(p: Policy, rows: seq<Candidate>, key: ProgramKey, step: int)
    requires Lawful(p) && OfTask(rows, key) && AllDecided(p, rows) && DistinctRows(rows)
    requires |Routed(Written(p, rows), true)| > 0
    ensures LastOf(Routed(Written(p, rows), true)[1..], StepKey(key, step), true) == PoolLacking(p, rows, step)
    decreases |rows|
  {
    if FirstPair(p, rows).pool.poolEligible {
      PoolFileLosesFirst(p, rows, key, step);
    } else {
      UnpooledFirst(p, rows, key, step);
      PoolFileLacksFirst(p, rows[1..], key, step);
    }
  }

  /** What the next process reads of the pool file under a step of the bundle. */
  function PoolLanded(p: Policy, rows: seq<Candidate>, poolFile: string, step: int): Option<CacheRow>
    requires AllDecided(p, rows)
  {
    if CleanEnd(poolFile) then PoolOf(p, rows, step) else PoolLacking(p, rows, step)
  }

  lemma PoolFileYields(p: Policy, rows: seq<Candidate>, key: ProgramKey, poolFile: string, step: int)
    requires Lawful(p) && OfTask(rows, key) && AllDecided(p, rows) && DistinctRows(rows)
    ensures LastOf(Landing(poolFile, Routed(Written(p, rows), true)), StepKey(key, step), true) == PoolLanded(p, rows, poolFile, step)
  {
    PoolFileAnswers(p, rows, key, step);
    if |Routed(Written(p, rows), true)| > 0 {
      PoolFileLacksFirst(p, rows, key, step);
    } else {
      FirstPooledIsPooled(p, rows);
    }
  }

  lemma {:induction false} FirstPooledIsPooled(p: Policy, rows: seq<Candidate>)
    requires AllDecided(p, rows)
    ensures Routed(Written(p, rows), true) == [] ==> FirstPooled(p, rows) == None
    decreases |rows|
  {
    if |rows| > 0 {
      var first := FirstPair(p, rows);
      RoutedFirst(p, rows, true);
      RoutedTwo(first.pool, first.tenant);
      FirstPooledIsPooled(p, rows[1..]);
    }
  }

  /** No tenant copy answers at pool scope, however much of the file is read. */
  lemma TenantFileYieldsNoPool(p: Policy, rows: seq<Candidate>, key: ProgramKey, tenantFile: string, step: int)
    requires Lawful(p) && OfTask(rows, key) && AllDecided(p, rows)
    ensures LastOf(Landing(tenantFile, Routed(Written(p, rows), false)), StepKey(key, step), true) == None
  {
    var landing := Landing(tenantFile, Routed(Written(p, rows), false));
    var k := StepKey(key, step);
    forall row | row in landing ensures SplitKeyText(row) != SplitText(k, true) {
      assert row in Routed(Written(p, rows), false);
      if SplitKeyText(row) == SplitText(k, true) {
        SplitTextInjective(KeyText(row), k, row.poolEligible, true);
      }
    }
    LastForIsThere(landing, SplitKeyText, SplitText(k, true));
  }

  /**
   * What the next process reads at pool scope under each step of the bundle: a pool row that another program left in
   * the tenant file, else the pool copy if it landed, else an older pool row.
   */
  ghost function LaterPooled(
    c: Codec, p: Policy, rows: seq<Candidate>, key: ProgramKey, poolFile: string, tenantFile: string): (cells: seq<Option<CacheRow>>)
    requires AllDecided(p, rows)
    ensures |cells| == |rows|
  {
    seq(|rows|, i requires 0 <= i < |rows| => LaterPooledAt(c, p, rows, key, poolFile, tenantFile, i))
  }

  ghost function LaterPooledAt(
    c: Codec, p: Policy, rows: seq<Candidate>, key: ProgramKey, poolFile: string, tenantFile: string, step: int): Option<CacheRow>
    requires AllDecided(p, rows)
  {
    var k := StepKey(key, step);
    var misplaced := LastOf(Kept(c, tenantFile, Routed(Written(p, rows), false)), k, true);
    if misplaced.Some? then misplaced
    else if PoolLanded(p, rows, poolFile, step).Some? then PoolLanded(p, rows, poolFile, step)
    else LastOf(Kept(c, poolFile, Routed(Written(p, rows), true)), k, true)
  }

  lemma LastOfFour(a: seq<CacheRow>, b: seq<CacheRow>, c: seq<CacheRow>, d: seq<CacheRow>, k: string)
    requires LastOf(d, k, true) == None
    ensures LastOf((a + b) + (c + d), k, true)
      == if LastOf(c, k, true).Some? then LastOf(c, k, true)
         else if LastOf(b, k, true).Some? then LastOf(b, k, true) else LastOf(a, k, true)
    ensures LastOf(a + c, k, true) == if LastOf(c, k, true).Some? then LastOf(c, k, true) else LastOf(a, k, true)
  {
    LastForConcat(a + b, c + d, SplitKeyText, SplitText(k, true));
    LastForConcat(c, d, SplitKeyText, SplitText(k, true));
    LastForConcat(a, b, SplitKeyText, SplitText(k, true));
    LastForConcat(a, c, SplitKeyText, SplitText(k, true));
  }

  lemma ProgramRowsAreDistinct(rows: seq<Candidate>, key: ProgramKey, id: string)
    requires IsProgramBundle(rows, key, id)
    ensures OfTask(rows, key) && DistinctRows(rows)
  {
  }

  /** Only steps of the bundle have a pool copy. */
  lemma LandsUnderSteps(p: Policy, rows: seq<Candidate>, key: ProgramKey, id: string, poolFile: string, step: int)
    requires Lawful(p) && IsProgramBundle(rows, key, id) && AllDecided(p, rows) && !(0 <= step < |rows|)
    ensures PoolLanded(p, rows, poolFile, step) == None
  {
    PoolComesFromBundle(p, rows, step);
  }

  lemma RereadPoolUnderStep(
    c: Codec, p: Policy, rows: seq<Candidate>, key: ProgramKey, id: string, poolFile: string, tenantFile: string, step: int)
    requires Lawful(p) && IsProgramBundle(rows, key, id) && AllDecided(p, rows)
    ensures Answer(Reread(c, p, rows, poolFile, tenantFile), key, step, PoolOnly)
      == if 0 <= step < |rows| then LaterPooledAt(c, p, rows, key, poolFile, tenantFile, step)
         else Answer(Survivors(c, p, rows, poolFile, tenantFile), key, step, PoolOnly)
  {
    var pool, tenant := Routed(Written(p, rows), true), Routed(Written(p, rows), false);
    ProgramRowsAreDistinct(rows, key, id);
    TenantFileYieldsNoPool(p, rows, key, tenantFile, step);
    PoolFileYields(p, rows, key, poolFile, step);
    LastOfFour(
      Kept(c, poolFile, pool), Landing(poolFile, pool), Kept(c, tenantFile, tenant), Landing(tenantFile, tenant), StepKey(key, step));
    if !(0 <= step < |rows|) {
      LandsUnderSteps(p, rows, key, id, poolFile, step);
    }
  }

  /** The same of all steps. */
  lemma OverlaysRereadPool(
    c: Codec, p: Policy, rows: seq<Candidate>, key: ProgramKey, id: string, poolFile: string, tenantFile: string)
    requires Lawful(p) && IsProgramBundle(rows, key, id) && AllDecided(p, rows)
    ensures Overlays(
      Survivors(c, p, rows, poolFile, tenantFile), Reread(c, p, rows, poolFile, tenantFile),
      LaterPooled(c, p, rows, key, poolFile, tenantFile), key, PoolOnly)
  {
    forall step
      ensures Answer(Reread(c, p, rows, poolFile, tenantFile), key, step, PoolOnly)
        == if 0 <= step < |rows| then LaterPooled(c, p, rows, key, poolFile, tenantFile)[step]
           else Answer(Survivors(c, p, rows, poolFile, tenantFile), key, step, PoolOnly)
    {
      RereadPoolUnderStep(c, p, rows, key, id, poolFile, tenantFile, step);
    }
  }

  /** The files of a store grow by the rows written, each in its file. */
  lemma FilesGrow(
    c: Codec, poolBase: string, tenantBase: string, since: seq<CacheRow>, pool: string, tenant: string, h: seq<CacheRow>,
    more: seq<CacheRow>, pool': string, tenant': string, w: seq<CacheRow>)
    requires Follows(c, poolBase, tenantBase, since, pool, tenant, h)
    requires Follows(c, poolBase, tenantBase, more, pool', tenant', h + w)
    ensures pool' == pool + FileOf(c, Routed(w, true)) && tenant' == tenant + FileOf(c, Routed(w, false))
  {
    SameSuffix(Load(c, poolBase) + Load(c, tenantBase), since, w, more);
    FileGrows(c, pool, pool', poolBase, since, w, true);
    FileGrows(c, tenant, tenant', tenantBase, since, w, false);
  }

  lemma FileGrows(c: Codec, file: string, file': string, base: string, since: seq<CacheRow>, w: seq<CacheRow>, eligible: bool)
    requires Tells(c, file, base, since, eligible) && Tells(c, file', base, since + w, eligible)
    ensures file' == file + FileOf(c, Routed(w, eligible))
  {
    RoutedConcat(since, w, eligible);
    FileOfConcat(c, Routed(since, eligible), Routed(w, eligible));
    Text.Concat3(base, FileOf(c, Routed(since, eligible)), FileOf(c, Routed(w, eligible)));
  }

  lemma SameSuffix(base: seq<CacheRow>, since: seq<CacheRow>, w: seq<CacheRow>, more: seq<CacheRow>)
    requires base + more == (base + since) + w
    ensures more == since + w
  {
    assert (base + more)[|base|..] == more && ((base + since) + w)[|base|..] == since + w;
  }

  /**
   * An accepted bundle and its readers: this process and the next one to open the files, whatever was in them, each at
   * either scope. Each finds the bundle if and only if what it reads under the bundle's steps is the bundle's and no
   * leftover row carries its id.
   */
  method IngestThenResolve(p: Policy, bundle: Bundle, store: JsonlCacheStore, key: ProgramKey, id: string)
    returns (accepted: bool, now: Resolution, pooled: Resolution, later: Resolution, laterPooled: Resolution)
    requires store.Valid() && store.Faithful() && Sound(store.codec) && Unglued(store.codec) && Lawful(p)
    requires IsProgramBundle(bundle.rows, key, id)
    modifies store
    ensures accepted <==> Accepts(p, bundle.rows)
    ensures !accepted ==> unchanged(store)
    ensures accepted ==>
      Finds(now, Tenants(p, bundle.rows), key, id, NoLeftover(old(store.history), key, id, |bundle.rows|, Any))
        && AreSteps(Tenants(p, bundle.rows), key, id)
    ensures accepted ==>
      Finds(pooled, Pooled(p, bundle.rows, old(store.history), key), key, id,
            NoLeftover(old(store.history), key, id, |bundle.rows|, PoolOnly))
    ensures accepted ==>
      Finds(later, Later(store.codec, p, bundle.rows, key, old(store.poolFile), old(store.tenantFile)), key, id,
            NoLeftover(Survivors(store.codec, p, bundle.rows, old(store.poolFile), old(store.tenantFile)), key, id, |bundle.rows|, Any))
    ensures accepted ==>
      Finds(laterPooled, LaterPooled(store.codec, p, bundle.rows, key, old(store.poolFile), old(store.tenantFile)), key, id,
            NoLeftover(Survivors(store.codec, p, bundle.rows, old(store.poolFile), old(store.tenantFile)), key, id, |bundle.rows|, PoolOnly))
  {
    ghost var h, pool, tenant, since := store.history, store.poolFile, store.tenantFile, store.since;
    var r := IngestBundle(p, bundle, store);
    accepted := r.Ok?;
    now, pooled, later, laterPooled := Miss(NoRows), Miss(NoRows), Miss(NoRows), Miss(NoRows);
    if accepted {
      TenantsAreSteps(p, bundle.rows, key, id);
      OverlaysInProcess(h, p, bundle.rows, key, id);
      now := ResolveProgram(store, key, Any);
      ViewIsView(store.history, key, Any);
      ResolvesAfterIngest(ViewOf(store.history, key, Any), now, h, store.history, Tenants(p, bundle.rows), key, id, Any);
      pooled := ResolveProgram(store, key, PoolOnly);
      ViewIsView(store.history, key, PoolOnly);
      ResolvesAfterIngest(
        ViewOf(store.history, key, PoolOnly), pooled, h, store.history, Pooled(p, bundle.rows, h, key), key, id, PoolOnly);
      FilesGrow(
        store.codec, store.poolBase, store.tenantBase, since, pool, tenant, h,
        store.since, store.poolFile, store.tenantFile, Written(p, bundle.rows));
      later, laterPooled := ResolveReopened(p, bundle, store, key, id, pool, tenant);
    }
  }

  /** Resolve in a store reopened on the files as they are after the ingest. */
  method ResolveReopened(
    p: Policy, bundle: Bundle, store: JsonlCacheStore, key: ProgramKey, id: string, ghost pool: string, ghost tenant: string)
    returns (later: Resolution, pooled: Resolution)
    requires store.Faithful() && Sound(store.codec) && Unglued(store.codec) && Lawful(p)
    requires IsProgramBundle(bundle.rows, key, id) && AllDecided(p, bundle.rows)
    requires store.poolFile == pool + FileOf(store.codec, Routed(Written(p, bundle.rows), true))
    requires store.tenantFile == tenant + FileOf(store.codec, Routed(Written(p, bundle.rows), false))
    ensures Finds(later, Later(store.codec, p, bundle.rows, key, pool, tenant), key, id,
                  NoLeftover(Survivors(store.codec, p, bundle.rows, pool, tenant), key, id, |bundle.rows|, Any))
    ensures Finds(pooled, LaterPooled(store.codec, p, bundle.rows, key, pool, tenant), key, id,
                  NoLeftover(Survivors(store.codec, p, bundle.rows, pool, tenant), key, id, |bundle.rows|, PoolOnly))
  {
    var again := Reopen(store, |store.poolFile|, |store.tenantFile|);
    assert store.poolFile[..|store.poolFile|] == store.poolFile && store.tenantFile[..|store.tenantFile|] == store.tenantFile;
    ReadBack(store.codec, pool, Routed(Written(p, bundle.rows), true));
    ReadBack(store.codec, tenant, Routed(Written(p, bundle.rows), false));
    OverlaysReread(store.codec, p, bundle.rows, key, id, pool, tenant);
    later := ResolveProgram(again, key, Any);
    ViewIsView(again.history, key, Any);
    ResolvesAfterIngest(
      ViewOf(again.history, key, Any), later, Survivors(store.codec, p, bundle.rows, pool, tenant), again.history,
      Later(store.codec, p, bundle.rows, key, pool, tenant), key, id, Any);
    OverlaysRereadPool(store.codec, p, bundle.rows, key, id, pool, tenant);
    pooled := ResolveProgram(again, key, PoolOnly);
    ViewIsView(again.history, key, PoolOnly);
    ResolvesAfterIngest(
      ViewOf(again.history, key, PoolOnly), pooled, Survivors(store.codec, p, bundle.rows, pool, tenant), again.history,
      LaterPooled(store.codec, p, bundle.rows, key, pool, tenant), key, id, PoolOnly);
  }
}
