/**
 * Outcomes reported by the runner become the next version of a row, through the same gatekeeper as a first write;
 * and, over any sequence of ingests and outcomes, nothing tenant-scoped enters or leaves the pool.
 */
module Update {
  import opened Wrappers
  import opened CacheTypes
  import opened Confidence
  import opened Taint
  import opened Literals
  import opened Json
  import opened Write
  import opened Store
  import opened Resolve
  import opened Ingest

  datatype Report = Report(key: CacheKey, outcome: string, repair: Option<Repair>)

  datatype Recorded = Written(row: CacheRow) | NoSuchRow | UnhandledOutcome

  /** The event a report describes; repair details count only when the outcome is a repair. */
  function EventOf(report: Report, kind: OutcomeKind, now: string): Event {
    Event(kind, now, if kind == Repaired then report.repair else None)
  }

  /** A repair that had locators to offer and lost all of them is refused. */
  predicate Useless(e: Event, row: CacheRow) {
    e.kind == Repaired && e.repair.Some? && |e.repair.value.corrected.chain| > 0 && row.body.action.chain == []
  }

  /** What the caller can see of that beforehand: the corrected step offers locators and may not be pooled. */
  predicate RepairLost(p: Policy, b: Body, e: Event) {
    && e.kind == Repaired && e.repair.Some? && |e.repair.value.corrected.chain| > 0
    && !Poolable(p, b.(action := e.repair.value.corrected))
  }

  lemma UselessIff(p: Policy, b: Body, e: Event)
    requires Lawful(p)
    ensures BuildPoolRow(p, ApplyOutcome(b, e)).Ok?
    ensures Useless(e, BuildPoolRow(p, ApplyOutcome(b, e)).value) <==> RepairLost(p, b, e)
    ensures RepairLost(p, b, e) ==> BuildPoolRow(p, ApplyOutcome(b, e)).value.reason.Some?
  {
    var c := ApplyOutcome(b, e);
    PoolRowBuilt(p, c);
    PoolChainStays(p, c);
    if e.kind == Repaired && e.repair.Some? {
      var corrected := b.(action := e.repair.value.corrected);
      assert c.body.action == corrected.action && c.body.assertion == corrected.assertion && c.body.topology == corrected.topology;
      assert Poolable(p, c.body) <==> Poolable(p, corrected);
    }
  }

  /** The event a report amounts to for a row, if it amounts to one: classified, and no repair the authority empties. */
  function EventFor(p: Policy, b: Body, report: Report, now: string): Option<Event> {
    var kind := ClassifyOutcome(report.outcome);
    if kind.None? || RepairLost(p, b, EventOf(report, kind.value, now)) then None
    else Some(EventOf(report, kind.value, now))
  }

  /** The outcomes that count against a row. */
  const FAILURES: set<string> := {"ASSERTION_FAILED", "LOCATOR_NOT_FOUND", "TIMEOUT", "PAGE_ERROR", "REPAIR_EXHAUSTED"}

  predicate IsReportable(outcome: string) {
    outcome == "PASS" || outcome == "REPAIRED_PASS" || outcome in FAILURES
  }

  lemma ClassifiedByName(outcome: string)
    ensures ClassifyOutcome(outcome).Some? <==> IsReportable(outcome)
    ensures outcome == "PASS" ==> ClassifyOutcome(outcome) == Some(Pass)
    ensures outcome == "REPAIRED_PASS" ==> ClassifyOutcome(outcome) == Some(Repaired)
    ensures outcome in FAILURES ==> ClassifyOutcome(outcome) == Some(Failure)
  {
  }

  /** The corrected step brings locators, and none of them, nor its place in the flow, may be shared. */
  predicate LosesItsLocators(p: Policy, b: Body, report: Report) {
    && report.outcome == "REPAIRED_PASS" && report.repair.Some? && |report.repair.value.corrected.chain| > 0
    && !Poolable(p, b.(action := report.repair.value.corrected))
  }

  /** Three tenths of the new observation and seven of the old value, to the nearest millionth; a first one seeds. */
  predicate Averaged(before: Body, after: Body, observed: int) {
    if before.successes + before.failures == 0 then after.confidence == observed
    else -5 <= 10 * after.confidence - (3 * observed + 7 * before.confidence) <= 5
  }

  /** What a recorded report does to the row, by the name of the outcome. */
  predicate RecordSays(report: Report, now: string, before: Body, after: Body) {
    && (report.outcome == "PASS" ==>
          && after.successes == before.successes + 1 && after.failures == before.failures
          && after.lastVerifiedAt == now && Averaged(before, after, 1_000_000))
    && (report.outcome in FAILURES ==>
          && after.successes == before.successes && after.failures == before.failures + 1
          && after.lastVerifiedAt == before.lastVerifiedAt && Averaged(before, after, 0))
    && (report.outcome == "REPAIRED_PASS" ==>
          && after.successes == 1 && after.failures == 0 && after.confidence == 1_000_000
          && after.lastVerifiedAt == now && after.invalidated == Cleared)
    && (report.outcome != "REPAIRED_PASS" ==>
          && after.invalidated ==
            (if after.confidence >= 500_000 then Cleared else if before.invalidated.Since? then before.invalidated else Since(now)))
    && (if report.outcome == "REPAIRED_PASS" && report.repair.Some? then
          && after.action.(chain := []) == report.repair.value.corrected.(chain := [])
          && after.provenance == Some(Provenance(now, report.repair.value.runId, report.repair.value.attempt, before.action.kind))
        else after.action.(chain := []) == before.action.(chain := []) && after.provenance == None)
    && after.siteKey == before.siteKey && after.taskKey == before.taskKey && after.stepIndex == before.stepIndex
    && after.rowId == before.rowId && after.program == before.program
    && after.assertion == before.assertion && after.topology == before.topology
  }

  lemma AppliedSays(report: Report, now: string, b: Body)
    requires ClassifyOutcome(report.outcome).Some?
    ensures RecordSays(report, now, b, ApplyOutcome(b, EventOf(report, ClassifyOutcome(report.outcome).value, now)).body)
  {
    ClassifiedByName(report.outcome);
  }

  lemma SaysIgnoresChain(report: Report, now: string, before: Body, after: Body, kept: Body)
    requires RecordSays(report, now, before, after) && SameButChain(kept, after)
    ensures RecordSays(report, now, before, kept)
  {
    var x, y := kept.(action := kept.action.(chain := [])), after.(action := after.action.(chain := []));
    assert x == y && x.action == y.action;
  }

  lemma WrittenSays(p: Policy, report: Report, now: string, b: Body, row: CacheRow)
    requires Lawful(p) && ClassifyOutcome(report.outcome).Some?
    requires BuildPoolRow(p, ApplyOutcome(b, EventOf(report, ClassifyOutcome(report.outcome).value, now))) == Ok(row)
    ensures RecordSays(report, now, b, row.body)
  {
    var c := ApplyOutcome(b, EventOf(report, ClassifyOutcome(report.outcome).value, now));
    PoolRowBuilt(p, c);
    AppliedSays(report, now, b);
    SaysIgnoresChain(report, now, b, c.body, row.body);
  }

  method RecordStepOutcome(p: Policy, report: Report, now: string, store: JsonlCacheStore)
    returns (r: Result<Recorded, Reason>)
    requires store.Valid() && Lawful(p)
    modifies store
    ensures store.Valid() && (old(store.Faithful()) ==> store.Faithful())
    ensures !(r.Ok? && r.value.Written?) ==> unchanged(store)
    ensures r == Ok(UnhandledOutcome) <==> !IsReportable(report.outcome)
    ensures var existing := LastFor(old(store.history), KeyText, CacheKeyString(report.key));
      && (r == Ok(NoSuchRow) <==> IsReportable(report.outcome) && existing.None?)
      && (r.Err? <==> existing.Some? && LosesItsLocators(p, existing.value.body, report))
      && (r.Ok? && r.value.Written? ==> RecordSays(report, now, existing.value.body, r.value.row.body))
    ensures var existing := LastFor(old(store.history), KeyText, CacheKeyString(report.key));
      && (r.Ok? && r.value.Written? <==> existing.Some? && EventFor(p, existing.value.body, report, now).Some?)
      && (r.Ok? && r.value.Written? ==>
            var e := EventFor(p, existing.value.body, report, now).value;
            BuildPoolRow(p, ApplyOutcome(existing.value.body, e)) == Ok(r.value.row) && store.history == old(store.history) + [r.value.row])
      && (r.Err? ==>
            var e := EventOf(report, ClassifyOutcome(report.outcome).value, now);
            BuildPoolRow(p, ApplyOutcome(existing.value.body, e)).Ok?
              && BuildPoolRow(p, ApplyOutcome(existing.value.body, e)).value.reason == Some(r.error))
  {
    var kind := ClassifyOutcome(report.outcome);
    ClassifiedByName(report.outcome);
    if kind.None? {
      return Ok(UnhandledOutcome);
    }
    var existing := store.Get(report.key);
    if existing.None? {
      return Ok(NoSuchRow);
    }
    var e := EventOf(report, kind.value, now);
    var candidate := ApplyOutcome(existing.value.body, e);
    // Classified before it is persisted: an append-only line has no later in which to be corrected.
    RefusedIffOverclaimed(p, candidate);
    UselessIff(p, existing.value.body, e);
    match WriteCacheRow(p, candidate)
    case Err(refused) =>
      r := Err(refused);
    case Ok(row) =>
      if Useless(e, row) {
        return Err(if row.reason.Some? then row.reason.value else PoolLeakRefused);
      }
      WrittenSays(p, report, now, existing.value.body, row);
      store.Write(row);
      r := Ok(Written(row));
  }

  // ---- the stored row and its history ----

  /** Applying an outcome reads nothing of the locator chain. */
  lemma ApplyIgnoresChain(a: Body, b: Body, e: Event)
    requires SameButChain(a, b)
    ensures SameButChain(ApplyOutcome(a, e).body, ApplyOutcome(b, e).body)
  {
    assert a.(action := a.action.(chain := [])).action.kind == b.(action := b.action.(chain := [])).action.kind;
  }

  lemma AfterHistorySnoc(row: Body, h: seq<Event>, e: Event)
    ensures AfterHistory(row, h + [e]) == ApplyOutcome(AfterHistory(row, h), e).body
  {
    assert (h + [e])[..|h|] == h;
  }

  /** The events that reports on one step amount to: the unclassified and the useless are dropped, nothing else. */
  function AcceptedOf(p: Policy, key: string, first: Body, reports: seq<Report>, times: seq<string>): seq<Event>
    requires |times| == |reports|
  {
    if |reports| == 0 then []
    else
      var n := |reports| - 1;
      var front := AcceptedOf(p, key, first, reports[..n], times[..n]);
      var e := EventFor(p, first, reports[n], times[n]);
      if CacheKeyString(reports[n].key) == key && e.Some? then front + [e.value] else front
  }

  /**
   * What a step's record should show for these reports, by the names of their outcomes: passes and failures since the
   * last repair that kept a locator, the repair itself being the first pass.
   */
  function Heard(p: Policy, key: string, first: Body, reports: seq<Report>): seq<bool> {
    if |reports| == 0 then []
    else
      HeardNext(p, key, first, reports[|reports| - 1], Heard(p, key, first, reports[..|reports| - 1]))
  }

  function HeardNext(p: Policy, key: string, first: Body, report: Report, front: seq<bool>): seq<bool> {
    if CacheKeyString(report.key) != key || LosesItsLocators(p, first, report) then front
    else if report.outcome == "REPAIRED_PASS" then [true]
    else if report.outcome == "PASS" then front + [true]
    else if report.outcome in FAILURES then front + [false]
    else front
  }

  lemma EventForByName(p: Policy, b: Body, report: Report, now: string)
    ensures var e := EventFor(p, b, report, now);
      && (e.Some? <==> IsReportable(report.outcome) && !LosesItsLocators(p, b, report))
      && (e.Some? ==> e.value.kind == (if report.outcome == "PASS" then Pass else if report.outcome == "REPAIRED_PASS" then Repaired else Failure))
  {
    ClassifiedByName(report.outcome);
  }

  lemma ObservedNext(h: seq<Event>, e: Event)
    ensures Observations(h + [e]) == if e.kind == Repaired then [true] else Observations(h) + [e.kind == Pass]
  {
    assert (h + [e])[..|h|] == h;
  }

  /** One more report, on both sides. */
  lemma HeardOneMore(p: Policy, key: string, first: Body, report: Report, now: string, h: seq<Event>, front: seq<bool>)
    requires Observations(h) == front
    ensures var e := EventFor(p, first, report, now);
      Observations(if CacheKeyString(report.key) == key && e.Some? then h + [e.value] else h) == HeardNext(p, key, first, report, front)
  {
    EventForByName(p, first, report, now);
    var e := EventFor(p, first, report, now);
    if e.Some? {
      ObservedNext(h, e.value);
    }
  }

  lemma {:induction false} HeardIsObserved(p: Policy, key: string, first: Body, reports: seq<Report>, times: seq<string>)
    requires |times| == |reports|
    ensures Observations(AcceptedOf(p, key, first, reports, times)) == Heard(p, key, first, reports)
    decreases |reports|
  {
    if |reports| > 0 {
      var n := |reports| - 1;
      HeardIsObserved(p, key, first, reports[..n], times[..n]);
      var h, front := AcceptedOf(p, key, first, reports[..n], times[..n]), Heard(p, key, first, reports[..n]);
      HeardOneMore(p, key, first, reports[n], times[n], h, front);
    }
  }

  /** Whether a report counts depends on parts of the row that no outcome changes. */
  lemma EventForStays(p: Policy, first: Body, h: seq<Event>, last: Body, report: Report, now: string)
    requires SameButChain(last, AfterHistory(first, h))
    ensures EventFor(p, last, report, now) == EventFor(p, first, report, now)
  {
    FixedParts(first, h);
    var x, y := last.(action := last.action.(chain := [])), AfterHistory(first, h);
    assert x.assertion == y.(action := y.action.(chain := [])).assertion && x.topology == y.(action := y.action.(chain := [])).topology;
    forall e: Event | e.repair.Some?
      ensures Poolable(p, last.(action := e.repair.value.corrected)) <==> Poolable(p, first.(action := e.repair.value.corrected))
    {
    }
  }

  lemma {:induction false} FixedParts(first: Body, h: seq<Event>)
    ensures var b := AfterHistory(first, h);
      b.assertion == first.assertion && b.topology == first.topology
  {
    if |h| > 0 {
      FixedParts(first, h[..|h| - 1]);
    }
  }

  /** One more accepted event: the row written for it is current, and still the first row plus its history. */
  lemma RecordedNext(p: Policy, h: seq<CacheRow>, last: CacheRow, first: CacheRow, accepted: seq<Event>, e: Event, row: CacheRow)
    requires Lawful(p) && SameButChain(last.body, AfterHistory(first.body, accepted))
    requires BuildPoolRow(p, ApplyOutcome(last.body, e)) == Ok(row)
    ensures SameButChain(row.body, AfterHistory(first.body, accepted + [e]))
    ensures KeyText(row) == KeyText(last) && LastFor(h + [row], KeyText, KeyText(last)) == Some(row)
  {
    ApplyIgnoresChain(last.body, AfterHistory(first.body, accepted), e);
    AfterHistorySnoc(first.body, accepted, e);
    WrittenUnderSameKey(p, last, e, row);
    PoolRowBuilt(p, ApplyOutcome(last.body, e));
    assert (h + [row])[..|h|] == h;
  }

  lemma WrittenUnderSameKey(p: Policy, last: CacheRow, e: Event, row: CacheRow)
    requires Lawful(p) && BuildPoolRow(p, ApplyOutcome(last.body, e)) == Ok(row)
    ensures KeyText(row) == KeyText(last)
  {
    PoolRowBuilt(p, ApplyOutcome(last.body, e));
    var next := ApplyOutcome(last.body, e).body;
    assert next.siteKey == last.body.siteKey && next.taskKey == last.body.taskKey && next.stepIndex == last.body.stepIndex;
    assert row.body.(action := row.body.action.(chain := [])).stepIndex == next.stepIndex;
  }

  /** Everything a row's accepted history says about it. */
  ghost predicate Carries(last: Body, first: Body, h: seq<Event>) {
    && Agrees(last, Observations(h))
    && (|h| >= 2 && h[|h| - 2].kind == h[|h| - 1].kind == Failure ==> IsInvalidated(last))
    && (|h| >= 2 && h[|h| - 2].kind == h[|h| - 1].kind == Pass ==> !IsInvalidated(last))
    && (IsInvalidated(last) ==> exists k: nat :: BeganLow(first, h, k) && h[k].kind == Failure && last.invalidated == Since(h[k].now))
  }

  /** Where recording stands after the events `accepted`: what is stored, and how much was written. */
  ghost predicate Recording(key: string, first: CacheRow, before: int, h: seq<CacheRow>, last: CacheRow, accepted: seq<Event>) {
    && LastFor(h, KeyText, key) == Some(last) && SameButChain(last.body, AfterHistory(first.body, accepted))
    && CountUnder(h, key) == before + |accepted|
  }

  /** What one report wrote, if anything. */
  ghost predicate Wrote(p: Policy, h: seq<CacheRow>, report: Report, now: string, row: Option<CacheRow>) {
    var other := LastFor(h, KeyText, CacheKeyString(report.key));
    && (row.Some? <==> other.Some? && EventFor(p, other.value.body, report, now).Some?)
    && (row.Some? ==>
          BuildPoolRow(p, ApplyOutcome(other.value.body, EventFor(p, other.value.body, report, now).value)) == Ok(row.value))
  }

  lemma RecordedHere(
    p: Policy, key: string, first: CacheRow, before: int, h: seq<CacheRow>, last: CacheRow, accepted: seq<Event>,
    report: Report, now: string, row: Option<CacheRow>)
    requires Lawful(p) && Recording(key, first, before, h, last, accepted) && Wrote(p, h, report, now, row)
    requires CacheKeyString(report.key) == key
    ensures row.Some? <==> EventFor(p, first.body, report, now).Some?
    ensures row.Some? ==>
      Recording(key, first, before, h + [row.value], row.value, accepted + [EventFor(p, first.body, report, now).value])
  {
    LastForIsThere(h, KeyText, key);
    EventForStays(p, first.body, accepted, last.body, report, now);
    if row.Some? {
      RecordedNext(p, h, last, first, accepted, EventFor(p, first.body, report, now).value, row.value);
      assert (h + [row.value])[..|h|] == h;
    }
  }

  lemma RecordedElsewhere(
    p: Policy, key: string, first: CacheRow, before: int, h: seq<CacheRow>, last: CacheRow, accepted: seq<Event>,
    report: Report, now: string, row: CacheRow)
    requires Lawful(p) && Recording(key, first, before, h, last, accepted) && Wrote(p, h, report, now, Some(row))
    requires CacheKeyString(report.key) != key
    ensures Recording(key, first, before, h + [row], last, accepted)
  {
    var other := LastFor(h, KeyText, CacheKeyString(report.key)).value;
    LastForIsThere(h, KeyText, CacheKeyString(report.key));
    WrittenUnderSameKey(p, other, EventFor(p, other.body, report, now).value, row);
    assert (h + [row])[..|h|] == h;
  }

  /**
   * Any number of outcomes reported, for this step or others: the row stored for the step is the first one with the
   * events of `AcceptedOf` applied, up to the locators the gatekeeper kept, one row written for each. So what is
   * stored, not only the fold, carries its history.
   */
  method RecordAll(p: Policy, reports: seq<Report>, times: seq<string>, key: CacheKey, store: JsonlCacheStore, first: CacheRow)
    returns (last: CacheRow)
    requires store.Valid() && Lawful(p) && |times| == |reports|
    requires LastFor(store.history, KeyText, CacheKeyString(key)) == Some(first)
    modifies store
    ensures store.Valid()
    ensures LastFor(store.history, KeyText, CacheKeyString(key)) == Some(last)
    ensures var accepted := AcceptedOf(p, CacheKeyString(key), first.body, reports, times);
      && SameButChain(last.body, AfterHistory(first.body, accepted))
      && (Unobserved(first.body) ==>
            Carries(last.body, first.body, accepted) && Agrees(last.body, Heard(p, CacheKeyString(key), first.body, reports)))
      && CountUnder(store.history, CacheKeyString(key)) == CountUnder(old(store.history), CacheKeyString(key)) + |accepted|
  {
    last := first;
    ghost var k, before := CacheKeyString(key), CountUnder(store.history, CacheKeyString(key));
    ghost var accepted: seq<Event> := [];
    for i := 0 to |reports|
      invariant store.Valid() && accepted == AcceptedOf(p, k, first.body, reports[..i], times[..i])
      invariant Recording(k, first, before, store.history, last, accepted)
    {
      ghost var h := store.history;
      AcceptedNext(p, k, first.body, reports, times, i);
      var r := RecordStepOutcome(p, reports[i], times[i], store);
      var row := if r.Ok? && r.value.Written? then Some(r.value.row) else None;
      if CacheKeyString(reports[i].key) == CacheKeyString(key) {
        RecordedHere(p, k, first, before, h, last, accepted, reports[i], times[i], row);
        if row.Some? {
          accepted := accepted + [EventFor(p, first.body, reports[i], times[i]).value];
          last := row.value;
        }
      } else if row.Some? {
        RecordedElsewhere(p, k, first, before, h, last, accepted, reports[i], times[i], row.value);
      }
    }
    assert reports[..|reports|] == reports && times[..|times|] == times;
    RecordedSays(p, k, first.body, last.body, reports, times, accepted);
  }

  lemma RecordedSays(
    p: Policy, key: string, first: Body, last: Body, reports: seq<Report>, times: seq<string>, accepted: seq<Event>)
    requires |times| == |reports| && accepted == AcceptedOf(p, key, first, reports, times)
    requires SameButChain(last, AfterHistory(first, accepted))
    ensures Unobserved(first) ==> Carries(last, first, accepted) && Agrees(last, Heard(p, key, first, reports))
  {
    HeardIsObserved(p, key, first, reports, times);
    if Unobserved(first) {
      StoredRowRefinesHistory(first, accepted, last);
    }
  }

  /** How many rows were ever written under a key. */
  function CountUnder(h: seq<CacheRow>, key: string): nat {
    if |h| == 0 then 0 else CountUnder(h[..|h| - 1], key) + (if KeyText(h[|h| - 1]) == key then 1 else 0)
  }

  lemma AcceptedNext(p: Policy, key: string, first: Body, reports: seq<Report>, times: seq<string>, i: nat)
    requires i < |reports| == |times|
    ensures var front, e := AcceptedOf(p, key, first, reports[..i], times[..i]), EventFor(p, first, reports[i], times[i]);
      AcceptedOf(p, key, first, reports[..i + 1], times[..i + 1])
        == if CacheKeyString(reports[i].key) == key && e.Some? then front + [e.value] else front
  {
    assert reports[..i + 1][..i] == reports[..i] && times[..i + 1][..i] == times[..i];
  }

  /**
   * A row that is the first one plus its history records that history: the counts and the average since the last
   * repair, the mark that two trailing failures set and two trailing passes clear, and since when it has been set.
   */
  lemma StoredRowRefinesHistory(first: Body, accepted: seq<Event>, last: Body)
    requires Unobserved(first) && SameButChain(last, AfterHistory(first, accepted))
    ensures Carries(last, first, accepted)
  {
    ConfidenceRefinesHistory(first, accepted);
    SameRecord(last, AfterHistory(first, accepted));
    if |accepted| >= 2 {
      TwoInARowDecide(first, accepted);
    }
    if IsInvalidated(last) {
      var k := InvalidatedSinceFailure(first, accepted);
    }
  }

  lemma SameRecord(a: Body, b: Body)
    requires SameButChain(a, b)
    ensures a.confidence == b.confidence && a.successes == b.successes && a.failures == b.failures && a.invalidated == b.invalidated
  {
    var x, y := a.(action := a.action.(chain := [])), b.(action := b.action.(chain := []));
    assert x.confidence == y.confidence && x.successes == y.successes && x.failures == y.failures && x.invalidated == y.invalidated;
  }

  // ---- what a recorded pass does to the locators ----

  /** The chain the row has once an outcome other than a repair has been recorded. */
  function ChainAfter(p: Policy, b: Body): seq<Locator> {
    if !Poolable(p, b) then []
    else if |PoolSafe(p, b.action.chain)| > 0 then PoolSafe(p, b.action.chain)
    else [TOPOLOGY]
  }

  lemma {:induction false} PoolSafeKeepsAllIff(p: Policy, chain: seq<Locator>)
    ensures |PoolSafe(p, chain)| <= |chain|
    ensures PoolSafe(p, chain) == chain <==>
      forall i | 0 <= i < |chain| :: !p.Tainted(chain[i]) && chain[i].tenantScoped == Some(false)
  {
    if |chain| > 0 {
      var n := |chain| - 1;
      PoolSafeKeepsAllIff(p, chain[..n]);
      var s := PoolSafe(p, chain[..n]);
      if !p.Tainted(chain[n]) && |s| == n {
        assert (s + [Mark(chain[n], false)])[..n] == s && chain == chain[..n] + [chain[n]];
        assert s + [Mark(chain[n], false)] == chain <==> s == chain[..n] && Mark(chain[n], false) == chain[n];
      }
    }
  }

  predicate KeepsChain(p: Policy, b: Body) {
    var chain := b.action.chain;
    && (chain == [] ==> !Poolable(p, b))
    && (chain != [] ==> !p.literal(b.assertion))
    && forall i | 0 <= i < |chain| :: !p.Tainted(chain[i]) && chain[i].tenantScoped == Some(false)
  }

  lemma RecordedChain(p: Policy, b: Body, e: Event)
    requires Lawful(p) && e.kind != Repaired
    ensures BuildPoolRow(p, ApplyOutcome(b, e)).Ok?
    ensures BuildPoolRow(p, ApplyOutcome(b, e)).value.body.action.chain == ChainAfter(p, b)
  {
    PoolRowBuilt(p, ApplyOutcome(b, e));
    assert ApplyOutcome(b, e).body.action == b.action && ApplyOutcome(b, e).body.topology == b.topology;
  }

  /**
   * Recording a plain pass or failure rewrites the step's locators. They come out unchanged exactly when the row may
   * be pooled with every locator clean and marked so, or has no locators and may not be pooled.
   */
  lemma ChainKeptIff(p: Policy, b: Body, e: Event)
    requires Lawful(p) && e.kind != Repaired
    ensures BuildPoolRow(p, ApplyOutcome(b, e)).Ok?
    ensures BuildPoolRow(p, ApplyOutcome(b, e)).value.body.action.chain == b.action.chain <==> KeepsChain(p, b)
  {
    var chain := b.action.chain;
    RecordedChain(p, b, e);
    PoolSafeKeepsAllIff(p, chain);
    if chain == [TOPOLOGY] {
      assert [TOPOLOGY][..0] == [] && PoolSafe(p, []) == [];
      assert PoolSafe(p, chain) == chain;
    }
    assert ChainAfter(p, b) == [TOPOLOGY] ==> |PoolSafe(p, chain)| == 0 || PoolSafe(p, chain) == [TOPOLOGY];
  }

  /** So a step whose assertion is tenant-specific loses its locators the first time it is seen to pass. */
  lemma PassErasesTenantStep(p: Policy, c: Candidate, now: string)
    requires Lawful(p) && p.literal(c.body.assertion) && |c.body.action.chain| > 0
    ensures var tenant := BuildTenantRow(p, c);
      && |tenant.body.action.chain| == |c.body.action.chain|
      && BuildPoolRow(p, ApplyOutcome(tenant.body, Event(Pass, now, None))).Ok?
      && BuildPoolRow(p, ApplyOutcome(tenant.body, Event(Pass, now, None))).value.body.action.chain == []
  {
    ClassifyPartitions(p, c.body.action.chain);
  }

  lemma {:induction false} ClassifyPartitions(p: Policy, chain: seq<Locator>)
    ensures |PoolSafe(p, chain)| + |TenantOnly(p, chain)| == |chain|
  {
    if |chain| > 0 {
      ClassifyPartitions(p, chain[..|chain| - 1]);
    }
  }

  // ---- pool safety ----

  /** Every row ever routed to the pool file may be there. */
  ghost predicate PoolClean(p: Policy, h: seq<CacheRow>) {
    forall row | row in h && row.poolEligible :: Shareable(p, row)
  }

  datatype Op =
    | IngestOp(bundle: Bundle)
    | RecordOp(report: Report, now: string)

  lemma {:induction false} WrittenIsClean(p: Policy, rows: seq<Candidate>)
    requires Lawful(p) && forall i | 0 <= i < |rows| :: WriteCacheRowPair(p, rows[i]).Ok?
    ensures PoolClean(p, Ingest.Written(p, rows))
  {
    if |rows| > 0 {
      WrittenIsClean(p, rows[..|rows| - 1]);
      RefusedIffOverclaimed(p, rows[|rows| - 1]);
    }
  }

  method Perform(p: Policy, op: Op, store: JsonlCacheStore)
    requires store.Valid() && Lawful(p)
    modifies store
    ensures store.Valid() && (old(store.Faithful()) ==> store.Faithful())
    ensures old(PoolClean(p, store.history)) ==> PoolClean(p, store.history)
    ensures old(store.history) <= store.history
  {
    match op
    case IngestOp(bundle) =>
      var r := IngestBundle(p, bundle, store);
      if r.Ok? {
        WrittenIsClean(p, bundle.rows);
      }
    case RecordOp(report, now) =>
      ghost var before := LastFor(store.history, KeyText, CacheKeyString(report.key));
      var r := RecordStepOutcome(p, report, now, store);
      if r.Ok? && r.value.Written? {
        PoolRowBuilt(p, ApplyOutcome(before.value.body, EventOf(report, ClassifyOutcome(report.outcome).value, now)));
      }
  }

  /** A row the default rules let into the pool, said of what it holds. */
  ghost predicate NothingTenant(v: Vocabulary, row: CacheRow) {
    && (forall j | 0 <= j < |row.body.action.chain| ::
          row.body.action.chain[j].strategy == TopologyOnly || Shared(v, row.body.action.chain[j]))
    && (forall t | Expects(row.body.assertion, t) :: !TenantText(v, t))
    && (forall loc | Targets(row.body.assertion, loc) :: loc.strategy == TopologyOnly || Shared(v, loc))
    && !ShowsAddress(StripBraced(Print(row.body.assertion, false, 0)))
  }

  lemma SharedByDefault(v: Vocabulary, row: CacheRow)
    requires Shareable(DefaultPolicy(v), row)
    ensures NothingTenant(v, row)
  {
    var chain := row.body.action.chain;
    forall j | 0 <= j < |chain| ensures chain[j].strategy == TopologyOnly || Shared(v, chain[j]) {
      assert !DefaultPolicy(v).Tainted(chain[j]);
      CleanIff(v, chain[j]);
    }
    LiteralIff(v, row.body.assertion);
  }

  /** After any run of ingests and outcomes the pool is clean, and so is every program read at pool scope. */
  method RunAndRead(p: Policy, ops: seq<Op>, store: JsonlCacheStore, key: ProgramKey) returns (r: Resolution)
    requires store.Valid() && Lawful(p) && PoolClean(p, store.history)
    modifies store
    ensures store.Valid() && PoolClean(p, store.history) && old(store.history) <= store.history
    ensures r.Hit? ==> forall i | 0 <= i < |r.rows| :: r.rows[i].poolEligible && Shareable(p, r.rows[i])
    ensures forall v: Vocabulary | p == DefaultPolicy(v) && r.Hit? ::
      forall i | 0 <= i < |r.rows| :: NothingTenant(v, r.rows[i])
  {
    for i := 0 to |ops|
      invariant store.Valid() && PoolClean(p, store.history) && old(store.history) <= store.history
    {
      Perform(p, ops[i], store);
    }
    r := ResolveProgram(store, key, PoolOnly);
    ViewIsView(store.history, key, PoolOnly);
    PoolHitIsShareable(p, r, ViewOf(store.history, key, PoolOnly), store.history, key);
    if r.Hit? {
      forall v: Vocabulary, i | p == DefaultPolicy(v) && 0 <= i < |r.rows| ensures NothingTenant(v, r.rows[i]) {
        SharedByDefault(v, r.rows[i]);
      }
    }
  }

  lemma PoolHitIsShareable(p: Policy, r: Resolution, view: seq<CacheRow>, h: seq<CacheRow>, key: ProgramKey)
    requires PoolClean(p, h) && IsView(view, h, key, PoolOnly) && Answers(r, view)
    ensures r.Hit? ==> forall i | 0 <= i < |r.rows| :: r.rows[i].poolEligible && Shareable(p, r.rows[i])
  {
    if r.Hit? {
      forall i | 0 <= i < |r.rows| ensures r.rows[i].poolEligible && Shareable(p, r.rows[i]) {
        var row := r.rows[i];
        assert row in view;
        LastForIsThere(h, SplitKeyText, SplitKeyText(row));
      }
    }
  }
}
