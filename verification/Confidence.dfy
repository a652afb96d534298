/**
 * Confidence, self-invalidation and the repair rewrite: what a row records about the outcomes it has seen.
 * Amounts are millionths, so the stored rounding to six decimals is integer rounding.
 */
module Confidence {
  import opened Wrappers
  import opened CacheTypes

  const ONE := 1_000_000
  const INVALIDATION_THRESHOLD := 500_000

  datatype OutcomeKind = Pass | Failure | Repaired

  function ClassifyOutcome(outcome: string): Option<OutcomeKind> {
    match outcome
    case "PASS" => Some(Pass)
    case "REPAIRED_PASS" => Some(Repaired)
    case "ASSERTION_FAILED" => Some(Failure)
    case "LOCATOR_NOT_FOUND" => Some(Failure)
    case "TIMEOUT" => Some(Failure)
    case "PAGE_ERROR" => Some(Failure)
    case "REPAIR_EXHAUSTED" => Some(Failure)
    case _ => None
  }

  /** The newest observation weighs three tenths; the first one seeds the value. */
  function NextConfidence(current: int, observations: int, success: bool): int {
    var observed := if success then ONE else 0;
    if observations <= 0 then observed else (3 * observed + 7 * current + 5) / 10
  }

  datatype Repair = Repair(runId: string, attempt: int, corrected: Action)

  /** One reported outcome, with its time and, for a repair, what the repair produced. */
  datatype Event = Event(kind: OutcomeKind, now: string, repair: Option<Repair>)

  predicate IsInvalidated(row: Body) {
    row.invalidated.Since?
  }

  /** The next version of a row. Eligibility and provenance of the old version are never carried over. */
  function ApplyOutcome(row: Body, e: Event): Candidate {
    var clean := row.(provenance := None);
    if e.kind == Repaired then
      var body := clean.(
        action := if e.repair.Some? then e.repair.value.corrected else row.action,
        confidence := ONE, successes := 1, failures := 0,
        lastVerifiedAt := e.now, invalidated := Cleared);
      Candidate(
        if e.repair.Some?
        then body.(provenance := Some(Provenance(e.now, e.repair.value.runId, e.repair.value.attempt, row.action.kind)))
        else body,
        None)
    else
      var success := e.kind == Pass;
      var confidence := NextConfidence(row.confidence, row.successes + row.failures, success);
      Candidate(
        clean.(
          confidence := confidence,
          successes := row.successes + (if success then 1 else 0),
          failures := row.failures + (if success then 0 else 1),
          lastVerifiedAt := if success then e.now else row.lastVerifiedAt,
          invalidated :=
            if confidence >= INVALIDATION_THRESHOLD then Cleared
            else if IsInvalidated(row) then row.invalidated
            else Since(e.now)),
        None)
  }

  /** A row after a whole history of outcomes. */
  function AfterHistory(row: Body, h: seq<Event>): Body {
    if |h| == 0 then row else ApplyOutcome(AfterHistory(row, h[..|h| - 1]), h[|h| - 1]).body
  }

  // ---- what the history says, without looking at a row ----

  /** Successes and failures since the last repair; the repair itself is the first success. */
  function Observations(h: seq<Event>): seq<bool> {
    if |h| == 0 then []
    else if h[|h| - 1].kind == Repaired then [true]
    else Observations(h[..|h| - 1]) + [h[|h| - 1].kind == Pass]
  }

  function CountOf(s: seq<bool>, v: bool): nat {
    if |s| == 0 then 0 else CountOf(s[..|s| - 1], v) + (if s[|s| - 1] == v then 1 else 0)
  }

  /** The exact exponentially weighted average of the observations, in millionths. */
  function Ewma(s: seq<bool>): real
    requires |s| > 0
  {
    var observed := if s[|s| - 1] then 1_000_000.0 else 0.0;
    if |s| == 1 then observed else 0.3 * observed + 0.7 * Ewma(s[..|s| - 1])
  }

  /** A row as the compiler writes it. */
  predicate Unobserved(row: Body) {
    row.confidence == 0 && row.successes == 0 && row.failures == 0 && row.invalidated == Unset
  }

  /** Within what rounding can accumulate: half a millionth a step, seven tenths of it carried on. */
  predicate Near(stored: real, exact: real) {
    -5.0 / 3.0 <= stored - exact <= 5.0 / 3.0
  }

  lemma NearStep(c: real, e: real, observed: real, x: real)
    requires Near(c, e) && -0.5 <= x - (0.3 * observed + 0.7 * c) <= 0.5
    ensures Near(x, 0.3 * observed + 0.7 * e)
  {
    var d := c - e;
    assert 0.7 * c == 0.7 * e + 0.7 * d;
    assert x - (0.3 * observed + 0.7 * e) == x - (0.3 * observed + 0.7 * c) + 0.7 * d;
  }

  /** Storing the next value rounds to the nearest millionth. */
  lemma Rounding(c: int, o: int)
    requires 0 <= c <= ONE && o in {0, ONE}
    ensures var x := (3 * o + 7 * c + 5) / 10;
      0 <= x <= ONE && -0.5 <= x as real - (0.3 * (o as real) + 0.7 * (c as real)) <= 0.5
  {
    var n := 3 * o + 7 * c;
    var x := (n + 5) / 10;
    assert 10 * x <= n + 5 < 10 * x + 10;
    assert 0.3 * (o as real) + 0.7 * (c as real) == (n as real) / 10.0;
  }

  /** What a row records of the observations since the last repair. */
  predicate Agrees(r: Body, s: seq<bool>) {
    && r.successes == CountOf(s, true) && r.failures == CountOf(s, false)
    && r.successes + r.failures == |s|
    && 0 <= r.confidence <= ONE
    && (|s| == 0 ==> r.confidence == 0 && !IsInvalidated(r))
    && (|s| > 0 ==> Near(r.confidence as real, Ewma(s)))
    && (|s| > 0 ==> (IsInvalidated(r) <==> r.confidence < INVALIDATION_THRESHOLD))
  }

  lemma AgreesAfterRepair(r: Body, e: Event)
    requires e.kind == Repaired
    ensures Agrees(ApplyOutcome(r, e).body, [true])
  {
    assert [true][..0] == [];
  }

  lemma AverageStep(c: int, s: seq<bool>, success: bool)
    requires 0 <= c <= ONE && (|s| > 0 ==> Near(c as real, Ewma(s)))
    ensures var x := NextConfidence(c, |s|, success);
      0 <= x <= ONE && Near(x as real, Ewma(s + [success]))
  {
    assert (s + [success])[..|s|] == s;
    if |s| > 0 {
      var o := if success then ONE else 0;
      Rounding(c, o);
      NearStep(c as real, Ewma(s), o as real, NextConfidence(c, |s|, success) as real);
    }
  }

  lemma AgreesAfterPlain(r: Body, s: seq<bool>, e: Event)
    requires Agrees(r, s) && e.kind != Repaired
    ensures Agrees(ApplyOutcome(r, e).body, s + [e.kind == Pass])
  {
    var success := e.kind == Pass;
    AverageStep(r.confidence, s, success);
    assert (s + [success])[..|s|] == s;
  }

  /** The counters and the stored confidence follow from the observations since the last repair alone. */
  lemma {:induction false} ConfidenceRefinesHistory(row: Body, h: seq<Event>)
    requires Unobserved(row)
    ensures Agrees(AfterHistory(row, h), Observations(h))
    decreases |h|
  {
    if |h| > 0 {
      var before, last := h[..|h| - 1], h[|h| - 1];
      ConfidenceRefinesHistory(row, before);
      if last.kind == Repaired {
        AgreesAfterRepair(AfterHistory(row, before), last);
      } else {
        AgreesAfterPlain(AfterHistory(row, before), Observations(before), last);
      }
    }
  }

  predicate Low(row: Body, h: seq<Event>) {
    |Observations(h)| > 0 && AfterHistory(row, h).confidence < INVALIDATION_THRESHOLD
  }

  /** `k` is the event that began the low stretch the history ends in. */
  ghost predicate BeganLow(row: Body, h: seq<Event>, k: nat) {
    && k < |h|
    && (forall j | k < j <= |h| :: Low(row, h[..j]))
    && !Low(row, h[..k])
  }

  /** Entering a low stretch takes a failure, and staying in it keeps the mark. */
  lemma LowStep(row: Body, h: seq<Event>)
    requires Unobserved(row) && Low(row, h)
    ensures |h| > 0
    ensures var n := |h| - 1;
      if Low(row, h[..n])
      then AfterHistory(row, h).invalidated == AfterHistory(row, h[..n]).invalidated
      else h[n].kind == Failure && AfterHistory(row, h).invalidated == Since(h[n].now)
  {
    ConfidenceRefinesHistory(row, h[..|h| - 1]);
    ConfidenceRefinesHistory(row, h);
  }

  /** `invalidated_at` is the time of the failure that began the current low stretch. */
  lemma {:induction false} InvalidatedSinceFailure(row: Body, h: seq<Event>) returns (k: nat)
    requires Unobserved(row) && Low(row, h)
    ensures BeganLow(row, h, k) && h[k].kind == Failure
    ensures AfterHistory(row, h).invalidated == Since(h[k].now)
    decreases |h|
  {
    LowStep(row, h);
    assert h[..|h|] == h;
    var before := h[..|h| - 1];
    if Low(row, before) {
      k := InvalidatedSinceFailure(row, before);
      assert forall j | 0 <= j < |h| :: before[..j] == h[..j];
    } else {
      k := |h| - 1;
    }
  }

  /** Two failures in a row always invalidate, and two passes in a row always clear, whatever came before. */
  lemma TwoInARowDecide(row: Body, h: seq<Event>)
    requires Unobserved(row) && |h| >= 2
    ensures h[|h| - 2].kind == Failure && h[|h| - 1].kind == Failure ==> IsInvalidated(AfterHistory(row, h))
    ensures h[|h| - 2].kind == Pass && h[|h| - 1].kind == Pass ==> !IsInvalidated(AfterHistory(row, h))
  {
    var b1 := h[..|h| - 1];
    var b2 := b1[..|b1| - 1];
    assert b1[|b1| - 1] == h[|h| - 2];
    ConfidenceRefinesHistory(row, h);
    ConfidenceRefinesHistory(row, b1);
    ConfidenceRefinesHistory(row, b2);
  }
}
