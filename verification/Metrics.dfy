/**
 * The report computed from emitted rows: the dedupe key, the ratios, the amortization curve and the hit-rate trend,
 * and how they agree with what the runner counted.
 */
module Metrics {
  import opened Wrappers
  import opened Order
  import opened Decimal
  import opened Costs

  // ---- selection ----

  function FilterSteps(rows: seq<MetricRow>): seq<StepMetric> {
    if |rows| == 0 then []
    else
      var front := FilterSteps(rows[..|rows| - 1]);
      match rows[|rows| - 1] case StepLine(s) => front + [s] case RunLine(_) => front
  }

  function FilterRuns(rows: seq<MetricRow>): seq<RunMetric> {
    if |rows| == 0 then []
    else
      var front := FilterRuns(rows[..|rows| - 1]);
      match rows[|rows| - 1] case StepLine(_) => front case RunLine(r) => front + [r]
  }

  // ---- the dedupe key ----

  function StepKey(runId: string, index: int): string {
    runId + "::" + IntText(index)
  }

  function KeyOf(s: StepMetric): string { StepKey(s.runId, s.row.stepIndex) }

  /** A number's text holds no colon, so the last one of a key ends the separator. */
  lemma NumberHasNoColon(n: int, i: nat)
    requires i < |IntText(n)|
    ensures IntText(n)[i] != ':'
  {
    assert Digits(NatText(if n < 0 then -n else n));
  }

  lemma LastColon(a: string, m: int, i: nat)
    ensures var s := StepKey(a, m); |a| + 1 < i < |s| ==> s[i] != ':'
    ensures StepKey(a, m)[|a| + 1] == ':' && StepKey(a, m)[..|a|] == a && StepKey(a, m)[|a| + 2..] == IntText(m)
  {
    var s := StepKey(a, m);
    if |a| + 1 < i < |s| {
      NumberHasNoColon(m, i - |a| - 2);
      assert s[i] == IntText(m)[i - |a| - 2];
    }
  }

  /** No two steps of any two runs share a key, whatever the run ids contain. */
  lemma StepKeyInjective(a: string, m: int, b: string, n: int)
    requires StepKey(a, m) == StepKey(b, n)
    ensures a == b && m == n
  {
    LastColon(a, m, |b| + 1);
    LastColon(b, n, |a| + 1);
    LastColon(a, m, |a| + 1);
    LastColon(b, n, |b| + 1);
    assert |a| == |b|;
    IntTextInjective(m, n);
  }

  // ---- maps in insertion order ----

  function Keys<V>(m: seq<(string, V)>): (r: seq<string>)
    ensures |r| == |m| && forall i | 0 <= i < |m| :: r[i] == m[i].0
  {
    seq(|m|, i requires 0 <= i < |m| => m[i].0)
  }

  function Values<V>(m: seq<(string, V)>): (r: seq<V>)
    ensures |r| == |m| && forall i | 0 <= i < |m| :: r[i] == m[i].1
  {
    seq(|m|, i requires 0 <= i < |m| => m[i].1)
  }

  function Find<V>(m: seq<(string, V)>, k: string): (r: Option<nat>)
    ensures r.Some? ==> r.value < |m| && m[r.value].0 == k
    ensures r.None? <==> k !in Keys(m)
  {
    if |m| == 0 then None
    else if m[|m| - 1].0 == k then
      assert Keys(m)[|m| - 1] == k;
      Some(|m| - 1)
    else
      var front := m[..|m| - 1];
      assert Keys(m) == Keys(front) + [m[|m| - 1].0];
      Find(front, k)
  }

  /** `map.set(k, f(map.get(k)))`: an existing key keeps its place. */
  function Put<V>(m: seq<(string, V)>, k: string, f: Option<V> -> V): seq<(string, V)> {
    match Find(m, k)
    case None => m + [(k, f(None))]
    case Some(i) => m[i := (k, f(Some(m[i].1)))]
  }

  lemma PutKeys<V>(m: seq<(string, V)>, k: string, f: Option<V> -> V)
    ensures Keys(Put(m, k, f)) == if k in Keys(m) then Keys(m) else Keys(m) + [k]
  {
  }

  function Always<V>(v: V): Option<V> -> V {
    (found: Option<V>) => v
  }

  // ---- one row per step ----

  /** What the map holds after these steps. */
  function Latest(steps: seq<StepMetric>): seq<(string, StepMetric)> {
    if |steps| == 0 then []
    else
      var last := steps[|steps| - 1];
      Put(Latest(steps[..|steps| - 1]), KeyOf(last), Always(last))
  }

  function LastWith(steps: seq<StepMetric>, k: string): Option<StepMetric> {
    if |steps| == 0 then None
    else if KeyOf(steps[|steps| - 1]) == k then Some(steps[|steps| - 1]) else LastWith(steps[..|steps| - 1], k)
  }

  method DedupeLatestSteps(steps: seq<StepMetric>) returns (r: seq<StepMetric>)
    ensures r == Values(Latest(steps))
  {
    var m: seq<(string, StepMetric)> := [];
    for i := 0 to |steps|
      invariant m == Latest(steps[..i])
    {
      assert steps[..i + 1][..i] == steps[..i];
      m := Put(m, KeyOf(steps[i]), Always(steps[i]));
    }
    assert steps[..|steps|] == steps;
    r := Values(m);
  }

  function KeysOf(steps: seq<StepMetric>): (r: seq<string>)
    ensures |r| == |steps| && forall i | 0 <= i < |steps| :: r[i] == KeyOf(steps[i])
  {
    MapSeq(KeyOf, steps)
  }

  lemma {:induction false} LatestKeys(steps: seq<StepMetric>)
    ensures Keys(Latest(steps)) == Once(KeysOf(steps))
  {
    if |steps| > 0 {
      var front, last := steps[..|steps| - 1], steps[|steps| - 1];
      LatestKeys(front);
      KeysOfSnoc(steps);
      OnceStep(KeysOf(front), KeyOf(last));
      PutKeys(Latest(front), KeyOf(last), Always(last));
    }
  }

  lemma KeysOfSnoc(steps: seq<StepMetric>)
    requires |steps| > 0
    ensures KeysOf(steps) == KeysOf(steps[..|steps| - 1]) + [KeyOf(steps[|steps| - 1])]
  {
  }

  ghost predicate HoldsLast(m: seq<(string, StepMetric)>, steps: seq<StepMetric>) {
    forall i | 0 <= i < |m| :: LastWith(steps, m[i].0) == Some(m[i].1) && KeyOf(m[i].1) == m[i].0
  }

  lemma {:induction false} LatestHoldsLast(steps: seq<StepMetric>)
    ensures HoldsLast(Latest(steps), steps)
  {
    if |steps| > 0 {
      var front, last := steps[..|steps| - 1], steps[|steps| - 1];
      LatestHoldsLast(front);
      LatestKeys(front);
      OnceMembers(KeysOf(front));
      PutLatest(Latest(front), last, steps);
    }
  }

  /** Each step that was ever reported appears once, in its first place, with its last row. */
  lemma LatestSpec(steps: seq<StepMetric>)
    ensures Keys(Latest(steps)) == Once(KeysOf(steps)) && HoldsLast(Latest(steps), steps)
  {
    LatestKeys(steps);
    LatestHoldsLast(steps);
  }

  lemma {:induction false} PutLatest(m: seq<(string, StepMetric)>, last: StepMetric, steps: seq<StepMetric>)
    requires |steps| > 0 && steps[|steps| - 1] == last && Distinct(Keys(m))
    requires HoldsLast(m, steps[..|steps| - 1])
    ensures HoldsLast(Put(m, KeyOf(last), Always(last)), steps)
  {
    var r := Put(m, KeyOf(last), Always(last));
    forall i | 0 <= i < |r| ensures LastWith(steps, r[i].0) == Some(r[i].1) && KeyOf(r[i].1) == r[i].0 {
      if r[i].0 == KeyOf(last) {
        var k := Find(m, KeyOf(last));
        assert k.Some? ==> Keys(m)[k.value] == m[k.value].0 && Keys(m)[i] == m[i].0;
      } else {
        assert i < |m| && r[i] == m[i];
      }
    }
  }

  ghost predicate DistinctSteps(steps: seq<StepMetric>) {
    forall i, j | 0 <= i < j < |steps| :: (steps[i].runId, steps[i].row.stepIndex) != (steps[j].runId, steps[j].row.stepIndex)
  }

  /** Where no step of a run was reported twice, nothing is lost and nothing moves. */
  lemma DedupeLosesNothing(steps: seq<StepMetric>)
    requires DistinctSteps(steps)
    ensures Values(Latest(steps)) == steps
  {
    forall i, j | 0 <= i < j < |steps| ensures KeysOf(steps)[i] != KeysOf(steps)[j] {
      if KeyOf(steps[i]) == KeyOf(steps[j]) {
        StepKeyInjective(steps[i].runId, steps[i].row.stepIndex, steps[j].runId, steps[j].row.stepIndex);
      }
    }
    LatestSpec(steps);
    OnceDistinct(KeysOf(steps));
    forall i | 0 <= i < |steps| ensures Values(Latest(steps))[i] == steps[i] {
      assert Keys(Latest(steps))[i] == KeyOf(steps[i]);
      OnlyOneWith(steps, i);
    }
  }

  lemma {:induction false} OnlyOneWith(steps: seq<StepMetric>, i: nat)
    requires i < |steps| && forall a, b | 0 <= a < b < |steps| :: KeyOf(steps[a]) != KeyOf(steps[b])
    ensures LastWith(steps, KeyOf(steps[i])) == Some(steps[i])
  {
    if i < |steps| - 1 {
      OnlyOneWith(steps[..|steps| - 1], i);
    }
  }

  // ---- grouping ----

  function Append<T>(x: T): Option<seq<T>> -> seq<T> {
    (found: Option<seq<T>>) => if found.Some? then found.value + [x] else [x]
  }

  function Groups<T>(items: seq<T>, key: T -> string): seq<(string, seq<T>)> {
    if |items| == 0 then []
    else
      var last := items[|items| - 1];
      Put(Groups(items[..|items| - 1], key), key(last), Append(last))
  }

  function Having<T>(items: seq<T>, key: T -> string, k: string): seq<T> {
    if |items| == 0 then []
    else
      var front := Having(items[..|items| - 1], key, k);
      if key(items[|items| - 1]) == k then front + [items[|items| - 1]] else front
  }

  method GroupBy<T>(items: seq<T>, key: T -> string) returns (r: seq<(string, seq<T>)>)
    ensures r == Groups(items, key)
  {
    r := [];
    for i := 0 to |items|
      invariant r == Groups(items[..i], key)
    {
      assert items[..i + 1][..i] == items[..i];
      r := Put(r, key(items[i]), Append(items[i]));
    }
    assert items[..|items|] == items;
  }

  lemma {:induction false} HavingNone<T>(items: seq<T>, key: T -> string, k: string)
    requires forall i | 0 <= i < |items| :: key(items[i]) != k
    ensures Having(items, key, k) == []
  {
    if |items| > 0 {
      HavingNone(items[..|items| - 1], key, k);
    }
  }

  lemma MapSnoc<T>(items: seq<T>, key: T -> string)
    requires |items| > 0
    ensures MapSeq(key, items) == MapSeq(key, items[..|items| - 1]) + [key(items[|items| - 1])]
  {
  }

  lemma {:induction false} GroupKeysAreOnce<T>(items: seq<T>, key: T -> string)
    ensures Keys(Groups(items, key)) == Once(MapSeq(key, items))
  {
    if |items| > 0 {
      var front, last := items[..|items| - 1], items[|items| - 1];
      GroupKeysAreOnce(front, key);
      MapSnoc(items, key);
      OnceStep(MapSeq(key, front), key(last));
      PutKeys(Groups(front, key), key(last), Append(last));
    }
  }

  /** The keys of a grouping: each key of the items, in order of first appearance. */
  lemma GroupKeys<T>(items: seq<T>, key: T -> string)
    ensures Keys(Groups(items, key)) == Once(MapSeq(key, items)) && Distinct(Keys(Groups(items, key)))
  {
    GroupKeysAreOnce(items, key);
    OnceMembers(MapSeq(key, items));
  }

  lemma GroupKeyHasItem<T>(items: seq<T>, key: T -> string, k: string)
    requires k !in Keys(Groups(items, key))
    ensures Having(items, key, k) == []
  {
    GroupKeys(items, key);
    OnceMembers(MapSeq(key, items));
    forall i | 0 <= i < |items| ensures key(items[i]) != k {
      assert MapSeq(key, items)[i] == key(items[i]);
    }
    HavingNone(items, key, k);
  }

  predicate IsGroup<T(==)>(g: (string, seq<T>), items: seq<T>, key: T -> string) {
    g.1 == Having(items, key, g.0)
  }

  /** Each group holds its key's items, in order. */
  lemma {:induction false} GroupItems<T>(items: seq<T>, key: T -> string, i: nat)
    requires i < |Groups(items, key)|
    ensures IsGroup(Groups(items, key)[i], items, key)
  {
    var front, last := items[..|items| - 1], items[|items| - 1];
    forall j | 0 <= j < |Groups(front, key)| ensures IsGroup(Groups(front, key)[j], front, key) {
      GroupItems(front, key, j);
    }
    GroupNext(front, last, key, i);
    assert items == front + [last];
  }

  lemma GroupNext<T>(front: seq<T>, last: T, key: T -> string, i: nat)
    requires forall j | 0 <= j < |Groups(front, key)| :: IsGroup(Groups(front, key)[j], front, key)
    requires i < |Put(Groups(front, key), key(last), Append(last))|
    ensures IsGroup(Put(Groups(front, key), key(last), Append(last))[i], front + [last], key)
  {
    GroupKeys(front, key);
    if key(last) !in Keys(Groups(front, key)) {
      GroupKeyHasItem(front, key, key(last));
    }
    GroupAfter(Groups(front, key), front, last, key, i);
  }

  lemma {:induction false} GroupAfter<T>(m: seq<(string, seq<T>)>, front: seq<T>, last: T, key: T -> string, i: nat)
    requires Distinct(Keys(m)) && forall j | 0 <= j < |m| :: IsGroup(m[j], front, key)
    requires key(last) !in Keys(m) ==> Having(front, key, key(last)) == []
    requires i < |Put(m, key(last), Append(last))|
    ensures IsGroup(Put(m, key(last), Append(last))[i], front + [last], key)
  {
    assert (front + [last])[..|front|] == front;
    var k := Find(m, key(last));
    assert k.Some? ==> Keys(m)[k.value] == m[k.value].0 && Keys(m)[i] == m[i].0;
  }

  // ---- sums ----

  function SumBy<T>(s: seq<T>, f: T -> nat): nat {
    if |s| == 0 then 0 else SumBy(s[..|s| - 1], f) + f(s[|s| - 1])
  }

  lemma {:induction false} SumConcat<T>(a: seq<T>, b: seq<T>, f: T -> nat)
    ensures SumBy(a + b, f) == SumBy(a, f) + SumBy(b, f)
  {
    if |b| == 0 {
      assert a + b == a;
    } else {
      assert (a + b)[..|a + b| - 1] == a + b[..|b| - 1];
      SumConcat(a, b[..|b| - 1], f);
    }
  }

  lemma SumOne<T>(x: T, f: T -> nat)
    ensures SumBy([x], f) == f(x)
  {
    assert [x][..0] == [];
  }

  lemma {:induction false} InsertSum<T>(x: T, s: seq<T>, le: (T, T) -> bool, f: T -> nat)
    ensures SumBy(Insert(x, s, le), f) == f(x) + SumBy(s, f)
  {
    SumOne(x, f);
    if |s| == 0 || le(x, s[0]) {
      SumConcat([x], s, f);
    } else {
      SumOne(s[0], f);
      InsertSum(x, s[1..], le, f);
      SumConcat([s[0]], Insert(x, s[1..], le), f);
      SumConcat([s[0]], s[1..], f);
      assert s == [s[0]] + s[1..];
    }
  }

  /** Sorting keeps every sum. */
  lemma {:induction false} SortSum<T>(s: seq<T>, le: (T, T) -> bool, f: T -> nat)
    ensures SumBy(SortBy(s, le), f) == SumBy(s, f)
  {
    if |s| > 0 {
      SortSum(s[1..], le, f);
      InsertSum(s[0], SortBy(s[1..], le), le, f);
      SumOne(s[0], f);
      SumConcat([s[0]], s[1..], f);
      assert s == [s[0]] + s[1..];
    }
  }

  function GroupWeight<T>(w: T -> nat): ((string, seq<T>)) -> nat {
    (g: (string, seq<T>)) => SumBy(g.1, w)
  }

  lemma ReplaceSum<T>(s: seq<T>, i: nat, x: T, f: T -> nat)
    requires i < |s|
    ensures SumBy(s[i := x], f) + f(s[i]) == SumBy(s, f) + f(x)
  {
    var a, b := s[..i], s[i + 1..];
    assert s == a + [s[i]] + b && s[i := x] == a + [x] + b;
    SumOne(s[i], f);
    SumOne(x, f);
    SumConcat(a, [s[i]], f);
    SumConcat(a + [s[i]], b, f);
    SumConcat(a, [x], f);
    SumConcat(a + [x], b, f);
  }

  lemma PutSum<T>(m: seq<(string, seq<T>)>, k: string, x: T, w: T -> nat)
    ensures SumBy(Put(m, k, Append(x)), GroupWeight(w)) == SumBy(m, GroupWeight(w)) + w(x)
  {
    SumOne(x, w);
    match Find(m, k)
    case None =>
      SumOne((k, [x]), GroupWeight(w));
      SumConcat(m, [(k, [x])], GroupWeight(w));
    case Some(i) =>
      SumConcat(m[i].1, [x], w);
      ReplaceSum(m, i, (k, m[i].1 + [x]), GroupWeight(w));
  }

  /** Grouping splits every sum without loss. */
  lemma {:induction false} GroupsSum<T>(items: seq<T>, key: T -> string, w: T -> nat)
    ensures SumBy(Groups(items, key), GroupWeight(w)) == SumBy(items, w)
  {
    if |items| > 0 {
      var front, last := items[..|items| - 1], items[|items| - 1];
      GroupsSum(front, key, w);
      PutSum(Groups(front, key), key(last), last, w);
    }
  }

  // ---- ratios ----

  /** A number of the report; None when there is nothing to compute it from. */
  datatype Section = Section(value: Option<real>, numerator: nat, denominator: nat)

  function Ratio(n: nat, d: nat): Section {
    if d == 0 then Section(None, 0, 0) else Section(Some(n as real / d as real), n, d)
  }

  function One<T>(p: T -> bool): T -> nat {
    (x: T) => if p(x) then 1 else 0
  }

  function Where<T>(s: seq<T>, p: T -> bool): seq<T> {
    if |s| == 0 then []
    else
      var front := Where(s[..|s| - 1], p);
      if p(s[|s| - 1]) then front + [s[|s| - 1]] else front
  }

  lemma {:induction false} WhereCount<T>(s: seq<T>, p: T -> bool)
    ensures |Where(s, p)| == SumBy(s, One(p)) <= |s|
    ensures (exists i :: 0 <= i < |s| && !p(s[i])) ==> SumBy(s, One(p)) < |s|
  {
    if |s| > 0 {
      WhereCount(s[..|s| - 1], p);
      assert forall i | 0 <= i < |s| - 1 :: s[..|s| - 1][i] == s[i];
    }
  }

  predicate Valid(s: StepMetric) { s.row.replayValid }

  function StepReplayValidity(rows: seq<MetricRow>): Section {
    var steps := Values(Latest(FilterSteps(rows)));
    Ratio(|Where(steps, Valid)|, |steps|)
  }

  function Attempted(r: RunMetric): nat {
    if r.stepsAttempted.Some? then r.stepsAttempted.value else r.stepsTotal
  }

  /** A first pass failed somewhere in the run. */
  predicate FailedFirstPass(r: RunMetric) {
    Attempted(r) > 0 && r.stepsReplayValid < Attempted(r)
  }

  predicate SelfHealed(r: RunMetric) { r.selfHealed }

  function SelfHealRate(rows: seq<MetricRow>): Section {
    var failing := Where(FilterRuns(rows), FailedFirstPass);
    Ratio(|Where(failing, SelfHealed)|, |failing|)
  }

  // ---- the amortization curve ----

  datatype Point = Point(n: nat, amortized: real, buildPaid: bool)

  /** What a run spent, its one-time payment included. `cost_fresh` is no part of it. */
  function Spend(r: RunMetric): nat {
    (if r.costBuild.Some? then TotalTokens(r.costBuild.value) else 0) + TotalTokens(r.costRepair) + TotalTokens(r.costReplay)
  }

  function Mean(runs: seq<RunMetric>): real
    requires |runs| > 0
  {
    SumBy(runs, Spend) as real / |runs| as real
  }

  function PaidIds(runs: seq<RunMetric>): seq<string> {
    if |runs| == 0 then []
    else
      var r := runs[|runs| - 1];
      PaidIds(runs[..|runs| - 1])
      + (if r.costBuild.None? then [] else [PaidId(r)])
  }

  predicate Unmeasured(r: RunMetric) {
    r.repairCostMeasured == Some(false)
  }

  /** The runs of the window: the first `n` in order of recording. */
  function Window(rows: seq<MetricRow>, n: Option<nat>, earlier: (RunMetric, RunMetric) -> bool): seq<RunMetric> {
    var runs := SortBy(FilterRuns(rows), earlier);
    if n.Some? && n.value < |runs| then runs[..n.value] else runs
  }

  ghost function AllRuns(): iset<RunMetric> { iset r: RunMetric | |r.runId| >= 0 }

  /** The window is the first `n` of all run rows in order, or all of them. */
  lemma WindowSays(rows: seq<MetricRow>, n: Option<nat>, earlier: (RunMetric, RunMetric) -> bool) returns (ordered: seq<RunMetric>)
    ensures multiset(ordered) == multiset(FilterRuns(rows))
    ensures TotalOn(AllRuns(), earlier) ==> Sorted(ordered, earlier)
    ensures Window(rows, n, earlier) <= ordered
    ensures |Window(rows, n, earlier)| == if n.Some? && n.value <= |ordered| then n.value else |ordered|
  {
    ordered := SortBy(FilterRuns(rows), earlier);
    SortElements(FilterRuns(rows), earlier);
    if TotalOn(AllRuns(), earlier) {
      SortSorts(FilterRuns(rows), earlier, AllRuns());
    }
  }

  predicate NoCurve(window: seq<RunMetric>) {
    window == [] || (exists i | 0 <= i < |window| :: Unmeasured(window[i])) || PaidIds(window) == []
  }

  function PaidId(r: RunMetric): string {
    if r.buildId.Some? then r.buildId.value else "<unattributed:" + r.runId + ">"
  }

  /** Point `k` of the curve: the exact mean spend of the first `k + 1` runs. */
  function PointAt(w: seq<RunMetric>, k: nat): Point
    requires k < |w|
  {
    Point(k + 1, Mean(w[..k + 1]), w[k].costBuild.Some?)
  }

  lemma PrefixNext(w: seq<RunMetric>, i: nat, cumulative: nat)
    requires i < |w| && cumulative == SumBy(w[..i], Spend)
    ensures SumBy(w[..i + 1], Spend) == cumulative + Spend(w[i])
    ensures PaidIds(w[..i + 1]) == PaidIds(w[..i]) + (if w[i].costBuild.None? then [] else [PaidId(w[i])])
    ensures PointAt(w, i) == Point(i + 1, (cumulative + Spend(w[i])) as real / (i + 1) as real, w[i].costBuild.Some?)
  {
    assert w[..i + 1][..i] == w[..i];
  }

  /** The accumulation over the window. */
  method AccumulateSpend(w: seq<RunMetric>) returns (points: seq<Point>, buildsPaid: seq<string>)
    ensures buildsPaid == PaidIds(w) && |points| == |w| && forall k | 0 <= k < |w| :: points[k] == PointAt(w, k)
  {
    points, buildsPaid := [], [];
    var cumulative: nat := 0;
    for i := 0 to |w|
      invariant cumulative == SumBy(w[..i], Spend) && buildsPaid == PaidIds(w[..i])
      invariant |points| == i && forall k | 0 <= k < i :: points[k] == PointAt(w, k)
    {
      var r := w[i];
      PrefixNext(w, i, cumulative);
      if r.costBuild.Some? {
        cumulative := cumulative + TotalTokens(r.costBuild.value);
        buildsPaid := buildsPaid + [PaidId(r)];
      }
      cumulative := cumulative + TotalTokens(r.costRepair) + TotalTokens(r.costReplay);
      points := points + [Point(i + 1, cumulative as real / (i + 1) as real, r.costBuild.Some?)];
    }
    assert w[..|w|] == w;
  }

  /**
   * The curve, or no data: an empty window, an unmeasured repair anywhere in it, or no payment at all. The section's
   * value is the last point.
   */
  method AmortizedTokensOverN(rows: seq<MetricRow>, n: Option<nat>, earlier: (RunMetric, RunMetric) -> bool)
    returns (points: seq<Point>, buildsPaid: seq<string>, value: Option<real>)
    ensures var w := Window(rows, n, earlier);
      if NoCurve(w) then points == [] && buildsPaid == [] && value == None
      else
        && |points| == |w| && buildsPaid == PaidIds(w) && value == Some(Mean(w))
        && forall k | 0 <= k < |w| :: points[k] == PointAt(w, k)
    ensures var w := Window(rows, n, earlier);
      && (value.None? <==> NothingToSpread(w)) && (value.Some? ==> CurveSays(w, points))
  {
    var w := Window(rows, n, earlier);
    NoCurveIff(w);
    points, buildsPaid, value := [], [], None;
    if w == [] || exists i | 0 <= i < |w| :: Unmeasured(w[i]) {
      return;
    }
    points, buildsPaid := AccumulateSpend(w);
    if buildsPaid == [] {
      points := [];
      return;
    }
    assert w[..|w|] == w;
    PointsSay(w, points);
    value := Some(points[|points| - 1].amortized);
  }

  /** What was paid for tokens, in and out: building once, repairing, and replaying. */
  function Paid(r: RunMetric): nat {
    (match r.costBuild case Some(c) => c.tokensIn + c.tokensOut case None => 0)
    + r.costRepair.tokensIn + r.costRepair.tokensOut + r.costReplay.tokensIn + r.costReplay.tokensOut
  }

  function PaidByAll(runs: seq<RunMetric>): nat {
    if |runs| == 0 then 0 else Paid(runs[0]) + PaidByAll(runs[1..])
  }

  lemma {:induction false} PaidIsSpend(runs: seq<RunMetric>)
    ensures PaidByAll(runs) == SumBy(runs, Spend)
    decreases |runs|
  {
    if |runs| > 0 {
      PaidIsSpend(runs[1..]);
      SumOne(runs[0], Spend);
      SumConcat([runs[0]], runs[1..], Spend);
      assert runs == [runs[0]] + runs[1..];
    }
  }

  /** The curve in the rows' own fields: each point is what was paid so far, spread over the runs so far. */
  ghost predicate CurveSays(w: seq<RunMetric>, points: seq<Point>) {
    && |points| == |w|
    && forall k | 0 <= k < |w| ::
      && points[k].n == k + 1 && (points[k].buildPaid <==> w[k].costBuild.Some?)
      && points[k].amortized == PaidByAll(w[..k + 1]) as real / (k + 1) as real
  }

  lemma PointsSay(w: seq<RunMetric>, points: seq<Point>)
    requires |points| == |w| && forall k | 0 <= k < |w| :: points[k] == PointAt(w, k)
    ensures CurveSays(w, points)
  {
    forall k | 0 <= k < |w| ensures points[k].amortized == PaidByAll(w[..k + 1]) as real / (k + 1) as real {
      PaidIsSpend(w[..k + 1]);
    }
  }

  /** No data: nothing recorded, a repair whose cost was not measured, or no build paid for. */
  ghost predicate NothingToSpread(w: seq<RunMetric>) {
    || w == [] || (exists i :: 0 <= i < |w| && w[i].repairCostMeasured == Some(false))
    || forall i | 0 <= i < |w| :: w[i].costBuild.None?
  }

  /** The name a build payment goes by. */
  predicate PaidUnder(r: RunMetric, id: string) {
    && r.costBuild.Some?
    && (match r.buildId case Some(build) => id == build case None => id == "<unattributed:" + r.runId + ">")
  }

  /** Every build paid for in the window is listed under its id, or under its run when it has none, and nothing else is. */
  lemma {:induction false} PaidIdsAre(w: seq<RunMetric>, id: string)
    ensures id in PaidIds(w) <==> exists i :: 0 <= i < |w| && PaidUnder(w[i], id)
  {
    if |w| > 0 {
      var n := |w| - 1;
      PaidIdsAre(w[..n], id);
      assert forall i | 0 <= i < n :: w[..n][i] == w[i];
      if id in PaidIds(w[..n]) {
        var i :| 0 <= i < n && PaidUnder(w[..n][i], id);
        assert PaidUnder(w[i], id);
      }
      if exists i :: 0 <= i < n && PaidUnder(w[i], id) {
        var i :| 0 <= i < n && PaidUnder(w[i], id);
        assert PaidUnder(w[..n][i], id);
      }
    }
  }

  lemma {:induction false} NoBuildNoIds(w: seq<RunMetric>)
    ensures PaidIds(w) == [] <==> forall i | 0 <= i < |w| :: w[i].costBuild.None?
  {
    if |w| > 0 {
      NoBuildNoIds(w[..|w| - 1]);
      assert forall i | 0 <= i < |w| - 1 :: w[..|w| - 1][i] == w[i];
    }
  }

  lemma NoCurveIff(w: seq<RunMetric>)
    ensures NoCurve(w) <==> NothingToSpread(w)
  {
    NoBuildNoIds(w);
  }

  lemma MeanStep(sum: real, k: real, x: real)
    requires k >= 1.0
    ensures (sum + x) / (k + 1.0) > sum / k <==> x > sum / k
    ensures (sum + x) / (k + 1.0) == sum / k <==> x == sum / k
  {
    var m := sum / k;
    assert sum == m * k;
    var next := (sum + x) / (k + 1.0);
    assert next * (k + 1.0) == m * k + x;
    assert (next - m) * (k + 1.0) == x - m;
    SignOfProduct(next - m, k + 1.0);
  }

  lemma SignOfProduct(a: real, b: real)
    requires b > 0.0
    ensures a * b > 0.0 <==> a > 0.0
    ensures a * b == 0.0 <==> a == 0.0
  {
  }

  /** The curve rises at a run exactly when that run spent more than the mean before it. */
  lemma CurveRisesIff(w: seq<RunMetric>, k: nat)
    requires 0 < k < |w|
    ensures Mean(w[..k + 1]) > Mean(w[..k]) <==> Spend(w[k]) as real > Mean(w[..k])
    ensures Mean(w[..k + 1]) == Mean(w[..k]) <==> Spend(w[k]) as real == Mean(w[..k])
  {
    assert w[..k + 1][..k] == w[..k];
    MeanStep(SumBy(w[..k], Spend) as real, k as real, Spend(w[k]) as real);
  }

  // ---- the hit-rate trend ----

  datatype HitPoint = HitPoint(n: nat, runId: string, hitRate: real, cacheSteps: nat)

  predicate FromTheCache(s: StepMetric) { s.source == Some(FromCache) }

  function RunIdOf(s: StepMetric): string { s.runId }

  function CacheSteps(rows: seq<MetricRow>): seq<StepMetric> {
    Where(Values(Latest(FilterSteps(rows))), FromTheCache)
  }

  function AnyStep(s: StepMetric): nat { 1 }

  lemma {:induction false} SumOfOnes(s: seq<StepMetric>)
    ensures SumBy(s, AnyStep) == |s|
  {
    if |s| > 0 {
      SumOfOnes(s[..|s| - 1]);
    }
  }

  /** Steps grouped by run, the runs in the order the report gives them. */
  function OrderedRuns(rows: seq<MetricRow>, before: ((string, seq<StepMetric>), (string, seq<StepMetric>)) -> bool)
    : seq<(string, seq<StepMetric>)>
  {
    SortBy(Groups(CacheSteps(rows), RunIdOf), before)
  }

  /** The point after the first `k + 1` runs: cumulative hits over cumulative steps. */
  function HitPointAt(runs: seq<(string, seq<StepMetric>)>, k: nat): HitPoint
    requires k < |runs| && SumBy(runs[..k + 1], GroupWeight(AnyStep)) > 0
  {
    var hits, total := SumBy(runs[..k + 1], GroupWeight(One(Valid))), SumBy(runs[..k + 1], GroupWeight(AnyStep));
    HitPoint(k + 1, runs[k].0, hits as real / total as real, total)
  }

  predicate IsPoint(p: HitPoint, runs: seq<(string, seq<StepMetric>)>, k: nat) {
    k < |runs| && SumBy(runs[..k + 1], GroupWeight(AnyStep)) > 0 && p == HitPointAt(runs, k)
  }

  predicate NotEmpty<T>(g: (string, seq<T>)) { |g.1| > 0 }

  lemma {:induction false} GroupsNotEmpty<T>(items: seq<T>, key: T -> string)
    ensures forall i | 0 <= i < |Groups(items, key)| :: NotEmpty(Groups(items, key)[i])
  {
    if |items| > 0 {
      GroupsNotEmpty(items[..|items| - 1], key);
    }
  }

  lemma SortKeepsAll<T>(s: seq<T>, le: (T, T) -> bool, P: T -> bool)
    requires forall i | 0 <= i < |s| :: P(s[i])
    ensures forall i | 0 <= i < |SortBy(s, le)| :: P(SortBy(s, le)[i])
  {
    var r := SortBy(s, le);
    SortElements(s, le);
    SameMembers(s, r);
    forall i | 0 <= i < |r| ensures P(r[i]) {
      assert r[i] in multiset(r) && multiset(r) == multiset(s);
      assert r[i] in multiset(s);
    }
  }

  /** One run's steps added to the counters. */
  method CountBucket(bucket: seq<StepMetric>, hits: nat, total: nat) returns (h: nat, t: nat)
    ensures h == hits + SumBy(bucket, One(Valid)) && t == total + |bucket|
  {
    h, t := hits, total;
    for i := 0 to |bucket|
      invariant h == hits + SumBy(bucket[..i], One(Valid)) && t == total + i
    {
      assert bucket[..i + 1][..i] == bucket[..i] && One(Valid)(bucket[i]) == if Valid(bucket[i]) then 1 else 0;
      t := t + 1;
      if bucket[i].row.replayValid {
        h := h + 1;
      }
    }
    assert bucket[..|bucket|] == bucket;
  }

  lemma RunNext(runs: seq<(string, seq<StepMetric>)>, k: nat)
    requires k < |runs|
    ensures SumBy(runs[..k + 1], GroupWeight(One(Valid))) == SumBy(runs[..k], GroupWeight(One(Valid))) + SumBy(runs[k].1, One(Valid))
    ensures SumBy(runs[..k + 1], GroupWeight(AnyStep)) == SumBy(runs[..k], GroupWeight(AnyStep)) + |runs[k].1|
  {
    assert runs[..k + 1][..k] == runs[..k];
    SumOfOnes(runs[k].1);
  }

  /** The series over the ordered runs. */
  method Trend(runs: seq<(string, seq<StepMetric>)>) returns (points: seq<HitPoint>, hits: nat, total: nat)
    requires forall i | 0 <= i < |runs| :: NotEmpty(runs[i])
    ensures hits == SumBy(runs, GroupWeight(One(Valid))) && total == SumBy(runs, GroupWeight(AnyStep))
    ensures |points| == |runs|
    ensures forall k | 0 <= k < |runs| :: IsPoint(points[k], runs, k)
  {
    points, hits, total := [], 0, 0;
    for k := 0 to |runs|
      invariant hits == SumBy(runs[..k], GroupWeight(One(Valid))) && total == SumBy(runs[..k], GroupWeight(AnyStep))
      invariant |points| == k
      invariant forall i | 0 <= i < k :: IsPoint(points[i], runs, i)
    {
      RunNext(runs, k);
      assert NotEmpty(runs[k]);
      hits, total := CountBucket(runs[k].1, hits, total);
      points := points + [HitPoint(k + 1, runs[k].0, hits as real / total as real, total)];
    }
    assert runs[..|runs|] == runs;
  }

  function StepsIn(runs: seq<(string, seq<StepMetric>)>): nat {
    if |runs| == 0 then 0 else |runs[0].1| + StepsIn(runs[1..])
  }

  function HitsAmong(steps: seq<StepMetric>): nat {
    if |steps| == 0 then 0 else (if steps[0].row.replayValid then 1 else 0) + HitsAmong(steps[1..])
  }

  function HitsIn(runs: seq<(string, seq<StepMetric>)>): nat {
    if |runs| == 0 then 0 else HitsAmong(runs[0].1) + HitsIn(runs[1..])
  }

  /** A point of the trend in the rows' own fields: valid replays over steps, of the runs so far. */
  ghost predicate HitPointSays(p: HitPoint, runs: seq<(string, seq<StepMetric>)>, k: nat) {
    && k < |runs| && p.n == k + 1 && p.runId == runs[k].0 && p.cacheSteps == StepsIn(runs[..k + 1]) > 0
    && p.hitRate == HitsIn(runs[..k + 1]) as real / StepsIn(runs[..k + 1]) as real
  }

  lemma {:induction false} HitsAmongIsSum(steps: seq<StepMetric>)
    ensures HitsAmong(steps) == SumBy(steps, One(Valid))
    decreases |steps|
  {
    if |steps| > 0 {
      HitsAmongIsSum(steps[1..]);
      SumOne(steps[0], One(Valid));
      SumConcat([steps[0]], steps[1..], One(Valid));
      assert steps == [steps[0]] + steps[1..];
    }
  }

  lemma {:induction false} TotalsAreSums(runs: seq<(string, seq<StepMetric>)>)
    ensures StepsIn(runs) == SumBy(runs, GroupWeight(AnyStep)) && HitsIn(runs) == SumBy(runs, GroupWeight(One(Valid)))
    decreases |runs|
  {
    if |runs| > 0 {
      TotalsAreSums(runs[1..]);
      SumOfOnes(runs[0].1);
      HitsAmongIsSum(runs[0].1);
      SumOne(runs[0], GroupWeight(AnyStep));
      SumOne(runs[0], GroupWeight(One(Valid)));
      SumConcat([runs[0]], runs[1..], GroupWeight(AnyStep));
      SumConcat([runs[0]], runs[1..], GroupWeight(One(Valid)));
      assert runs == [runs[0]] + runs[1..];
    }
  }

  lemma PointSays(p: HitPoint, runs: seq<(string, seq<StepMetric>)>, k: nat)
    requires IsPoint(p, runs, k)
    ensures HitPointSays(p, runs, k)
  {
    TotalsAreSums(runs[..k + 1]);
  }

  lemma {:induction false} WhereMembers<T>(s: seq<T>, p: T -> bool)
    ensures forall x :: x in Where(s, p) <==> x in s && p(x)
  {
    if |s| > 0 {
      WhereMembers(s[..|s| - 1], p);
      assert s == s[..|s| - 1] + [s[|s| - 1]];
    }
  }

  lemma {:induction false} HavingMembers<T>(items: seq<T>, key: T -> string, k: string)
    ensures forall x :: x in Having(items, key, k) <==> x in items && key(x) == k
  {
    if |items| > 0 {
      HavingMembers(items[..|items| - 1], key, k);
      assert items == items[..|items| - 1] + [items[|items| - 1]];
    }
  }

  /** Which steps the trend is about, and how they are bucketed: those read from the cache, run by run. */
  ghost predicate BucketSays(g: (string, seq<StepMetric>), rows: seq<MetricRow>) {
    forall s :: s in g.1 <==> s in Values(Latest(FilterSteps(rows))) && s.source == Some(FromCache) && s.runId == g.0
  }

  lemma BucketsSay(rows: seq<MetricRow>, before: ((string, seq<StepMetric>), (string, seq<StepMetric>)) -> bool)
    ensures forall k | 0 <= k < |OrderedRuns(rows, before)| :: BucketSays(OrderedRuns(rows, before)[k], rows)
  {
    var steps := CacheSteps(rows);
    var groups := Groups(steps, RunIdOf);
    WhereMembers(Values(Latest(FilterSteps(rows))), FromTheCache);
    forall k | 0 <= k < |groups| ensures BucketSays(groups[k], rows) {
      GroupItems(steps, RunIdOf, k);
      HavingMembers(steps, RunIdOf, groups[k].0);
    }
    SortMembers(groups, before);
    var runs := OrderedRuns(rows, before);
    forall k | 0 <= k < |runs| ensures BucketSays(runs[k], rows) {
      assert runs[k] in runs;
    }
  }

  lemma SortMembers<T>(s: seq<T>, le: (T, T) -> bool)
    ensures forall x :: x in SortBy(s, le) <==> x in s
  {
    SortElements(s, le);
    SameMembers(s, SortBy(s, le));
  }

  /** The trend's last point is the pooled rate, whatever order the runs are given in. */
  method CacheHitRate(rows: seq<MetricRow>, before: ((string, seq<StepMetric>), (string, seq<StepMetric>)) -> bool)
    returns (points: seq<HitPoint>, section: Section)
    ensures section == Ratio(|Where(CacheSteps(rows), Valid)|, |CacheSteps(rows)|)
    ensures section.value.None? <==> points == []
    ensures points != [] ==> |points| == |OrderedRuns(rows, before)| && section.value == Some(points[|points| - 1].hitRate)
    ensures forall k | 0 <= k < |points| ::
      IsPoint(points[k], OrderedRuns(rows, before), k) && HitPointSays(points[k], OrderedRuns(rows, before), k)
    ensures forall k | 0 <= k < |OrderedRuns(rows, before)| :: BucketSays(OrderedRuns(rows, before)[k], rows)
  {
    BucketsSay(rows, before);
    var steps := CacheSteps(rows);
    WhereCount(steps, Valid);
    if |steps| == 0 {
      return [], Ratio(0, 0);
    }
    var byRun := GroupBy(steps, RunIdOf);
    var runs := SortBy(byRun, before);
    GroupsNotEmpty(steps, RunIdOf);
    SortKeepsAll(byRun, before, NotEmpty);
    var hits, total;
    points, hits, total := Trend(runs);
    forall k | 0 <= k < |points| ensures HitPointSays(points[k], runs, k) {
      PointSays(points[k], runs, k);
    }
    PooledIsLast(steps, runs, before);
    assert runs[..|runs|] == runs && |runs| > 0;
    section := Section(Some(hits as real / total as real), hits, total);
  }

  lemma PooledIsLast(
    steps: seq<StepMetric>, runs: seq<(string, seq<StepMetric>)>, before: ((string, seq<StepMetric>), (string, seq<StepMetric>)) -> bool)
    requires runs == SortBy(Groups(steps, RunIdOf), before)
    ensures SumBy(runs, GroupWeight(One(Valid))) == SumBy(steps, One(Valid))
    ensures SumBy(runs, GroupWeight(AnyStep)) == |steps|
  {
    SortSum(Groups(steps, RunIdOf), before, GroupWeight(One(Valid)));
    SortSum(Groups(steps, RunIdOf), before, GroupWeight(AnyStep));
    GroupsSum(steps, RunIdOf, One(Valid));
    GroupsSum(steps, RunIdOf, AnyStep);
    SumOfOnes(steps);
  }
}
