/**
 * Resolving a whole program out of a per-step cache: a program is returned exactly when the view holds every one of
 * its steps, and at most one program can be whole.
 */
module Resolve {
  import opened Wrappers
  import opened Order
  import opened CacheTypes
  import opened Confidence
  import opened Store

  datatype Scope = Any | PoolOnly

  datatype MissReason = NoRows | NoProgramRef | Incomplete

  datatype Resolution =
    | Hit(programId: string, stepsTotal: int, compiledAt: string, rows: seq<CacheRow>, invalidatedSteps: seq<int>)
    | Miss(reason: MissReason)

  /** One program version's rows, before completeness has been decided. */
  datatype Group = Group(programId: string, stepsTotal: int, compiledAt: string, rows: seq<CacheRow>, inconsistent: bool)

  predicate HasRef(row: CacheRow) {
    row.body.program.Some?
  }

  predicate BelongsTo(row: CacheRow, id: string) {
    row.body.program.Some? && row.body.program.value.programId == id
  }

  function RowsOf(rows: seq<CacheRow>, id: string): (r: seq<CacheRow>)
    ensures forall x :: x in r <==> x in rows && BelongsTo(x, id)
  {
    if |rows| == 0 then []
    else
      var front := RowsOf(rows[..|rows| - 1], id);
      var last := rows[|rows| - 1];
      assert rows == rows[..|rows| - 1] + [last];
      if BelongsTo(last, id) then front + [last] else front
  }

  function Start(row: CacheRow): Group
    requires HasRef(row)
  {
    var ref := row.body.program.value;
    Group(ref.programId, ref.stepsTotal, ref.compiledAt, [row], false)
  }

  /** A later row joins its group: disagreement about the length is recorded, the newest compile time kept. */
  function Join(g: Group, row: CacheRow): Group
    requires HasRef(row)
  {
    var ref := row.body.program.value;
    Group(
      g.programId, g.stepsTotal,
      if StrLess(g.compiledAt, ref.compiledAt) then ref.compiledAt else g.compiledAt,
      g.rows + [row],
      g.inconsistent || ref.stepsTotal != g.stepsTotal)
  }

  /** What a group says about its rows. */
  ghost predicate SumsUp(g: Group) {
    && |g.rows| > 0
    && (forall row | row in g.rows :: HasRef(row))
    && (g.rows[0] in g.rows ==> g.rows[0].body.program.value.stepsTotal == g.stepsTotal)
    && (g.inconsistent <==> exists row :: row in g.rows && row.body.program.value.stepsTotal != g.stepsTotal)
    && (exists row :: row in g.rows && row.body.program.value.compiledAt == g.compiledAt)
    && (forall row | row in g.rows :: StrLe(row.body.program.value.compiledAt, g.compiledAt))
  }

  ghost predicate Describes(g: Group, rows: seq<CacheRow>) {
    g.rows == RowsOf(rows, g.programId) && SumsUp(g)
  }

  lemma JoinSumsUp(g: Group, row: CacheRow)
    requires SumsUp(g) && HasRef(row)
    ensures SumsUp(Join(g, row))
  {
    var h, ref := Join(g, row), row.body.program.value;
    assert forall x :: x in h.rows <==> x in g.rows || x == row;
    StrLessTotal(g.compiledAt, ref.compiledAt);
    forall x | x in h.rows ensures StrLe(x.body.program.value.compiledAt, h.compiledAt) {
      if x in g.rows && StrLess(g.compiledAt, ref.compiledAt) && x.body.program.value.compiledAt != g.compiledAt {
        StrLessTransitive(x.body.program.value.compiledAt, g.compiledAt, ref.compiledAt);
      }
    }
    if !StrLess(g.compiledAt, ref.compiledAt) {
      var x :| x in g.rows && x.body.program.value.compiledAt == g.compiledAt;
      assert x in h.rows;
    }
    if g.inconsistent {
      var x :| x in g.rows && x.body.program.value.stepsTotal != g.stepsTotal;
      assert x in h.rows;
    }
  }

  /** `groups.get(id)`, updated or created: one turn of the grouping loop. */
  function AddRow(groups: seq<Group>, row: CacheRow): seq<Group> {
    if !HasRef(row) then groups
    else match Find(groups, row.body.program.value.programId)
      case None => groups + [Start(row)]
      case Some(k) => groups[k := Join(groups[k], row)]
  }

  ghost predicate Grouped(groups: seq<Group>, rows: seq<CacheRow>) {
    && (forall i | 0 <= i < |groups| :: Describes(groups[i], rows))
    && (forall i, j | 0 <= i < j < |groups| :: groups[i].programId != groups[j].programId)
    && (forall row | row in rows && HasRef(row) :: HasGroup(groups, row.body.program.value.programId))
  }

  ghost predicate HasGroup(groups: seq<Group>, id: string) {
    exists i :: 0 <= i < |groups| && groups[i].programId == id
  }

  lemma RowsOfSnoc(rows: seq<CacheRow>, row: CacheRow, id: string)
    ensures RowsOf(rows + [row], id) == if BelongsTo(row, id) then RowsOf(rows, id) + [row] else RowsOf(rows, id)
  {
    assert (rows + [row])[..|rows|] == rows;
  }

  lemma SomeMember<T>(s: seq<T>)
    ensures s == [] || exists x :: x in s
  {
    if s != [] {
      assert s[0] in s;
    }
  }

  lemma StartDescribes(row: CacheRow, rows: seq<CacheRow>, groups: seq<Group>)
    requires HasRef(row) && Grouped(groups, rows)
    requires Find(groups, row.body.program.value.programId).None?
    ensures Describes(Start(row), rows + [row])
  {
    NoGroupNoRows(groups, rows, row.body.program.value.programId);
    RowsOfSnoc(rows, row, row.body.program.value.programId);
    StartSumsUp(row);
  }

  lemma StartSumsUp(row: CacheRow)
    requires HasRef(row)
    ensures SumsUp(Start(row))
  {
    assert forall x :: x in [row] <==> x == row;
    assert row in Start(row).rows;
  }

  lemma NoGroupNoRows(groups: seq<Group>, rows: seq<CacheRow>, id: string)
    requires Grouped(groups, rows) && Find(groups, id).None?
    ensures RowsOf(rows, id) == []
  {
    SomeMember(RowsOf(rows, id));
  }

  lemma GroupedStep(groups: seq<Group>, rows: seq<CacheRow>, row: CacheRow)
    requires Grouped(groups, rows)
    ensures Grouped(AddRow(groups, row), rows + [row])
  {
    var next := AddRow(groups, row);
    forall i | 0 <= i < |next| ensures Describes(next[i], rows + [row]) {
      OneGroupStep(groups, rows, row, i);
    }
    AddRowKeepsIds(groups, row);
    forall x | x in rows + [row] && HasRef(x) ensures HasGroup(next, x.body.program.value.programId) {
      if x in rows {
        var i :| 0 <= i < |groups| && groups[i].programId == x.body.program.value.programId;
        assert next[i].programId == groups[i].programId;
      } else {
        AddedRowHasGroup(groups, row);
      }
    }
  }

  lemma OneGroupStep(groups: seq<Group>, rows: seq<CacheRow>, row: CacheRow, i: nat)
    requires Grouped(groups, rows) && i < |AddRow(groups, row)|
    ensures Describes(AddRow(groups, row)[i], rows + [row])
  {
    if i == |groups| {
      StartDescribes(row, rows, groups);
    } else {
      var g := groups[i];
      assert Describes(g, rows);
      RowsOfSnoc(rows, row, g.programId);
      if BelongsTo(row, g.programId) {
        assert Find(groups, g.programId) == Some(i);
        JoinSumsUp(g, row);
        assert AddRow(groups, row)[i] == Join(g, row);
      } else {
        assert AddRow(groups, row)[i] == g;
      }
    }
  }

  lemma AddRowKeepsIds(groups: seq<Group>, row: CacheRow)
    requires forall i, j | 0 <= i < j < |groups| :: groups[i].programId != groups[j].programId
    ensures var next := AddRow(groups, row);
      && |groups| <= |next|
      && (forall i | 0 <= i < |groups| :: next[i].programId == groups[i].programId)
      && (forall i, j | 0 <= i < j < |next| :: next[i].programId != next[j].programId)
  {
  }

  lemma AddedRowHasGroup(groups: seq<Group>, row: CacheRow)
    requires HasRef(row)
    ensures HasGroup(AddRow(groups, row), row.body.program.value.programId)
  {
    match Find(groups, row.body.program.value.programId)
    case None => assert AddRow(groups, row)[|groups|] == Start(row);
    case Some(k) => assert AddRow(groups, row)[k].programId == row.body.program.value.programId;
  }

  method GroupByProgram(rows: seq<CacheRow>) returns (groups: seq<Group>)
    ensures Grouped(groups, rows)
  {
    groups := [];
    for k := 0 to |rows|
      invariant Grouped(groups, rows[..k])
    {
      GroupedStep(groups, rows[..k], rows[k]);
      assert rows[..k + 1] == rows[..k] + [rows[k]];
      groups := AddRow(groups, rows[k]);
    }
    assert rows[..|rows|] == rows;
  }

  /** `groups.get(program_id)`. */
  function Find(groups: seq<Group>, id: string): (r: Option<nat>)
    ensures r.Some? ==> r.value < |groups| && groups[r.value].programId == id
    ensures r.None? ==> forall i | 0 <= i < |groups| :: groups[i].programId != id
  {
    if |groups| == 0 then None
    else if groups[|groups| - 1].programId == id then Some(|groups| - 1)
    else Find(groups[..|groups| - 1], id)
  }

  function StepsIn(rows: seq<CacheRow>): set<int> {
    set row | row in rows :: row.body.stepIndex
  }

  method MissingIndices(g: Group) returns (missing: seq<int>)
    ensures forall i :: i in missing <==> 0 <= i < g.stepsTotal && i !in StepsIn(g.rows)
  {
    var present := StepsIn(g.rows);
    missing := [];
    var i := 0;
    while i < g.stepsTotal
      invariant 0 <= i
      invariant forall k :: k in missing <==> 0 <= k < i && k < g.stepsTotal && k !in present
    {
      if i !in present {
        missing := missing + [i];
      }
      i := i + 1;
    }
  }

  predicate OutOfRange(g: Group) {
    exists row | row in g.rows :: row.body.stepIndex < 0 || row.body.stepIndex >= g.stepsTotal
  }

  method IsComplete(g: Group) returns (complete: bool)
    ensures complete <==> ProvablyWhole(g)
  {
    var missing := MissingIndices(g);
    complete := !g.inconsistent && missing == [] && !OutOfRange(g);
    if missing == [] {
      forall i | 0 <= i < g.stepsTotal ensures i in StepsIn(g.rows) {
        assert i !in missing;
      }
    } else {
      var i := missing[0];
      assert i in missing;
      assert i !in StepsIn(g.rows);
    }
  }

  predicate ProvablyWhole(g: Group) {
    !g.inconsistent && !OutOfRange(g) && forall i | 0 <= i < g.stepsTotal :: i in StepsIn(g.rows)
  }

  /** Newest compile time first; on a tie, the larger program id first. */
  predicate NewestFirst(a: Group, b: Group) {
    if a.compiledAt != b.compiledAt then StrLess(b.compiledAt, a.compiledAt) else !StrLess(a.programId, b.programId)
  }

  predicate StepLe(a: CacheRow, b: CacheRow) {
    a.body.stepIndex <= b.body.stepIndex
  }

  function InvalidatedSteps(rows: seq<CacheRow>): seq<int> {
    if |rows| == 0 then []
    else (if IsInvalidated(rows[0].body) then [rows[0].body.stepIndex] else []) + InvalidatedSteps(rows[1..])
  }

  /** The steps listed are those whose rows carry a time of invalidation, in step order. */
  ghost predicate ListsInvalidated(listed: seq<int>, rs: seq<CacheRow>) {
    && (forall i | 0 <= i < |rs| :: i in listed <==> rs[i].body.invalidated.Since?)
    && (forall k | k in listed :: 0 <= k < |rs|)
    && (forall i, j | 0 <= i < j < |listed| :: listed[i] < listed[j])
  }

  lemma {:induction false} InvalidatedAre(rs: seq<CacheRow>, from: int)
    requires forall i | 0 <= i < |rs| :: rs[i].body.stepIndex == from + i
    ensures var listed := InvalidatedSteps(rs);
      && (forall i | 0 <= i < |rs| :: from + i in listed <==> rs[i].body.invalidated.Since?)
      && (forall k | k in listed :: from <= k < from + |rs|)
      && (forall i, j | 0 <= i < j < |listed| :: listed[i] < listed[j])
    decreases |rs|
  {
    if |rs| > 0 {
      InvalidatedAre(rs[1..], from + 1);
      var rest := InvalidatedSteps(rs[1..]);
      forall i | 0 < i < |rs| ensures from + i in rest <==> rs[i].body.invalidated.Since? {
        assert rs[1..][i - 1] == rs[i];
      }
      var listed := InvalidatedSteps(rs);
      assert listed == (if IsInvalidated(rs[0].body) then [from] else []) + rest;
      forall i, j | 0 <= i < j < |listed| ensures listed[i] < listed[j] {
        if i == 0 && |listed| > |rest| {
          assert listed[j] == rest[j - 1] && rest[j - 1] in rest;
        }
      }
    }
  }

  lemma ProgramLists(rs: seq<CacheRow>, rows: seq<CacheRow>, id: string, n: int)
    requires IsProgram(rs, rows, id, n)
    ensures ListsInvalidated(InvalidatedSteps(rs), rs)
  {
    InvalidatedAre(rs, 0);
    forall i | 0 <= i < |rs| ensures i in InvalidatedSteps(rs) <==> rs[i].body.invalidated.Since? {
      assert 0 + i == i;
    }
  }

  // ---- what an answer means ----

  /** The view holds every step of the program and nothing of it that is out of place. */
  ghost predicate Whole(rows: seq<CacheRow>, id: string) {
    exists n: int :: n >= 1 && WholeOf(rows, id, n)
  }

  ghost predicate WholeOf(rows: seq<CacheRow>, id: string, n: int) {
    && (forall row | row in rows && BelongsTo(row, id) ::
          row.body.program.value.stepsTotal == n && 0 <= row.body.stepIndex < n)
    && (forall i | 0 <= i < n :: HasStep(rows, id, i))
  }

  ghost predicate HasStep(rows: seq<CacheRow>, id: string, i: int) {
    exists row :: row in rows && BelongsTo(row, id) && row.body.stepIndex == i
  }

  /** `rs` is the program's rows, one per step and in step order. */
  ghost predicate IsProgram(rs: seq<CacheRow>, rows: seq<CacheRow>, id: string, n: int) {
    && |rs| == n >= 1
    && forall i | 0 <= i < n ::
      rs[i] in rows && BelongsTo(rs[i], id) && rs[i].body.program.value.stepsTotal == n && rs[i].body.stepIndex == i
  }

  /** No two rows of a view of one task name the same step. */
  ghost predicate UniqueSteps(rows: seq<CacheRow>) {
    forall i, j | 0 <= i < j < |rows| :: rows[i].body.stepIndex != rows[j].body.stepIndex
  }

  ghost predicate Answers(r: Resolution, rows: seq<CacheRow>) {
    match r
    case Miss(NoRows) => rows == []
    case Miss(NoProgramRef) => rows != [] && forall row | row in rows :: !HasRef(row)
    case Miss(Incomplete) => (exists row :: row in rows && HasRef(row)) && forall id :: !Whole(rows, id)
    case Hit(id, n, at, rs, inv) =>
      && Whole(rows, id) && IsProgram(rs, rows, id, n)
      && (exists row :: row in rs && row.body.program.value.compiledAt == at)
      && (forall row | row in rs :: StrLe(row.body.program.value.compiledAt, at))
      && inv == InvalidatedSteps(rs)
  }

  /** Only one program can hold step 0, so at most one is whole and the tie-break never decides a hit. */
  lemma OnlyOneWhole(rows: seq<CacheRow>, a: string, b: string)
    requires UniqueSteps(rows) && Whole(rows, a) && Whole(rows, b)
    ensures a == b
  {
    var n :| n >= 1 && WholeOf(rows, a, n);
    var m :| m >= 1 && WholeOf(rows, b, m);
    assert HasStep(rows, a, 0) && HasStep(rows, b, 0);
    var x :| x in rows && BelongsTo(x, a) && x.body.stepIndex == 0;
    var y :| y in rows && BelongsTo(y, b) && y.body.stepIndex == 0;
    var i :| 0 <= i < |rows| && rows[i] == x;
    var j :| 0 <= j < |rows| && rows[j] == y;
  }

  lemma ProgramRowsDetermined(r: seq<CacheRow>, s: seq<CacheRow>, rows: seq<CacheRow>, id: string, n: int, m: int)
    requires UniqueSteps(rows) && IsProgram(r, rows, id, n) && IsProgram(s, rows, id, m)
    ensures r == s && n == m
  {
    forall i | 0 <= i < n && i < m ensures r[i] == s[i] {
      var p :| 0 <= p < |rows| && rows[p] == r[i];
      var q :| 0 <= q < |rows| && rows[q] == s[i];
    }
    assert r[0] == s[0];
  }

  lemma WholeByMembers(rows: seq<CacheRow>, others: seq<CacheRow>, id: string)
    requires forall row :: row in rows <==> row in others
    ensures Whole(rows, id) <==> Whole(others, id)
  {
    forall i ensures HasStep(rows, id, i) <==> HasStep(others, id, i) {
      if HasStep(rows, id, i) {
        var row :| row in rows && BelongsTo(row, id) && row.body.stepIndex == i;
        assert row in others;
      }
      if HasStep(others, id, i) {
        var row :| row in others && BelongsTo(row, id) && row.body.stepIndex == i;
        assert row in rows;
      }
    }
    forall n: int ensures WholeOf(rows, id, n) <==> WholeOf(others, id, n) {
    }
  }

  /** The answer depends on which rows the view holds, not on their order, and it is the only right one. */
  lemma AnswerDetermined(r: Resolution, s: Resolution, rows: seq<CacheRow>, others: seq<CacheRow>)
    requires UniqueSteps(rows) && Answers(r, rows) && Answers(s, others)
    requires forall row :: row in rows <==> row in others
    ensures r == s
  {
    assert rows == [] <==> others == [] by {
      assert |rows| > 0 ==> rows[0] in rows;
      assert |others| > 0 ==> others[0] in others;
    }
    forall id ensures Whole(rows, id) <==> Whole(others, id) {
      WholeByMembers(rows, others, id);
    }
    HitHasRow(r, rows);
    HitHasRow(s, others);
    if r.Hit? && s.Hit? {
      OnlyOneWhole(rows, r.programId, s.programId);
      ProgramRowsDetermined(r.rows, s.rows, rows, r.programId, r.stepsTotal, s.stepsTotal);
      StrLessTotal(r.compiledAt, s.compiledAt);
    }
  }

  lemma HitHasRow(r: Resolution, rows: seq<CacheRow>)
    requires Answers(r, rows)
    ensures r.Hit? ==> rows != [] && exists row :: row in rows && HasRef(row)
  {
    if r.Hit? {
      assert r.rows[0] in rows && HasRef(r.rows[0]);
    }
  }

  // ---- the resolver ----

  ghost predicate CoversStep(rs: seq<CacheRow>, i: int) {
    exists k :: 0 <= k < |rs| && rs[k].body.stepIndex == i
  }

  /** Strictly increasing step numbers that cover `0..n-1` and nothing else are `0..n-1`. */
  lemma {:induction false} StepsInOrder(rs: seq<CacheRow>, n: int)
    requires n >= 0 && Sorted(rs, StepLe) && UniqueSteps(rs)
    requires forall i | 0 <= i < |rs| :: 0 <= rs[i].body.stepIndex < n
    requires forall i | 0 <= i < n :: CoversStep(rs, i)
    ensures |rs| == n && forall i | 0 <= i < n :: rs[i].body.stepIndex == i
    decreases n
  {
    if |rs| == 0 {
      assert n > 0 ==> CoversStep(rs, 0);
    } else {
      var last := |rs| - 1;
      assert 0 <= rs[last].body.stepIndex < n;
      assert CoversStep(rs, n - 1);
      var k :| 0 <= k < |rs| && rs[k].body.stepIndex == n - 1;
      assert k < last ==> StepLe(rs[k], rs[last]);
      var front := rs[..last];
      forall i | 0 <= i < n - 1 ensures CoversStep(front, i) {
        assert CoversStep(rs, i);
        var j :| 0 <= j < |rs| && rs[j].body.stepIndex == i;
        assert front[j].body.stepIndex == i;
      }
      forall i | 0 <= i < |front| ensures 0 <= front[i].body.stepIndex < n - 1 {
        assert StepLe(rs[i], rs[last]);
      }
      StepsInOrder(front, n - 1);
    }
  }

  lemma {:induction false} RowsOfUnique(rows: seq<CacheRow>, id: string)
    requires UniqueSteps(rows)
    ensures UniqueSteps(RowsOf(rows, id))
  {
    if |rows| > 0 {
      var front, last := rows[..|rows| - 1], rows[|rows| - 1];
      RowsOfUnique(front, id);
      forall x | x in RowsOf(front, id) ensures x.body.stepIndex != last.body.stepIndex {
        assert x in front;
      }
    }
  }

  lemma StepsInIff(g: Group, rows: seq<CacheRow>, i: int)
    requires g.rows == RowsOf(rows, g.programId)
    ensures i in StepsIn(g.rows) <==> HasStep(rows, g.programId, i)
  {
    if i in StepsIn(g.rows) {
      var row :| row in g.rows && row.body.stepIndex == i;
      assert row in rows && BelongsTo(row, g.programId);
    }
    if HasStep(rows, g.programId, i) {
      var row :| row in rows && BelongsTo(row, g.programId) && row.body.stepIndex == i;
      assert row in g.rows;
    }
  }

  /** What `isComplete` checks on a group is exactly that the view holds the whole program. */
  lemma CompleteIsWhole(g: Group, rows: seq<CacheRow>)
    requires Describes(g, rows)
    ensures ProvablyWhole(g) <==> Whole(rows, g.programId)
    ensures ProvablyWhole(g) ==> g.stepsTotal >= 1 && WholeOf(rows, g.programId, g.stepsTotal)
  {
    var first := g.rows[0];
    assert first in g.rows;
    forall i ensures i in StepsIn(g.rows) <==> HasStep(rows, g.programId, i) {
      StepsInIff(g, rows, i);
    }
    if ProvablyWhole(g) {
      assert 0 <= first.body.stepIndex < g.stepsTotal;
      assert WholeOf(rows, g.programId, g.stepsTotal);
    }
    if Whole(rows, g.programId) {
      var n :| n >= 1 && WholeOf(rows, g.programId, n);
      SameLength(g, rows, n);
    }
  }

  lemma SameLength(g: Group, rows: seq<CacheRow>, n: int)
    requires Describes(g, rows) && WholeOf(rows, g.programId, n)
    ensures g.stepsTotal == n && !g.inconsistent
  {
    forall row | row in g.rows ensures row.body.program.value.stepsTotal == n {
      assert row in rows && BelongsTo(row, g.programId);
    }
    assert g.rows[0] in g.rows;
  }

  lemma SortedRows(rs: seq<CacheRow>)
    requires UniqueSteps(rs)
    ensures var s := SortBy(rs, StepLe);
      Sorted(s, StepLe) && UniqueSteps(s) && forall row :: row in s <==> row in rs
  {
    var s := SortBy(rs, StepLe);
    SortElements(rs, StepLe);
    SameMembers(rs, s);
    SortSorts(rs, StepLe, AllRows());
    assert Distinct(rs);
    DistinctStays(rs, s);
    forall i, j | 0 <= i < j < |s| ensures s[i].body.stepIndex != s[j].body.stepIndex {
      assert s[i] in rs && s[j] in rs && s[i] != s[j];
    }
  }

  lemma OrderedIsProgram(g: Group, rows: seq<CacheRow>)
    requires Describes(g, rows) && UniqueSteps(rows) && g.stepsTotal >= 1
    requires WholeOf(rows, g.programId, g.stepsTotal)
    ensures IsProgram(SortBy(g.rows, StepLe), rows, g.programId, g.stepsTotal)
    ensures forall row :: row in SortBy(g.rows, StepLe) <==> row in g.rows
  {
    var rs := SortBy(g.rows, StepLe);
    RowsOfUnique(rows, g.programId);
    SortedRows(g.rows);
    forall i | 0 <= i < |rs|
      ensures rs[i] in rows && BelongsTo(rs[i], g.programId) && 0 <= rs[i].body.stepIndex < g.stepsTotal
      ensures rs[i].body.program.value.stepsTotal == g.stepsTotal
    {
      assert rs[i] in rs;
      assert rs[i] in g.rows;
    }
    forall i | 0 <= i < g.stepsTotal ensures CoversStep(rs, i) {
      assert HasStep(rows, g.programId, i);
      var row :| row in rows && BelongsTo(row, g.programId) && row.body.stepIndex == i;
      assert row in g.rows && row in rs;
    }
    StepsInOrder(rs, g.stepsTotal);
  }

  lemma NoneWhole(rows: seq<CacheRow>, candidates: seq<Group>)
    requires |candidates| > 0 && Grouped(candidates, rows)
    requires forall i | 0 <= i < |candidates| :: !Whole(rows, candidates[i].programId)
    ensures Answers(Miss(Incomplete), rows)
  {
    var x := candidates[0].rows[0];
    assert x in candidates[0].rows;
    assert x in rows && HasRef(x);
    forall id ensures !Whole(rows, id) {
      if Whole(rows, id) {
        WholeHasGroup(rows, candidates, id);
      }
    }
  }

  lemma WholeHasGroup(rows: seq<CacheRow>, candidates: seq<Group>, id: string)
    requires Grouped(candidates, rows) && Whole(rows, id)
    ensures HasGroup(candidates, id)
  {
    var n :| n >= 1 && WholeOf(rows, id, n);
    assert HasStep(rows, id, 0);
    var row :| row in rows && BelongsTo(row, id) && row.body.stepIndex == 0;
    assert HasGroup(candidates, row.body.program.value.programId);
  }

  method ResolveRows(rows: seq<CacheRow>) returns (r: Resolution)
    requires UniqueSteps(rows)
    ensures Answers(r, rows)
    ensures r.Hit? ==> ListsInvalidated(r.invalidatedSteps, r.rows)
  {
    if |rows| == 0 {
      return Miss(NoRows);
    }
    var candidates := GroupByProgram(rows);
    if |candidates| == 0 {
      assert forall row | row in rows && HasRef(row) :: HasGroup(candidates, row.body.program.value.programId);
      return Miss(NoProgramRef);
    }
    var complete: seq<Group> := [];
    for k := 0 to |candidates|
      invariant forall i | 0 <= i < |complete| :: complete[i] in candidates && Whole(rows, complete[i].programId)
      invariant forall i | 0 <= i < k && Whole(rows, candidates[i].programId) :: candidates[i] in complete
    {
      var whole := IsComplete(candidates[k]);
      CompleteIsWhole(candidates[k], rows);
      if whole {
        complete := complete + [candidates[k]];
      }
    }
    var sorted := SortBy(complete, NewestFirst);
    SortElements(complete, NewestFirst);
    SameMembers(complete, sorted);
    if |sorted| == 0 {
      NoneWhole(rows, candidates);
      return Miss(Incomplete);
    }
    var chosen := sorted[0];
    assert chosen in sorted && chosen in complete && chosen in candidates;
    CompleteIsWhole(chosen, rows);
    OrderedIsProgram(chosen, rows);
    var ordered := SortBy(chosen.rows, StepLe);
    ProgramLists(ordered, rows, chosen.programId, chosen.stepsTotal);
    r := Hit(chosen.programId, chosen.stepsTotal, chosen.compiledAt, ordered, InvalidatedSteps(ordered));
  }

  datatype ProgramKey = ProgramKey(siteKey: string, taskKey: string)

  function ScopeFilter(key: ProgramKey, scope: Scope): Filter {
    Filter(Some(key.siteKey), Some(key.taskKey), if scope == PoolOnly then Some(true) else None)
  }

  /** The rows a resolution may draw on. */
  ghost predicate IsView(rows: seq<CacheRow>, history: seq<CacheRow>, key: ProgramKey, scope: Scope) {
    IsListing(rows, history, ScopeFilter(key, scope))
  }

  lemma ViewHasUniqueSteps(rows: seq<CacheRow>, history: seq<CacheRow>, key: ProgramKey, scope: Scope)
    requires IsView(rows, history, key, scope)
    ensures UniqueSteps(rows)
  {
    forall i, j | 0 <= i < j < |rows| ensures rows[i].body.stepIndex != rows[j].body.stepIndex {
      assert rows[i] in rows && rows[j] in rows;
      assert CacheKeyOf(rows[i]) != CacheKeyOf(rows[j]);
    }
  }

  /** The rows `list` gives a resolver: the current ones of the task, on the index the scope reads. */
  ghost function ViewOf(history: seq<CacheRow>, key: ProgramKey, scope: Scope): seq<CacheRow> {
    var keyOf := if scope == PoolOnly then SplitKeyText else KeyText;
    IndexValues(history, keyOf);
    SortBy(InView(IndexAll(history, keyOf).Values(), ScopeFilter(key, scope)), RowLe)
  }

  lemma ViewIsView(history: seq<CacheRow>, key: ProgramKey, scope: Scope)
    ensures IsView(ViewOf(history, key, scope), history, key, scope)
  {
    if scope == PoolOnly {
      SplitListing(history, ScopeFilter(key, scope));
    } else {
      MergedListing(history, ScopeFilter(key, scope));
    }
  }

  method ResolveProgram(store: JsonlCacheStore, key: ProgramKey, scope: Scope) returns (r: Resolution)
    requires store.Valid()
    ensures Answers(r, ViewOf(store.history, key, scope))
    ensures r.Hit? ==> ListsInvalidated(r.invalidatedSteps, r.rows)
  {
    var rows := store.List(ScopeFilter(key, scope));
    ViewIsView(store.history, key, scope);
    ListingUnique(rows, ViewOf(store.history, key, scope), store.history, store.history, ScopeFilter(key, scope));
    ViewHasUniqueSteps(rows, store.history, key, scope);
    r := ResolveRows(rows);
  }
}
