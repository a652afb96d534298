/**
 * The append-only two-file store: what a write leaves on disk and in the indexes, what a reader sees, and what a
 * new process finds when it reads the files back, torn last lines included.
 */
module Store {
  import opened Wrappers
  import opened Text
  import opened Decimal
  import opened Order
  import opened CacheTypes
  import opened Literals

  datatype CacheKey = CacheKey(siteKey: string, taskKey: string, stepIndex: int)

  const NUL: string := "\0"
  const NEWLINE: string := "\n"

  function CacheKeyString(key: CacheKey): string {
    key.siteKey + NUL + key.taskKey + NUL + IntText(key.stepIndex)
  }

  function CacheKeyOf(row: CacheRow): CacheKey {
    CacheKey(row.body.siteKey, row.body.taskKey, row.body.stepIndex)
  }

  function KeyText(row: CacheRow): string { CacheKeyString(CacheKeyOf(row)) }

  /** The key of the per-eligibility index. */
  function SplitKeyText(row: CacheRow): string { SplitText(KeyText(row), row.poolEligible) }

  function SplitText(key: string, eligible: bool): string {
    key + NUL + (if eligible then "1" else "0")
  }

  predicate NulFree(key: CacheKey) {
    '\0' !in key.siteKey && '\0' !in key.taskKey
  }

  lemma UpToNul(a: string, b: string, x: string, y: string)
    requires '\0' !in a && '\0' !in b && a + NUL + x == b + NUL + y
    ensures a == b && x == y
  {
    var s := a + NUL + x;
    assert s[|a|] == '\0' && s[|b|] == '\0';
    assert s[..|a|] == a && s[..|b|] == b && s[|a| + 1..] == x && s[|b| + 1..] == y;
  }

  lemma Regroup5(a: string, m: string, b: string, n: string, c: string)
    ensures a + m + b + n + c == a + m + (b + n + c)
  {
  }

  /** Distinct entries never share a key string, as long as the site and task keys carry no NUL. */
  lemma KeyStringInjective(a: CacheKey, b: CacheKey)
    requires NulFree(a) && NulFree(b) && CacheKeyString(a) == CacheKeyString(b)
    ensures a == b
  {
    Regroup5(a.siteKey, NUL, a.taskKey, NUL, IntText(a.stepIndex));
    Regroup5(b.siteKey, NUL, b.taskKey, NUL, IntText(b.stepIndex));
    UpToNul(a.siteKey, b.siteKey, a.taskKey + NUL + IntText(a.stepIndex), b.taskKey + NUL + IntText(b.stepIndex));
    UpToNul(a.taskKey, b.taskKey, IntText(a.stepIndex), IntText(b.stepIndex));
    IntTextInjective(a.stepIndex, b.stepIndex);
  }

  lemma SplitTextInjective(k: string, m: string, e: bool, f: bool)
    requires SplitText(k, e) == SplitText(m, f)
    ensures k == m && e == f
  {
    var s, t := SplitText(k, e), SplitText(m, f);
    assert s[|s| - 1] == (if e then '1' else '0') && t[|t| - 1] == (if f then '1' else '0');
    assert s[..|s| - 2] == k && t[..|t| - 2] == m;
  }

  /** The last row of a history under a key, keys compared as such and not by their texts. */
  function LastUnder(rows: seq<CacheRow>, key: CacheKey): Option<CacheRow> {
    if |rows| == 0 then None
    else if CacheKeyOf(rows[|rows| - 1]) == key then Some(rows[|rows| - 1])
    else LastUnder(rows[..|rows| - 1], key)
  }

  /** Where no key carries a NUL, reading by key text is reading by key. */
  lemma {:induction false} ReadsByKey(rows: seq<CacheRow>, key: CacheKey)
    requires NulFree(key) && forall row | row in rows :: NulFree(CacheKeyOf(row))
    ensures LastFor(rows, KeyText, CacheKeyString(key)) == LastUnder(rows, key)
  {
    if |rows| > 0 {
      var last := rows[|rows| - 1];
      assert last in rows;
      if KeyText(last) == CacheKeyString(key) {
        KeyStringInjective(CacheKeyOf(last), key);
      }
      ReadsByKey(rows[..|rows| - 1], key);
    }
  }

  // ---- an insertion-ordered map ----

  /** A JavaScript Map: overwriting an entry keeps its place. */
  datatype Index = Index(order: seq<string>, rows: map<string, CacheRow>) {
    function Set(k: string, row: CacheRow): Index {
      Index(if k in rows then order else order + [k], rows[k := row])
    }

    ghost predicate Valid() {
      Distinct(order) && forall k :: k in order <==> k in rows
    }

    function Values(): (r: seq<CacheRow>)
      requires forall k | k in order :: k in rows
      ensures |r| == |order| && forall i | 0 <= i < |order| :: r[i] == rows[order[i]]
    {
      seq(|order|, i requires 0 <= i < |order| => assert order[i] in order; rows[order[i]])
    }
  }

  const EMPTY: Index := Index([], map[])

  /** Index rows one by one, the later one winning. */
  function IndexAll(rows: seq<CacheRow>, keyOf: CacheRow -> string): Index {
    if |rows| == 0 then EMPTY
    else IndexAll(rows[..|rows| - 1], keyOf).Set(keyOf(rows[|rows| - 1]), rows[|rows| - 1])
  }

  /** The last row of a history under a key. */
  function LastFor(rows: seq<CacheRow>, keyOf: CacheRow -> string, key: string): Option<CacheRow> {
    if |rows| == 0 then None
    else if keyOf(rows[|rows| - 1]) == key then Some(rows[|rows| - 1])
    else LastFor(rows[..|rows| - 1], keyOf, key)
  }

  lemma {:induction false} IndexHoldsLast(rows: seq<CacheRow>, keyOf: CacheRow -> string)
    ensures var x := IndexAll(rows, keyOf);
      && x.Valid()
      && forall k :: (if k in x.rows then Some(x.rows[k]) else None) == LastFor(rows, keyOf, k)
  {
    if |rows| > 0 {
      IndexHoldsLast(rows[..|rows| - 1], keyOf);
    }
  }

  lemma {:induction false} LastForIsThere(rows: seq<CacheRow>, keyOf: CacheRow -> string, key: string)
    ensures var r := LastFor(rows, keyOf, key);
      if r.Some? then r.value in rows && keyOf(r.value) == key else forall x | x in rows :: keyOf(x) != key
  {
    if |rows| > 0 {
      var front, last := rows[..|rows| - 1], rows[|rows| - 1];
      assert rows == front + [last];
      LastForIsThere(front, keyOf, key);
    }
  }

  lemma {:induction false} LastForConcat(a: seq<CacheRow>, b: seq<CacheRow>, keyOf: CacheRow -> string, key: string)
    ensures LastFor(a + b, keyOf, key)
      == if LastFor(b, keyOf, key).Some? then LastFor(b, keyOf, key) else LastFor(a, keyOf, key)
  {
    if |b| == 0 {
      assert a + b == a;
    } else {
      assert (a + b)[..|a + b| - 1] == a + b[..|b| - 1];
      LastForConcat(a, b[..|b| - 1], keyOf, key);
    }
  }

  // ---- reading order ----

  predicate RowLe(a: CacheRow, b: CacheRow) {
    if a.body.siteKey != b.body.siteKey then StrLess(a.body.siteKey, b.body.siteKey)
    else if a.body.taskKey != b.body.taskKey then StrLess(a.body.taskKey, b.body.taskKey)
    else a.body.stepIndex <= b.body.stepIndex
  }

  datatype Filter = Filter(siteKey: Option<string>, taskKey: Option<string>, poolEligible: Option<bool>)

  /** Sites in order, then tasks, then steps. */
  ghost predicate InOrder(a: Body, b: Body) {
    || ComesBefore(a.siteKey, b.siteKey)
    || (a.siteKey == b.siteKey
        && (ComesBefore(a.taskKey, b.taskKey) || (a.taskKey == b.taskKey && a.stepIndex <= b.stepIndex)))
  }

  lemma RowLeIff(a: CacheRow, b: CacheRow)
    ensures RowLe(a, b) <==> InOrder(a.body, b.body)
  {
    StrLessIff(a.body.siteKey, b.body.siteKey);
    StrLessIff(a.body.taskKey, b.body.taskKey);
    StrLessTotal(a.body.siteKey, b.body.siteKey);
    StrLessTotal(a.body.taskKey, b.body.taskKey);
  }

  predicate MatchesFilter(row: CacheRow, f: Filter) {
    && (f.siteKey.Some? ==> row.body.siteKey == f.siteKey.value)
    && (f.taskKey.Some? ==> row.body.taskKey == f.taskKey.value)
  }

  /** What `list` promises about a store with this write history: the current rows of the view, in reading order. */
  ghost predicate IsListing(r: seq<CacheRow>, history: seq<CacheRow>, f: Filter) {
    && Sorted(r, RowLe)
    && (forall i, j | 0 <= i < j < |r| :: CacheKeyOf(r[i]) != CacheKeyOf(r[j]))
    && (forall row :: row in r <==> MatchesFilter(row, f) && Current(row, history, f.poolEligible))
  }

  lemma ListedInOrder(r: seq<CacheRow>, history: seq<CacheRow>, f: Filter)
    requires IsListing(r, history, f)
    ensures forall i, j | 0 <= i < j < |r| :: InOrder(r[i].body, r[j].body)
    ensures forall row | row in r :: MatchesFilter(row, f) && (f.poolEligible.Some? ==> row.poolEligible == f.poolEligible.value)
  {
    forall i, j | 0 <= i < j < |r| ensures InOrder(r[i].body, r[j].body) {
      RowLeIff(r[i], r[j]);
    }
  }

  /** The row is the last one written under its key, in the merged view or among rows of one eligibility. */
  ghost predicate Current(row: CacheRow, history: seq<CacheRow>, eligible: Option<bool>) {
    if eligible.None? then LastFor(history, KeyText, KeyText(row)) == Some(row)
    else row.poolEligible == eligible.value && LastFor(history, SplitKeyText, SplitKeyText(row)) == Some(row)
  }

  ghost function AllRows(): iset<CacheRow> { iset r: CacheRow | |r.body.siteKey| >= 0 }

  lemma RowOrderIsTotal()
    ensures TotalOn(AllRows(), RowLe)
    ensures forall a, b | RowLe(a, b) && RowLe(b, a) :: CacheKeyOf(a) == CacheKeyOf(b)
  {
    forall a: CacheRow, b: CacheRow
      ensures RowLe(a, b) || RowLe(b, a)
      ensures RowLe(a, b) && RowLe(b, a) ==> CacheKeyOf(a) == CacheKeyOf(b)
    {
      StrLessTotal(a.body.siteKey, b.body.siteKey);
      StrLessTotal(a.body.taskKey, b.body.taskKey);
    }
    forall a: CacheRow, b: CacheRow, c: CacheRow | RowLe(a, b) && RowLe(b, c) ensures RowLe(a, c) {
      RowLeTransitive(a, b, c);
    }
  }

  lemma RowLeTransitive(a: CacheRow, b: CacheRow, c: CacheRow)
    requires RowLe(a, b) && RowLe(b, c)
    ensures RowLe(a, c)
  {
    StrLessTotal(a.body.siteKey, b.body.siteKey);
    StrLessTotal(a.body.taskKey, b.body.taskKey);
    if StrLess(a.body.siteKey, b.body.siteKey) && StrLess(b.body.siteKey, c.body.siteKey) {
      StrLessTransitive(a.body.siteKey, b.body.siteKey, c.body.siteKey);
      StrLessTotal(a.body.siteKey, c.body.siteKey);
    }
    if StrLess(a.body.taskKey, b.body.taskKey) && StrLess(b.body.taskKey, c.body.taskKey) {
      StrLessTransitive(a.body.taskKey, b.body.taskKey, c.body.taskKey);
      StrLessTotal(a.body.taskKey, c.body.taskKey);
    }
  }

  /** A listing is determined by which rows are current, not by the order they were written or loaded in. */
  lemma ListingUnique(r: seq<CacheRow>, s: seq<CacheRow>, h: seq<CacheRow>, g: seq<CacheRow>, f: Filter)
    requires IsListing(r, h, f) && IsListing(s, g, f)
    requires forall row | MatchesFilter(row, f) :: Current(row, h, f.poolEligible) <==> Current(row, g, f.poolEligible)
    ensures r == s
  {
    RowOrderIsTotal();
    assert Distinct(r) && Distinct(s);
    DistinctRearrangement(r, s);
    var dom := RowsIn(r);
    assert StrictOn(dom, RowLe) by {
      forall x, y | x in dom && y in dom && RowLe(x, y) && RowLe(y, x) ensures x == y {
        var i :| 0 <= i < |r| && r[i] == x;
        var j :| 0 <= j < |r| && r[j] == y;
      }
    }
    SortedUnique(r, s, RowLe, dom);
  }

  ghost function RowsIn(r: seq<CacheRow>): iset<CacheRow> { iset row | row in r }

  function InView(rows: seq<CacheRow>, f: Filter): (r: seq<CacheRow>)
    ensures forall x :: x in r <==> x in rows && MatchesFilter(x, f) && (f.poolEligible.Some? ==> x.poolEligible == f.poolEligible.value)
  {
    if |rows| == 0 then []
    else if MatchesFilter(rows[0], f) && (f.poolEligible.Some? ==> rows[0].poolEligible == f.poolEligible.value)
    then [rows[0]] + InView(rows[1..], f)
    else InView(rows[1..], f)
  }

  lemma {:induction false} InViewDistinct(rows: seq<CacheRow>, f: Filter)
    requires Distinct(rows)
    ensures Distinct(InView(rows, f))
  {
    if |rows| > 0 {
      InViewDistinct(rows[1..], f);
      assert forall j | 0 <= j < |rows[1..]| :: rows[1..][j] == rows[j + 1];
      assert rows[0] !in rows[1..];
    }
  }

  lemma ValueUnderItsKey(history: seq<CacheRow>, keyOf: CacheRow -> string, i: nat)
    requires i < |IndexAll(history, keyOf).order|
    ensures var index := IndexAll(history, keyOf);
      index.Valid() && keyOf(index.Values()[i]) == index.order[i]
  {
    var index := IndexAll(history, keyOf);
    IndexHoldsLast(history, keyOf);
    assert index.order[i] in index.order;
    LastForIsThere(history, keyOf, index.order[i]);
  }

  /** The rows an index holds are exactly the current ones, and no two share a key. */
  lemma IndexValues(history: seq<CacheRow>, keyOf: CacheRow -> string)
    ensures IndexAll(history, keyOf).Valid()
    ensures var values := IndexAll(history, keyOf).Values();
      && Distinct(values)
      && (forall x, y | x in values && y in values && keyOf(x) == keyOf(y) :: x == y)
      && (forall row :: row in values <==> LastFor(history, keyOf, keyOf(row)) == Some(row))
  {
    var index := IndexAll(history, keyOf);
    IndexHoldsLast(history, keyOf);
    var values := index.Values();
    forall i | 0 <= i < |values| ensures keyOf(values[i]) == index.order[i] {
      ValueUnderItsKey(history, keyOf, i);
    }
    forall row | LastFor(history, keyOf, keyOf(row)) == Some(row) ensures row in values {
      assert keyOf(row) in index.rows && keyOf(row) in index.order;
      var i :| 0 <= i < |index.order| && index.order[i] == keyOf(row);
      assert values[i] == row;
    }
  }

  /** Sorting a view with one row per key gives its listing. */
  lemma SortedView(chosen: seq<CacheRow>)
    requires Distinct(chosen)
    requires forall x, y | x in chosen && y in chosen && CacheKeyOf(x) == CacheKeyOf(y) :: x == y
    ensures var r := SortBy(chosen, RowLe);
      && Sorted(r, RowLe)
      && (forall i, j | 0 <= i < j < |r| :: CacheKeyOf(r[i]) != CacheKeyOf(r[j]))
      && (forall row :: row in r <==> row in chosen)
  {
    var r := SortBy(chosen, RowLe);
    SortElements(chosen, RowLe);
    SameMembers(chosen, r);
    DistinctStays(chosen, r);
    RowOrderIsTotal();
    SortSorts(chosen, RowLe, AllRows());
    forall i, j | 0 <= i < j < |r| ensures CacheKeyOf(r[i]) != CacheKeyOf(r[j]) {
      assert r[i] in chosen && r[j] in chosen && r[i] != r[j];
    }
  }

  lemma MergedListing(history: seq<CacheRow>, f: Filter)
    requires f.poolEligible.None?
    ensures IndexAll(history, KeyText).Valid()
    ensures IsListing(SortBy(InView(IndexAll(history, KeyText).Values(), f), RowLe), history, f)
  {
    IndexValues(history, KeyText);
    InViewDistinct(IndexAll(history, KeyText).Values(), f);
    SortedView(InView(IndexAll(history, KeyText).Values(), f));
  }

  lemma SplitListing(history: seq<CacheRow>, f: Filter)
    requires f.poolEligible.Some?
    ensures IndexAll(history, SplitKeyText).Valid()
    ensures IsListing(SortBy(InView(IndexAll(history, SplitKeyText).Values(), f), RowLe), history, f)
  {
    IndexValues(history, SplitKeyText);
    InViewDistinct(IndexAll(history, SplitKeyText).Values(), f);
    SortedView(InView(IndexAll(history, SplitKeyText).Values(), f));
  }

  // ---- files ----

  /** How a row becomes a line and a line a row. */
  datatype Codec = Codec(line: CacheRow -> string, parse: string -> Option<CacheRow>)

  /** What JSON gives: a row is one line, reads back, and no proper prefix of it reads as anything. */
  ghost predicate Sound(c: Codec) {
    && (forall row :: '\n' !in c.line(row) && |c.line(row)| > 0 && LoadLine(c, c.line(row)) == [row])
    && (forall row, k: nat :: k < |c.line(row)| ==> TornIsLost(c, row, k))
  }

  ghost predicate TornIsLost(c: Codec, row: CacheRow, k: nat)
    requires k <= |c.line(row)|
  {
    LoadLine(c, c.line(row)[..k]) == []
  }

  function LoadLine(c: Codec, line: string): seq<CacheRow> {
    var trimmed := Trim(line);
    if |trimmed| == 0 then []
    else match c.parse(trimmed)
      case Some(row) => [row]
      case None => []
  }

  function LoadLines(c: Codec, lines: seq<string>): seq<CacheRow> {
    if |lines| == 0 then [] else LoadLine(c, lines[0]) + LoadLines(c, lines[1..])
  }

  lemma {:induction false} LoadLinesSnoc(c: Codec, lines: seq<string>, line: string)
    ensures LoadLines(c, lines + [line]) == LoadLines(c, lines) + LoadLine(c, line)
  {
    if |lines| == 0 {
      assert [line][1..] == [];
    } else {
      assert (lines + [line])[1..] == lines[1..] + [line];
      LoadLinesSnoc(c, lines[1..], line);
    }
  }

  lemma LoadLinesNext(c: Codec, before: seq<CacheRow>, lines: seq<string>, i: nat)
    requires i < |lines|
    ensures before + LoadLines(c, lines[..i + 1]) == before + LoadLines(c, lines[..i]) + LoadLine(c, lines[i])
  {
    assert lines[..i + 1] == lines[..i] + [lines[i]];
    LoadLinesSnoc(c, lines[..i], lines[i]);
  }

  /** Every row a file yields; a line that does not parse is skipped. */
  function Load(c: Codec, text: string): seq<CacheRow> {
    LoadLines(c, Split(text, NEWLINE))
  }

  /** The file that writing these rows produces. */
  function FileOf(c: Codec, rows: seq<CacheRow>): string {
    if |rows| == 0 then "" else c.line(rows[0]) + NEWLINE + FileOf(c, rows[1..])
  }

  lemma {:induction false} SplitLine(line: string, rest: string)
    requires '\n' !in line
    ensures Split(line + NEWLINE + rest, NEWLINE) == [line] + Split(rest, NEWLINE)
    ensures Split(line, NEWLINE) == [line]
  {
    var s := line + NEWLINE + rest;
    if |line| == 0 {
      assert s[1..] == rest && NEWLINE <= s;
    } else {
      assert line[0] in line && NEWLINE[0] == '\n';
      assert s[1..] == line[1..] + NEWLINE + rest && s[0] == line[0];
      SplitLine(line[1..], rest);
      assert [line[0]] + line[1..] == line;
      assert ([line[1..]] + Split(rest, NEWLINE))[1..] == Split(rest, NEWLINE);
      assert [line[1..]][1..] == [];
      assert [line] + [] == [line];
    }
  }

  lemma LoadOneLine(c: Codec, line: string, rest: string)
    requires '\n' !in line
    ensures Load(c, line + NEWLINE + rest) == LoadLine(c, line) + Load(c, rest)
    ensures Load(c, line) == LoadLine(c, line)
  {
    SplitLine(line, rest);
    assert ([line] + Split(rest, NEWLINE))[1..] == Split(rest, NEWLINE);
    assert [line][1..] == [];
    assert LoadLines(c, []) == [] && LoadLine(c, line) + [] == LoadLine(c, line);
  }

  lemma LoadNothing(c: Codec)
    ensures Load(c, "") == []
  {
    LoadOneLine(c, "", "");
    assert |Trim("")| == 0;
  }

  /** How many rows have their whole text within the first `n` characters of the file. */
  function Landed(c: Codec, rows: seq<CacheRow>, n: nat): (k: nat)
    ensures k <= |rows|
  {
    if |rows| == 0 || n < |c.line(rows[0])| then 0
    else if n == |c.line(rows[0])| then 1
    else 1 + Landed(c, rows[1..], n - |c.line(rows[0])| - 1)
  }

  /** Whatever prefix of the file a crash left, reading it yields exactly the rows whose text landed whole. */
  lemma {:induction false} LoadTorn(c: Codec, rows: seq<CacheRow>, n: nat)
    requires Sound(c) && n <= |FileOf(c, rows)|
    ensures Load(c, FileOf(c, rows)[..n]) == rows[..Landed(c, rows, n)]
  {
    if |rows| == 0 {
      LoadNothing(c);
      assert FileOf(c, rows)[..n] == "";
    } else {
      var line := c.line(rows[0]);
      if n <= |line| {
        assert FileOf(c, rows)[..n] == line[..n];
        LoadPartOfLine(c, rows[0], n);
        assert rows[..1] == [rows[0]];
      } else {
        var m := n - |line| - 1;
        LoadPastLine(c, rows, n);
        LoadTorn(c, rows[1..], m);
        assert [rows[0]] + rows[1..][..Landed(c, rows[1..], m)] == rows[..1 + Landed(c, rows[1..], m)];
      }
    }
  }

  lemma LoadPartOfLine(c: Codec, row: CacheRow, n: nat)
    requires Sound(c) && n <= |c.line(row)|
    ensures Load(c, c.line(row)[..n]) == if n < |c.line(row)| then [] else [row]
  {
    var line := c.line(row);
    LoadOneLine(c, line[..n], "");
    assert n < |line| ==> TornIsLost(c, row, n);
    assert n == |line| ==> line[..n] == line;
  }

  lemma LoadPastLine(c: Codec, rows: seq<CacheRow>, n: nat)
    requires Sound(c) && |rows| > 0 && |c.line(rows[0])| < n <= |FileOf(c, rows)|
    ensures var m := n - |c.line(rows[0])| - 1;
      m <= |FileOf(c, rows[1..])| && Load(c, FileOf(c, rows)[..n]) == [rows[0]] + Load(c, FileOf(c, rows[1..])[..m])
  {
    var line := c.line(rows[0]);
    var rest := FileOf(c, rows[1..])[..n - |line| - 1];
    assert FileOf(c, rows)[..n] == line + NEWLINE + rest;
    LoadOneLine(c, line, rest);
  }

  lemma {:induction false} LoadWhole(c: Codec, rows: seq<CacheRow>)
    requires Sound(c)
    ensures Load(c, FileOf(c, rows)) == rows
  {
    if |rows| == 0 {
      LoadNothing(c);
    } else {
      LoadOneLine(c, c.line(rows[0]), FileOf(c, rows[1..]));
      LoadWhole(c, rows[1..]);
    }
  }

  lemma {:induction false} FileOfSnoc(c: Codec, rows: seq<CacheRow>, row: CacheRow)
    ensures FileOf(c, rows + [row]) == FileOf(c, rows) + (c.line(row) + NEWLINE)
  {
    if |rows| == 0 {
      assert [row][1..] == [];
    } else {
      assert (rows + [row])[1..] == rows[1..] + [row];
      FileOfSnoc(c, rows[1..], row);
    }
  }

  lemma {:induction false} FileOfConcat(c: Codec, a: seq<CacheRow>, b: seq<CacheRow>)
    ensures FileOf(c, a + b) == FileOf(c, a) + FileOf(c, b)
  {
    if |a| == 0 {
      assert a + b == b;
    } else {
      assert (a + b)[1..] == a[1..] + b;
      FileOfConcat(c, a[1..], b);
    }
  }

  function Routed(rows: seq<CacheRow>, eligible: bool): (r: seq<CacheRow>)
    ensures forall x :: x in r <==> x in rows && x.poolEligible == eligible
  {
    if |rows| == 0 then []
    else
      var rest := Routed(rows[..|rows| - 1], eligible);
      if rows[|rows| - 1].poolEligible == eligible then rest + [rows[|rows| - 1]] else rest
  }

  lemma {:induction false} RoutedConcat(a: seq<CacheRow>, b: seq<CacheRow>, eligible: bool)
    ensures Routed(a + b, eligible) == Routed(a, eligible) + Routed(b, eligible)
  {
    if |b| == 0 {
      assert a + b == a;
    } else {
      assert (a + b)[..|a + b| - 1] == a + b[..|b| - 1];
      RoutedConcat(a, b[..|b| - 1], eligible);
    }
  }

  /** What appending a row adds to the file of one eligibility. */
  function LineFor(c: Codec, row: CacheRow, eligible: bool): string {
    if row.poolEligible == eligible then c.line(row) + NEWLINE else ""
  }

  /** A file that holds what it held at opening and then the rows written since that belong in it. */
  ghost predicate Tells(c: Codec, file: string, base: string, since: seq<CacheRow>, eligible: bool) {
    file == base + FileOf(c, Routed(since, eligible))
  }

  lemma TellsMore(c: Codec, file: string, base: string, since: seq<CacheRow>, row: CacheRow, eligible: bool)
    requires Tells(c, file, base, since, eligible)
    ensures Tells(c, file + LineFor(c, row, eligible), base, since + [row], eligible)
  {
    assert (since + [row])[..|since|] == since;
    FileOfSnoc(c, Routed(since, eligible), row);
  }

  /** Both files and the rows indexed, against what there was at opening. */
  ghost predicate Follows(
    c: Codec, poolBase: string, tenantBase: string, since: seq<CacheRow>, pool: string, tenant: string, history: seq<CacheRow>)
  {
    && history == Load(c, poolBase) + Load(c, tenantBase) + since
    && Tells(c, pool, poolBase, since, true) && Tells(c, tenant, tenantBase, since, false)
  }

  lemma FollowsMore(
    c: Codec, poolBase: string, tenantBase: string, since: seq<CacheRow>, pool: string, tenant: string, history: seq<CacheRow>, row: CacheRow)
    requires Follows(c, poolBase, tenantBase, since, pool, tenant, history)
    ensures Follows(
      c, poolBase, tenantBase, since + [row], pool + LineFor(c, row, true), tenant + LineFor(c, row, false), history + [row])
  {
    TellsMore(c, pool, poolBase, since, row, true);
    TellsMore(c, tenant, tenantBase, since, row, false);
  }

  // ---- the store ----

  class JsonlCacheStore {
    const codec: Codec
    var latest: Index
    var latestByEligibility: Index
    var poolFile: string
    var tenantFile: string
    /** What the files held when the store was opened. */
    ghost const poolBase: string
    ghost const tenantBase: string
    /** Every row indexed so far, rows loaded at opening first. */
    ghost var history: seq<CacheRow>
    /** The rows written since the store was opened. */
    ghost var since: seq<CacheRow>

    ghost predicate Valid()
      reads this
    {
      latest == IndexAll(history, KeyText) && latestByEligibility == IndexAll(history, SplitKeyText)
    }

    /** Files and history are what they were at opening, whatever that was, and then what has been written since. */
    ghost predicate Faithful()
      reads this
    {
      Follows(codec, poolBase, tenantBase, since, poolFile, tenantFile, history)
    }

    constructor Open(codec: Codec, poolFile: string, tenantFile: string)
      ensures Valid() && Faithful() && this.codec == codec
      ensures this.poolFile == poolBase == poolFile && this.tenantFile == tenantBase == tenantFile
      ensures history == Load(codec, poolFile) + Load(codec, tenantFile) && since == []
    {
      this.codec := codec;
      this.poolFile, this.tenantFile := poolFile, tenantFile;
      poolBase, tenantBase := poolFile, tenantFile;
      latest, latestByEligibility := EMPTY, EMPTY;
      history, since := [], [];
      new;
      LoadInto(poolFile);
      LoadInto(tenantFile);
      assert [] + Load(codec, poolFile) == Load(codec, poolFile);
    }

    method IndexRow(row: CacheRow)
      requires Valid()
      modifies this`latest, this`latestByEligibility, this`history
      ensures Valid() && history == old(history) + [row]
    {
      latest := latest.Set(KeyText(row), row);
      latestByEligibility := latestByEligibility.Set(SplitKeyText(row), row);
      history := history + [row];
      assert history[..|history| - 1] == old(history);
    }

    method LoadInto(text: string)
      requires Valid()
      modifies this`latest, this`latestByEligibility, this`history
      ensures Valid() && history == old(history) + Load(codec, text)
    {
      var lines := Split(text, NEWLINE);
      for i := 0 to |lines|
        invariant Valid()
        invariant history == old(history) + LoadLines(codec, lines[..i])
      {
        var trimmed := Trim(lines[i]);
        LoadLinesNext(codec, old(history), lines, i);
        if |trimmed| > 0 {
          var parsed := codec.parse(trimmed);
          if parsed.Some? {
            IndexRow(parsed.value);
          }
        }
      }
      assert lines[..|lines|] == lines;
    }

    method AppendLine(row: CacheRow)
      modifies this`poolFile, this`tenantFile
      ensures poolFile == old(poolFile) + LineFor(codec, row, true) && tenantFile == old(tenantFile) + LineFor(codec, row, false)
    {
      if row.poolEligible {
        poolFile := poolFile + (codec.line(row) + NEWLINE);
      } else {
        tenantFile := tenantFile + (codec.line(row) + NEWLINE);
      }
    }

    /** Append to the file the row belongs to, and index it. */
    method Write(row: CacheRow)
      requires Valid()
      modifies this
      ensures Valid() && (old(Faithful()) ==> Faithful())
      ensures history == old(history) + [row] && since == old(since) + [row]
      ensures poolFile == old(poolFile) + LineFor(codec, row, true) && tenantFile == old(tenantFile) + LineFor(codec, row, false)
    {
      if Faithful() {
        FollowsMore(codec, poolBase, tenantBase, since, poolFile, tenantFile, history, row);
      }
      AppendLine(row);
      IndexRow(row);
      since := since + [row];
    }

    method Get(key: CacheKey) returns (r: Option<CacheRow>)
      requires Valid()
      ensures r == LastFor(history, KeyText, CacheKeyString(key))
      ensures NulFree(key) && (forall row | row in history :: NulFree(CacheKeyOf(row))) ==> r == LastUnder(history, key)
    {
      IndexHoldsLast(history, KeyText);
      if NulFree(key) && forall row | row in history :: NulFree(CacheKeyOf(row)) {
        ReadsByKey(history, key);
      }
      var k := CacheKeyString(key);
      r := if k in latest.rows then Some(latest.rows[k]) else None;
    }

    method List(f: Filter) returns (r: seq<CacheRow>)
      requires Valid()
      ensures IsListing(r, history, f)
      ensures forall i, j | 0 <= i < j < |r| :: InOrder(r[i].body, r[j].body)
      ensures forall row | row in r ::
        && (f.siteKey.Some? ==> row.body.siteKey == f.siteKey.value) && (f.taskKey.Some? ==> row.body.taskKey == f.taskKey.value)
        && (f.poolEligible.Some? ==> row.poolEligible == f.poolEligible.value)
    {
      IndexHoldsLast(history, KeyText);
      IndexHoldsLast(history, SplitKeyText);
      if f.poolEligible.None? {
        MergedListing(history, f);
        r := SortBy(InView(latest.Values(), f), RowLe);
      } else {
        SplitListing(history, f);
        r := SortBy(InView(latestByEligibility.Values(), f), RowLe);
      }
      ListedInOrder(r, history, f);
    }
  }
}
