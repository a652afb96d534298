/** What a new process finds: whole files, files cut short by a crash, and files written to after a crash. */
module Reload {
  import opened Wrappers
  import opened Text
  import opened CacheTypes
  import opened Taint
  import opened Literals
  import opened Store

  /** The load order of a reopened store: the pool file, then the tenant file. */
  function LoadOrder(h: seq<CacheRow>): seq<CacheRow> {
    Routed(h, true) + Routed(h, false)
  }

  /** The last row of one eligibility under a key. */
  function LastOf(h: seq<CacheRow>, key: string, eligible: bool): Option<CacheRow> {
    LastFor(h, SplitKeyText, SplitText(key, eligible))
  }

  /** One file holds, for each key, the last row of its eligibility and nothing of the other's. */
  lemma {:induction false} FileHoldsLast(h: seq<CacheRow>, key: string, e: bool, f: bool)
    ensures LastFor(Routed(h, e), KeyText, key) == LastOf(h, key, e)
    ensures LastOf(Routed(h, e), key, f) == if e == f then LastOf(h, key, f) else None
    ensures LastOf(h, key, e).Some? ==> LastOf(h, key, e).value.poolEligible == e
  {
    if |h| > 0 {
      var front, last := h[..|h| - 1], h[|h| - 1];
      FileHoldsLast(front, key, e, f);
      if SplitKeyText(last) == SplitText(key, e) {
        SplitTextInjective(KeyText(last), key, last.poolEligible, e);
      }
      if SplitKeyText(last) == SplitText(key, f) {
        SplitTextInjective(KeyText(last), key, last.poolEligible, f);
      }
      if last.poolEligible == e {
        assert (Routed(front, e) + [last])[..|Routed(front, e)|] == Routed(front, e);
      }
    }
  }

  lemma {:induction false} LastIsOneOfTwo(h: seq<CacheRow>, key: string)
    ensures LastFor(h, KeyText, key).None? ==> LastOf(h, key, true).None? && LastOf(h, key, false).None?
    ensures LastFor(h, KeyText, key).Some? ==>
      LastFor(h, KeyText, key) == LastOf(h, key, LastFor(h, KeyText, key).value.poolEligible)
  {
    if |h| > 0 {
      var front, last := h[..|h| - 1], h[|h| - 1];
      LastIsOneOfTwo(front, key);
      forall e | SplitKeyText(last) == SplitText(key, e) ensures KeyText(last) == key {
        SplitTextInjective(KeyText(last), key, last.poolEligible, e);
      }
    }
  }

  /**
   * Reopening changes no per-eligibility answer. The merged answer becomes the last tenant row if there is one, so
   * it agrees with the one before exactly when the key has no tenant row or its last write was one.
   */
  lemma ReopenedAnswers(h: seq<CacheRow>, key: string)
    ensures forall e :: LastOf(LoadOrder(h), key, e) == LastOf(h, key, e)
    ensures LastFor(LoadOrder(h), KeyText, key)
      == if LastOf(h, key, false).Some? then LastOf(h, key, false) else LastOf(h, key, true)
    ensures LastFor(LoadOrder(h), KeyText, key) == LastFor(h, KeyText, key)
      <==> (LastOf(h, key, false).None?
            || (LastFor(h, KeyText, key).Some? && !LastFor(h, KeyText, key).value.poolEligible))
  {
    forall e ensures LastOf(LoadOrder(h), key, e) == LastOf(h, key, e) {
      FileHoldsLast(h, key, true, e);
      FileHoldsLast(h, key, false, e);
      LastForConcat(Routed(h, true), Routed(h, false), SplitKeyText, SplitText(key, e));
    }
    FileHoldsLast(h, key, true, true);
    FileHoldsLast(h, key, false, false);
    LastForConcat(Routed(h, true), Routed(h, false), KeyText, key);
    LastIsOneOfTwo(h, key);
  }

  // ---- the last line of a file ----

  /** What follows the last line break. */
  function Tail(text: string): (r: string)
    ensures '\n' !in r && |r| <= |text| && text[|text| - |r|..] == r
    ensures |r| < |text| ==> text[|text| - |r| - 1] == '\n'
  {
    if |text| == 0 || text[|text| - 1] == '\n' then ""
    else
      var r := Tail(text[..|text| - 1]);
      assert text == text[..|text| - 1] + [text[|text| - 1]];
      r + [text[|text| - 1]]
  }

  /** The text up to and including the last line break. */
  function Head(text: string): (r: string)
    ensures r + Tail(text) == text && (|r| > 0 ==> r[|r| - 1] == '\n')
  {
    text[..|text| - |Tail(text)|]
  }

  predicate Blank(s: string) {
    forall i | 0 <= i < |s| :: IsSpace(s[i])
  }

  /** Nothing but blanks since the last line break: the next append has a line of its own. */
  predicate CleanEnd(text: string) {
    Blank(Tail(text))
  }

  /** A text that ends with a line break begins with a line. */
  lemma FirstLine(text: string) returns (line: string, more: string)
    requires |text| > 0 && text[|text| - 1] == '\n'
    ensures '\n' !in line && text == line + NEWLINE + more && (|more| > 0 ==> more[|more| - 1] == '\n')
  {
    assert text[|text| - 1] in text;
    var k := IndexOf(text, '\n').value;
    line, more := text[..k], text[k + 1..];
  }

  lemma SkipLine(line: string, more: string, rest: string)
    ensures (line + NEWLINE + more) + rest == line + NEWLINE + (more + rest)
  {
  }

  lemma SplitAfterLine(c: Codec, line: string, more: string, rest: string)
    requires '\n' !in line && Load(c, more + rest) == Load(c, more) + Load(c, rest)
    ensures Load(c, line + NEWLINE + more + rest) == Load(c, line + NEWLINE + more) + Load(c, rest)
  {
    SkipLine(line, more, rest);
    LoadOneLine(c, line, more);
    LoadOneLine(c, line, more + rest);
  }

  /** Lines that end with a line break are read independently of what follows. */
  lemma {:induction false} LoadSplit(c: Codec, head: string, rest: string)
    requires |head| > 0 ==> head[|head| - 1] == '\n'
    ensures Load(c, head + rest) == Load(c, head) + Load(c, rest)
    decreases |head|
  {
    if |head| == 0 {
      LoadNothing(c);
      assert head + rest == rest && head == "";
    } else {
      var line, more := FirstLine(head);
      LoadSplit(c, more, rest);
      SplitAfterLine(c, line, more, rest);
    }
  }

  lemma {:induction false} TrimStartSkips(blank: string, s: string)
    requires Blank(blank)
    ensures TrimStart(blank + s) == TrimStart(s)
    decreases |blank|
  {
    if |blank| == 0 {
      assert blank + s == s;
    } else {
      assert (blank + s)[1..] == blank[1..] + s;
      TrimStartSkips(blank[1..], s);
    }
  }

  lemma BlankLine(c: Codec, blank: string, s: string)
    requires Blank(blank)
    ensures LoadLine(c, blank + s) == LoadLine(c, s) && LoadLine(c, blank) == []
  {
    TrimStartSkips(blank, s);
    TrimStartSkips(blank, "");
    assert blank + "" == blank && TrimStart("") == "";
  }

  /** Blanks in front of a text make no difference. */
  lemma BlankInFront(c: Codec, blank: string, s: string)
    requires Blank(blank) && '\n' !in blank
    ensures Load(c, blank + s) == Load(c, s)
  {
    if '\n' in s {
      var k := IndexOf(s, '\n').value;
      var line, more := s[..k], s[k + 1..];
      assert s == line + NEWLINE + more;
      assert blank + s == (blank + line) + NEWLINE + more;
      BlankLine(c, blank, line);
      LoadOneLine(c, line, more);
      LoadOneLine(c, blank + line, more);
    } else {
      BlankLine(c, blank, s);
      LoadOneLine(c, s, "");
      LoadOneLine(c, blank + s, "");
    }
  }

  lemma LoadHeadTail(c: Codec, file: string, more: string)
    ensures Load(c, file + more) == Load(c, Head(file)) + Load(c, Tail(file) + more)
    ensures Load(c, file) == Load(c, Head(file)) + LoadLine(c, Tail(file))
  {
    LoadParts(c, Head(file), Tail(file), more);
  }

  lemma LoadParts(c: Codec, head: string, tail: string, more: string)
    requires (|head| > 0 ==> head[|head| - 1] == '\n') && '\n' !in tail
    ensures Load(c, (head + tail) + more) == Load(c, head) + Load(c, tail + more)
    ensures Load(c, head + tail) == Load(c, head) + LoadLine(c, tail)
  {
    Concat3(head, tail, more);
    LoadSplit(c, head, tail + more);
    LoadSplit(c, head, tail);
    LoadOneLine(c, tail, "");
  }

  /** After a clean end, what is there and what is appended are read separately. */
  lemma LoadAfterCleanEnd(c: Codec, file: string, more: string)
    requires CleanEnd(file)
    ensures Load(c, file) == Load(c, Head(file)) && Load(c, file + more) == Load(c, file) + Load(c, more)
  {
    LoadHeadTail(c, file, more);
    BlankInFront(c, Tail(file), more);
    BlankLine(c, Tail(file), more);
  }

  // ---- writing on ----

  /** A line glued onto anything but blanks reads as nothing. */
  ghost predicate Unglued(c: Codec) {
    forall tail, row | !Blank(tail) :: GluedIsLost(c, tail, row)
  }

  ghost predicate GluedIsLost(c: Codec, tail: string, row: CacheRow) {
    LoadLine(c, tail + c.line(row)) == []
  }

  /** A row's line put after the rest of another. */
  lemma GluedLine(c: Codec, tail: string, line: string)
    requires '\n' !in tail && '\n' !in line
    ensures Load(c, tail + (line + NEWLINE)) == LoadLine(c, tail + line)
  {
    assert tail + (line + NEWLINE) == (tail + line) + NEWLINE + "";
    LoadOneLine(c, tail + line, "");
    LoadNothing(c);
  }

  lemma TailLine(c: Codec, tail: string, row: CacheRow)
    requires Sound(c) && Unglued(c) && '\n' !in tail
    ensures LoadLine(c, tail + c.line(row)) == if Blank(tail) then [row] else []
    ensures Blank(tail) ==> LoadLine(c, tail) == []
  {
    if Blank(tail) {
      BlankLine(c, tail, c.line(row));
    } else {
      assert GluedIsLost(c, tail, row);
    }
  }

  /**
   * Appending a row to any file, whatever a crash or another program left in it: the row survives a reload exactly
   * when there are only blanks after the last line break. Otherwise it is lost, and the last line with it, even one
   * that could be read before.
   */
  lemma AppendAfterTear(c: Codec, file: string, row: CacheRow)
    requires Sound(c) && Unglued(c)
    ensures Load(c, file) == Load(c, Head(file)) + LoadLine(c, Tail(file))
    ensures Load(c, file + (c.line(row) + NEWLINE)) == Load(c, Head(file)) + (if CleanEnd(file) then [row] else [])
    ensures CleanEnd(file) ==> LoadLine(c, Tail(file)) == []
  {
    LoadHeadTail(c, file, c.line(row) + NEWLINE);
    GluedLine(c, Tail(file), c.line(row));
    TailLine(c, Tail(file), row);
  }

  /** The rows of a file that are still read once rows have been appended to it. */
  ghost function Kept(c: Codec, file: string, rows: seq<CacheRow>): seq<CacheRow> {
    Load(c, if |rows| == 0 then file else Head(file))
  }

  /** The appended rows that are read: all of them after a clean end, all but the first otherwise. */
  function Landing(file: string, rows: seq<CacheRow>): seq<CacheRow> {
    if |rows| == 0 || CleanEnd(file) then rows else rows[1..]
  }

  lemma ReadBack(c: Codec, file: string, rows: seq<CacheRow>)
    requires Sound(c) && Unglued(c)
    ensures Load(c, file + FileOf(c, rows)) == Kept(c, file, rows) + Landing(file, rows)
  {
    if |rows| == 0 {
      assert file + FileOf(c, rows) == file;
    } else {
      var first, rest := c.line(rows[0]) + NEWLINE, FileOf(c, rows[1..]);
      Concat3(file, first, rest);
      LoadAfterBreak(c, file + first, rest);
      AppendAfterTear(c, file, rows[0]);
      LoadWhole(c, rows[1..]);
      OneThenRest(rows, Load(c, Head(file)), CleanEnd(file));
    }
  }

  lemma LoadAfterBreak(c: Codec, head: string, rest: string)
    requires |head| > 0 && head[|head| - 1] == '\n'
    ensures Load(c, head + rest) == Load(c, head) + Load(c, rest)
  {
    LoadSplit(c, head, rest);
  }

  lemma OneThenRest(rows: seq<CacheRow>, kept: seq<CacheRow>, clean: bool)
    requires |rows| > 0
    ensures (kept + (if clean then [rows[0]] else [])) + rows[1..] == kept + (if clean then rows else rows[1..])
  {
  }

  /** After a clean end the file may be cut short again: the rows whose text landed whole are read. */
  lemma ReadBackTorn(c: Codec, file: string, rows: seq<CacheRow>, n: nat)
    requires Sound(c) && CleanEnd(file) && n <= |FileOf(c, rows)|
    ensures Load(c, file + FileOf(c, rows)[..n]) == Load(c, file) + rows[..Landed(c, rows, n)]
  {
    LoadAfterCleanEnd(c, file, FileOf(c, rows)[..n]);
    LoadTorn(c, rows, n);
  }

  /** The case of a crash and nothing else: rows whose line break landed stay, and the new one may not. */
  lemma AppendAfterCrash(c: Codec, rows: seq<CacheRow>, n: nat, row: CacheRow)
    requires Sound(c) && Unglued(c) && n <= |FileOf(c, rows)|
    ensures var left := FileOf(c, rows)[..n];
      Load(c, left + (c.line(row) + NEWLINE))
        == rows[..Landed(c, rows, |Head(left)|)] + (if CleanEnd(left) then [row] else [])
  {
    var left := FileOf(c, rows)[..n];
    AppendAfterTear(c, left, row);
    HeadOfPrefix(FileOf(c, rows), n);
    LoadTorn(c, rows, |Head(left)|);
  }

  lemma HeadOfPrefix(text: string, n: nat)
    requires n <= |text|
    ensures |Head(text[..n])| <= |text| && Head(text[..n]) == text[..|Head(text[..n])|]
  {
  }

  // ---- reopening a store ----

  /** Each file's loaded rows belong in it, as rows this code wrote do. */
  ghost predicate RightFiles(c: Codec, pool: string, tenant: string) {
    && (forall row | row in Load(c, pool) :: row.poolEligible)
    && (forall row | row in Load(c, tenant) :: !row.poolEligible)
  }

  lemma {:induction false} RoutedAll(rows: seq<CacheRow>, eligible: bool)
    requires forall row | row in rows :: row.poolEligible == eligible
    ensures Routed(rows, eligible) == rows && Routed(rows, !eligible) == []
  {
    if |rows| > 0 {
      var front, last := rows[..|rows| - 1], rows[|rows| - 1];
      assert last in rows && front + [last] == rows;
      forall row | row in front ensures row.poolEligible == eligible {
        assert row in rows;
      }
      RoutedAll(front, eligible);
    }
  }

  lemma ReadInLoadOrder(p: seq<CacheRow>, t: seq<CacheRow>, since: seq<CacheRow>)
    requires Routed(p, true) == p && Routed(p, false) == [] && Routed(t, true) == [] && Routed(t, false) == t
    ensures LoadOrder(p + t + since) == (p + Routed(since, true)) + (t + Routed(since, false))
  {
    RoutedParts(p, t, since, true);
    RoutedParts(p, t, since, false);
    JoinParts(p, [], Routed(since, true));
    JoinParts([], t, Routed(since, false));
  }

  lemma JoinParts(a: seq<CacheRow>, b: seq<CacheRow>, c: seq<CacheRow>)
    ensures a == [] ==> a + b + c == b + c
    ensures b == [] ==> a + b + c == a + c
  {
  }

  lemma RoutedParts(p: seq<CacheRow>, t: seq<CacheRow>, since: seq<CacheRow>, eligible: bool)
    ensures Routed(p + t + since, eligible) == Routed(p, eligible) + Routed(t, eligible) + Routed(since, eligible)
  {
    RoutedConcat(p + t, since, eligible);
    RoutedConcat(p, t, eligible);
  }

  /**
   * Reopen whatever is left of the files, which may have held anything at all when the store was opened: whole, the
   * rows `ReadBack` says; cut short after a clean start, the rows that landed. Files that started clean and in order
   * are read in load order.
   */
  method Reopen(store: JsonlCacheStore, poolBytes: nat, tenantBytes: nat) returns (again: JsonlCacheStore)
    requires store.Faithful() && Sound(store.codec) && Unglued(store.codec)
    requires poolBytes <= |store.poolFile| && tenantBytes <= |store.tenantFile|
    ensures fresh(again) && again.Valid() && again.Faithful() && again.codec == store.codec
    ensures again.history == Load(store.codec, store.poolFile[..poolBytes]) + Load(store.codec, store.tenantFile[..tenantBytes])
    ensures ReadsOf(store.codec, store.poolFile, store.poolBase, Routed(store.since, true), poolBytes)
    ensures ReadsOf(store.codec, store.tenantFile, store.tenantBase, Routed(store.since, false), tenantBytes)
    ensures poolBytes == |store.poolFile| && tenantBytes == |store.tenantFile| && StartedClean(store) ==>
      again.history == LoadOrder(store.history)
  {
    again := new JsonlCacheStore.Open(store.codec, store.poolFile[..poolBytes], store.tenantFile[..tenantBytes]);
    CutFile(store.codec, store.poolFile, store.poolBase, Routed(store.since, true), poolBytes);
    CutFile(store.codec, store.tenantFile, store.tenantBase, Routed(store.since, false), tenantBytes);
    if RightFiles(store.codec, store.poolBase, store.tenantBase) {
      RoutedAll(Load(store.codec, store.poolBase), true);
      RoutedAll(Load(store.codec, store.tenantBase), false);
      ReadInLoadOrder(Load(store.codec, store.poolBase), Load(store.codec, store.tenantBase), store.since);
      LoadAfterCleanEnds(store.codec, store.poolBase, Routed(store.since, true));
      LoadAfterCleanEnds(store.codec, store.tenantBase, Routed(store.since, false));
    }
  }

  ghost predicate StartedClean(store: JsonlCacheStore) {
    CleanEnd(store.poolBase) && CleanEnd(store.tenantBase) && RightFiles(store.codec, store.poolBase, store.tenantBase)
  }

  /** What the first `n` characters of a file that held `base` and was then written `rows` are read as. */
  ghost predicate ReadsOf(c: Codec, file: string, base: string, rows: seq<CacheRow>, n: nat)
    requires n <= |file|
  {
    && (n == |file| ==> Load(c, file[..n]) == Kept(c, base, rows) + Landing(base, rows))
    && (n >= |base| && CleanEnd(base) ==> Load(c, file[..n]) == Load(c, base) + rows[..Landed(c, rows, n - |base|)])
  }

  lemma CutFile(c: Codec, file: string, base: string, rows: seq<CacheRow>, n: nat)
    requires Sound(c) && Unglued(c) && file == base + FileOf(c, rows) && n <= |file|
    ensures ReadsOf(c, file, base, rows, n)
  {
    if n == |file| {
      assert file[..n] == file;
      ReadBack(c, base, rows);
    }
    if n >= |base| && CleanEnd(base) {
      assert file[..n] == base + FileOf(c, rows)[..n - |base|];
      ReadBackTorn(c, base, rows, n - |base|);
    }
  }

  lemma LoadAfterCleanEnds(c: Codec, base: string, rows: seq<CacheRow>)
    ensures CleanEnd(base) ==> Kept(c, base, rows) + Landing(base, rows) == Load(c, base) + rows
  {
    if CleanEnd(base) {
      LoadAfterCleanEnd(c, base, "");
    }
  }
}
