/**
 * Why a file of JSON lines survives a crash: whatever a reader of JSON accepts as an object passes a bracket-and-quote
 * scan, and neither a torn line nor a line glued onto anything but blanks does.
 */
module JsonLines {
  import opened Wrappers
  import opened Decimal
  import opened Json
  import opened CacheTypes
  import opened Taint
  import opened Literals
  import opened Store
  import opened Reload

  /** Where a scan stands: between tokens at some nesting, inside a string, past the end, or in text no object can be. */
  datatype Lex =
    | Out(depth: nat, afterString: bool)
    | In(depth: nat, escaped: bool)
    | Done
    | Dead

  /** After a string come a comma, a colon or a closing bracket, and after the last bracket comes nothing. */
  function ScanChar(st: Lex, c: char): Lex {
    match st
    case Dead => Dead
    case Done => Dead
    case In(d, escaped) =>
      if escaped then In(d, false) else if c == '\\' then In(d, true) else if c == '"' then Out(d, true) else In(d, false)
    case Out(d, after) =>
      if c == '}' || c == ']' then (if d == 0 then Dead else if d == 1 then Done else Out(d - 1, false))
      else if c == ',' || c == ':' then Out(d, false)
      else if IsSpace(c) then st
      else if after then Dead
      else if c == '"' then In(d, false)
      else if c == '{' || c == '[' then Out(d + 1, false)
      else st
  }

  function Scan(st: Lex, s: string): Lex
    decreases |s|
  {
    if |s| == 0 then st else Scan(ScanChar(st, s[0]), s[1..])
  }

  const START := Out(0, false)

  lemma {:induction false} ScanConcat(st: Lex, a: string, b: string)
    ensures Scan(st, a + b) == Scan(Scan(st, a), b)
    decreases |a|
  {
    if |a| == 0 {
      assert a + b == b;
    } else {
      assert (a + b)[1..] == a[1..] + b;
      ScanConcat(ScanChar(st, a[0]), a[1..], b);
    }
  }

  lemma ScanOne(st: Lex, c: char)
    ensures Scan(st, [c]) == ScanChar(st, c)
  {
    assert [c][1..] == [];
  }

  lemma {:induction false} DeadStays(s: string)
    ensures Scan(Dead, s) == Dead
    ensures |s| > 0 ==> Scan(Done, s) == Dead
  {
    if |s| > 0 {
      DeadStays(s[1..]);
    }
  }

  // ---- printed values ----

  lemma EscapeScans(d: nat, c: char)
    ensures Scan(In(d, false), EscapeJson(c)) == In(d, false)
  {
    var e := EscapeJson(c);
    if |e| == 1 {
      ScanOne(In(d, false), e[0]);
    } else if |e| == 2 {
      assert e == [e[0]] + [e[1]];
      ScanConcat(In(d, false), [e[0]], [e[1]]);
      ScanOne(In(d, false), e[0]);
      ScanOne(In(d, true), e[1]);
    } else {
      HexScans(d, e[4], e[5]);
      assert e == "\\u00" + [e[4], e[5]];
    }
  }

  lemma HexScans(d: nat, x: char, y: char)
    requires x in "0123456789abcdef" && y in "0123456789abcdef"
    ensures Scan(In(d, false), "\\u00" + [x, y]) == In(d, false)
  {
    var tail := "u00" + [x, y];
    assert "\\u00" + [x, y] == "\\" + tail && tail == "u" + "00" + [x] + [y];
    ScanConcat(In(d, false), "\\", tail);
    ScanOne(In(d, false), '\\');
    ScanConcat(In(d, true), "u" + "00" + [x], [y]);
    ScanConcat(In(d, true), "u" + "00", [x]);
    ScanConcat(In(d, true), "u", "00");
    ScanConcat(In(d, false), "0", "0");
    ScanOne(In(d, true), 'u');
    ScanOne(In(d, false), '0');
    ScanOne(In(d, false), x);
    ScanOne(In(d, false), y);
    assert "00" == "0" + "0";
  }

  lemma {:induction false} TextScans(d: nat, s: string)
    ensures Scan(In(d, false), EscapeText(s)) == In(d, false)
  {
    if |s| > 0 {
      EscapeScans(d, s[0]);
      ScanConcat(In(d, false), EscapeJson(s[0]), EscapeText(s[1..]));
      TextScans(d, s[1..]);
    }
  }

  lemma QuoteScans(d: nat, s: string)
    ensures Scan(Out(d, false), Quote(s)) == Out(d, true)
  {
    ScanConcat(Out(d, false), "\"", EscapeText(s));
    ScanConcat(Out(d, false), "\"" + EscapeText(s), "\"");
    ScanOne(Out(d, false), '"');
    ScanOne(In(d, false), '"');
    TextScans(d, s);
  }

  predicate Plain(c: char) {
    IsDigit(c) || c == '-' || 'a' <= c <= 'z'
  }

  lemma {:induction false} PlainScans(d: nat, s: string)
    requires forall i | 0 <= i < |s| :: Plain(s[i])
    ensures Scan(Out(d, false), s) == Out(d, false)
  {
    if |s| > 0 {
      PlainScans(d, s[1..]);
    }
  }

  lemma NumberIsPlain(n: int)
    ensures forall i | 0 <= i < |IntText(n)| :: Plain(IntText(n)[i])
  {
    assert Digits(NatText(if n < 0 then -n else n));
  }

  /** A value inside a container leaves the nesting as it was. */
  predicate After(st: Lex, d: nat) {
    st == Out(d, false) || st == Out(d, true)
  }

  lemma {:induction false} ValueScans(j: Json, d: nat, e: nat)
    requires d >= 1
    ensures After(Scan(Out(d, false), Print(j, false, e)), d)
    decreases j, 1
  {
    match j
    case Null => PlainScans(d, "null");
    case Bool(b) => PlainScans(d, if b then "true" else "false");
    case Num(n) =>
      NumberIsPlain(n);
      PlainScans(d, IntText(n));
    case Str(s) => QuoteScans(d, s);
    case Arr(items) =>
      if |items| == 0 {
        EmptyScans(d, '[', ']');
      } else {
        ItemsScan(items, d + 1, e + 1);
        Wrapped(d, '[', PrintItems(items, false, e + 1), ']');
      }
    case Obj(fs) =>
      if |fs| == 0 {
        EmptyScans(d, '{', '}');
      } else {
        FieldsScan(fs, d + 1, e + 1);
        Wrapped(d, '{', PrintFields(fs, false, e + 1), '}');
      }
  }

  lemma EmptyScans(d: nat, open: char, close: char)
    requires (open == '[' && close == ']') || (open == '{' && close == '}')
    ensures Scan(Out(d, false), [open, close]) == if d == 0 then Done else Out(d, false)
  {
    assert [open, close] == [open] + [close];
    ScanConcat(Out(d, false), [open], [close]);
    ScanOne(Out(d, false), open);
    ScanOne(Out(d + 1, false), close);
  }

  /** Brackets around something that keeps the nesting. */
  lemma Wrapped(d: nat, open: char, inner: string, close: char)
    requires (open == '[' && close == ']') || (open == '{' && close == '}')
    requires After(Scan(Out(d + 1, false), inner), d + 1)
    ensures Scan(Out(d, false), [open] + ("" + (inner + ("" + [close])))) == if d == 0 then Done else Out(d, false)
  {
    assert [open] + ("" + (inner + ("" + [close]))) == ([open] + inner) + [close];
    ScanConcat(Out(d, false), [open] + inner, [close]);
    ScanConcat(Out(d, false), [open], inner);
    ScanOne(Out(d, false), open);
    ScanOne(Scan(Out(d + 1, false), inner), close);
  }

  lemma AfterComma(st: Lex, d: nat, rest: string)
    requires After(st, d)
    ensures Scan(st, "," + ("" + rest)) == Scan(Out(d, false), rest)
  {
    assert "," + ("" + rest) == "," + rest;
    ScanConcat(st, ",", rest);
    ScanOne(st, ',');
  }

  lemma {:induction false} ItemsScan(items: seq<Json>, d: nat, e: nat)
    requires d >= 1 && |items| > 0
    ensures After(Scan(Out(d, false), PrintItems(items, false, e)), d)
    decreases items, 0
  {
    var head := Print(items[0], false, e);
    ValueScans(items[0], d, e);
    if |items| == 1 {
      assert head + "" == head;
    } else {
      var rest := PrintItems(items[1..], false, e);
      ItemsScan(items[1..], d, e);
      ScanConcat(Out(d, false), head, "," + ("" + rest));
      AfterComma(Scan(Out(d, false), head), d, rest);
    }
  }

  lemma {:induction false} FieldScans(f: Field, d: nat, e: nat)
    requires d >= 1
    ensures After(Scan(Out(d, false), PrintField(f, false, e)), d)
    decreases f, 2
  {
    var k, v := Quote(f.key), Print(f.value, false, e);
    QuoteScans(d, f.key);
    ValueScans(f.value, d, e);
    ScanConcat(Out(d, false), k, ":" + v);
    ScanConcat(Out(d, true), ":", v);
    ScanOne(Out(d, true), ':');
  }

  lemma {:induction false} FieldsScan(fs: seq<Field>, d: nat, e: nat)
    requires d >= 1 && |fs| > 0
    ensures After(Scan(Out(d, false), PrintFields(fs, false, e)), d)
    decreases fs, 0
  {
    var head := PrintField(fs[0], false, e);
    FieldScans(fs[0], d, e);
    if |fs| == 1 {
      assert head + "" == head;
    } else {
      var rest := PrintFields(fs[1..], false, e);
      FieldsScan(fs[1..], d, e);
      ScanConcat(Out(d, false), head, "," + ("" + rest));
      AfterComma(Scan(Out(d, false), head), d, rest);
    }
  }

  /** A printed object scans from nesting zero to exactly done, and inside something else to where it started. */
  lemma ObjectScans(fs: seq<Field>, d: nat)
    ensures Scan(Out(d, false), Print(Obj(fs), false, 0)) == if d == 0 then Done else Out(d, false)
  {
    if |fs| == 0 {
      EmptyScans(d, '{', '}');
    } else {
      FieldsScan(fs, d + 1, 1);
      Wrapped(d, '{', PrintFields(fs, false, 1), '}');
    }
  }

  // ---- lines ----

  /** Rows are printed as objects whose first key starts with a letter, as `schema_version` does. */
  ghost predicate PrintsObjects(c: Codec, enc: CacheRow -> Json) {
    forall row :: PrintsRow(c, enc, row)
  }

  predicate PrintsRow(c: Codec, enc: CacheRow -> Json, row: CacheRow) {
    && enc(row).Obj? && |enc(row).fields| > 0 && |enc(row).fields[0].key| > 0 && Letter(enc(row).fields[0].key[0])
    && c.line(row) == Print(enc(row), false, 0)
  }

  /**
   * What is known of the reader: it reads a row's own line back, the trimmed object texts it accepts pass the scan,
   * and only an object ends in a closing brace.
   */
  ghost predicate ReadsJson(c: Codec) {
    && (forall row :: c.parse(c.line(row)) == Some(row))
    && (forall s | c.parse(s).Some? :: AcceptedScans(s))
  }

  predicate AcceptedScans(s: string) {
    |s| > 0 && !IsSpace(s[0]) && !IsSpace(s[|s| - 1]) ==>
      (s[|s| - 1] == '}' ==> s[0] == '{') && (s[0] == '{' ==> Scan(START, s) == Done)
  }

  /** How an object's text begins: brace, quote, first letter of the first key. */
  lemma ObjectBegins(fs: seq<Field>)
    requires |fs| > 0 && |fs[0].key| > 0 && Letter(fs[0].key[0])
    ensures var line := Print(Obj(fs), false, 0);
      |line| > 2 && line[0] == '{' && line[1] == '"' && line[2] == fs[0].key[0] && line[|line| - 1] == '}'
  {
    var key := fs[0].key;
    var inner := PrintFields(fs, false, 1);
    var line := "{" + ("" + (inner + ("" + "}")));
    FieldBegins(fs[0]);
    assert inner[0] == '"' && inner[1] == key[0];
    assert line == ("{" + inner) + "}";
    assert line[1] == inner[0] && line[2] == inner[1];
  }

  lemma FieldBegins(f: Field)
    requires |f.key| > 0 && Letter(f.key[0])
    ensures |PrintField(f, false, 1)| > 1 && PrintField(f, false, 1)[0] == '"' && PrintField(f, false, 1)[1] == f.key[0]
  {
    assert EscapeJson(f.key[0]) == [f.key[0]];
    assert EscapeText(f.key)[0] == f.key[0];
    assert Quote(f.key)[0] == '"' && Quote(f.key)[1] == f.key[0];
  }

  /** What the proofs below use of a line. */
  ghost predicate LooksLikeLine(line: string) {
    && |line| > 2 && line[0] == '{' && line[1] == '"' && Letter(line[2]) && line[|line| - 1] == '}'
    && Scan(START, line) == Done && forall d: nat | d > 0 :: Scan(Out(d, false), line) == Out(d, false)
  }

  lemma LineShape(c: Codec, enc: CacheRow -> Json, row: CacheRow)
    requires PrintsRow(c, enc, row)
    ensures LooksLikeLine(c.line(row))
  {
    var fs := enc(row).fields;
    ObjectBegins(fs);
    ObjectScans(fs, 0);
    forall d: nat | d > 0 ensures Scan(Out(d, false), c.line(row)) == Out(d, false) {
      ObjectScans(fs, d);
    }
  }

  lemma {:induction false} TrimKeepsPrefix(s: string)
    requires |s| > 0 && s[0] == '{'
    ensures Trim(s) <= s && |Trim(s)| > 0 && Trim(s)[0] == '{' && !IsSpace(Trim(s)[|Trim(s)| - 1])
    ensures s[|s| - 1] == '}' ==> Trim(s) == s
  {
    assert TrimStart(s) == s;
    TrimEndKeeps(s);
  }

  lemma {:induction false} TrimEndKeeps(s: string)
    requires |s| > 0 && s[0] == '{'
    ensures TrimEnd(s) <= s && |TrimEnd(s)| > 0 && !IsSpace(TrimEnd(s)[|TrimEnd(s)| - 1])
    ensures s[|s| - 1] == '}' ==> TrimEnd(s) == s
  {
    if IsSpace(s[|s| - 1]) {
      assert |s| > 1;
      TrimEndKeeps(s[..|s| - 1]);
    }
  }

  /** No proper prefix of a line is a complete object. */
  lemma TornIsNotDone(line: string, k: nat)
    requires Scan(START, line) == Done && k < |line|
    ensures Scan(START, line[..k]) != Done && Scan(START, line[..k]) != Dead
  {
    assert line == line[..k] + line[k..];
    ScanConcat(START, line[..k], line[k..]);
    DeadStays(line[k..]);
  }

  lemma TornLineIsLost(c: Codec, enc: CacheRow -> Json, row: CacheRow, k: nat)
    requires PrintsObjects(c, enc) && ReadsJson(c) && k < |c.line(row)|
    ensures TornIsLost(c, row, k)
  {
    var line := c.line(row);
    assert PrintsRow(c, enc, row);
    LineShape(c, enc, row);
    if k > 0 {
      var torn := line[..k];
      TrimKeepsPrefix(torn);
      var t := Trim(torn);
      assert t == line[..|t|];
      TornIsNotDone(line, |t|);
    }
  }

  lemma WholeLineLoads(c: Codec, enc: CacheRow -> Json, row: CacheRow)
    requires PrintsObjects(c, enc) && ReadsJson(c)
    ensures LoadLine(c, c.line(row)) == [row] && |c.line(row)| > 0
  {
    assert PrintsRow(c, enc, row);
    LineShape(c, enc, row);
    TrimKeepsPrefix(c.line(row));
  }

  predicate NoBreak(s: string) { '\n' !in s }

  lemma {:induction false} TextHasNoBreak(s: string)
    ensures NoBreak(EscapeText(s))
  {
    if |s| > 0 {
      TextHasNoBreak(s[1..]);
      EscapeHasNoBreak(s[0]);
    }
  }

  lemma EscapeHasNoBreak(c: char)
    ensures NoBreak(EscapeJson(c))
  {
  }

  lemma {:induction false} ValueHasNoBreak(j: Json, e: nat)
    ensures NoBreak(Print(j, false, e))
    decreases j, 1
  {
    match j
    case Num(n) => NumberIsPlain(n);
    case Str(s) => TextHasNoBreak(s);
    case Arr(items) =>
      if |items| > 0 {
        ItemsHaveNoBreak(items, e + 1);
      }
    case Obj(fs) =>
      if |fs| > 0 {
        FieldsHaveNoBreak(fs, e + 1);
      }
    case _ =>
  }

  lemma {:induction false} ItemsHaveNoBreak(items: seq<Json>, e: nat)
    requires |items| > 0
    ensures NoBreak(PrintItems(items, false, e))
    decreases items, 0
  {
    ValueHasNoBreak(items[0], e);
    if |items| > 1 {
      ItemsHaveNoBreak(items[1..], e);
    }
  }

  lemma {:induction false} FieldsHaveNoBreak(fs: seq<Field>, e: nat)
    requires |fs| > 0
    ensures NoBreak(PrintFields(fs, false, e))
    decreases fs, 0
  {
    TextHasNoBreak(fs[0].key);
    ValueHasNoBreak(fs[0].value, e);
    assert NoBreak(PrintField(fs[0], false, e));
    if |fs| > 1 {
      FieldsHaveNoBreak(fs[1..], e);
    }
  }

  /** JSON lines are what the crash theorems need of a file format. */
  lemma JsonLinesAreSound(c: Codec, enc: CacheRow -> Json)
    requires PrintsObjects(c, enc) && ReadsJson(c)
    ensures Sound(c)
  {
    forall row: CacheRow ensures '\n' !in c.line(row) && |c.line(row)| > 0 && LoadLine(c, c.line(row)) == [row] {
      assert PrintsRow(c, enc, row);
      ValueHasNoBreak(enc(row), 0);
      WholeLineLoads(c, enc, row);
    }
    forall row: CacheRow, k: nat | k < |c.line(row)| ensures TornIsLost(c, row, k) {
      TornLineIsLost(c, enc, row, k);
    }
  }

  // ---- a line glued onto another text ----

  /** Once begun, an object's scan is never back at nesting zero without being over. */
  lemma {:induction false} NeverBackAtZero(st: Lex, s: string)
    requires st.Done? || st.Dead? || st.depth > 0
    ensures var r := Scan(st, s); r.Done? || r.Dead? || r.depth > 0
    decreases |s|
  {
    if |s| > 0 {
      NeverBackAtZero(ScanChar(st, s[0]), s[1..]);
    }
  }

  /** Inside a string, a new line's brace is text, its quote ends the string, and its first letter is out of place. */
  lemma InStringDies(d: nat, escaped: bool, line: string)
    requires |line| > 2 && line[0] == '{' && line[1] == '"' && Letter(line[2])
    ensures Scan(In(d, escaped), line) == Dead
  {
    assert line[1..][0] == '"' && line[1..][1..] == line[2..] && line[2..][1..] == line[3..];
    DeadStays(line[3..]);
    assert ScanChar(In(d, escaped), '{') == In(d, false) && ScanChar(In(d, false), '"') == Out(d, true);
    assert ScanChar(Out(d, true), line[2]) == Dead;
    assert Scan(Out(d, true), line[2..]) == Dead;
    assert Scan(In(d, false), line[1..]) == Dead;
  }

  lemma BetweenTokensStays(d: nat, after: bool, line: string)
    requires d > 0 && |line| > 2 && line[0] == '{' && Scan(Out(d, false), line) == Out(d, false)
    ensures Scan(Out(d, after), line) != Done
  {
    if after {
      DeadStays(line[1..]);
    }
  }

  lemma GluedScan(torn: string, line: string)
    requires |torn| > 0 && torn[0] == '{'
    requires |line| > 2 && line[0] == '{' && line[1] == '"' && Letter(line[2])
    requires forall d: nat | d > 0 :: Scan(Out(d, false), line) == Out(d, false)
    ensures Scan(START, torn + line) != Done
  {
    ScanConcat(START, torn, line);
    NeverBackAtZero(ScanChar(START, '{'), torn[1..]);
    match Scan(START, torn)
    case Done => DeadStays(line);
    case Dead => DeadStays(line);
    case In(d, escaped) => InStringDies(d, escaped, line);
    case Out(d, after) => BetweenTokensStays(d, after, line);
  }

  lemma {:induction false} TrimStartKeepsEnd(s: string)
    requires |s| > 0 && !IsSpace(s[|s| - 1])
    ensures |TrimStart(s)| > 0 && TrimStart(s)[|TrimStart(s)| - 1] == s[|s| - 1]
    ensures !IsSpace(TrimStart(s)[0]) && Trim(s) == TrimStart(s)
    decreases |s|
  {
    if IsSpace(s[0]) {
      assert |s| > 1 && s[1..][|s[1..]| - 1] == s[|s| - 1];
      TrimStartKeepsEnd(s[1..]);
    }
  }

  /** Trimming what stands in front of a line stops at its first character that is no blank. */
  lemma {:induction false} TrimmedGlue(tail: string, line: string) returns (rest: string)
    requires !Blank(tail) && |line| > 0 && !IsSpace(line[|line| - 1])
    ensures |rest| > 0 && Trim(tail + line) == rest + line && !IsSpace(rest[0])
    decreases |tail|
  {
    TrimStartKeepsEnd(tail + line);
    if IsSpace(tail[0]) {
      assert !Blank(tail[1..]) by {
        var i :| 0 <= i < |tail| && !IsSpace(tail[i]);
        assert tail[1..][i - 1] == tail[i];
      }
      rest := TrimmedGlue(tail[1..], line);
      assert (tail + line)[1..] == tail[1..] + line;
      TrimStartKeepsEnd(tail[1..] + line);
    } else {
      rest := tail;
    }
  }

  lemma GluedLineIsLost(c: Codec, enc: CacheRow -> Json, tail: string, row: CacheRow)
    requires PrintsObjects(c, enc) && ReadsJson(c) && !Blank(tail)
    ensures GluedIsLost(c, tail, row)
  {
    var line := c.line(row);
    assert PrintsRow(c, enc, row);
    LineShape(c, enc, row);
    var rest := TrimmedGlue(tail, line);
    var s := rest + line;
    assert s[0] == rest[0] && s[|s| - 1] == line[|line| - 1] == '}';
    if c.parse(s).Some? {
      assert AcceptedScans(s);
      GluedScan(rest, line);
    }
  }

  /** A line appended to anything but blanks is lost, whatever it is appended to. */
  lemma JsonLinesNeverGlue(c: Codec, enc: CacheRow -> Json)
    requires PrintsObjects(c, enc) && ReadsJson(c)
    ensures Unglued(c)
  {
    forall tail, row: CacheRow | !Blank(tail) ensures GluedIsLost(c, tail, row) {
      GluedLineIsLost(c, enc, tail, row);
    }
  }
}
