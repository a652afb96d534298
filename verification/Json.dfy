/** JSON trees, the texts the source prints for them, and why those texts identify a tree up to key order. */
module Json {
  import opened Wrappers
  import opened Decimal

  datatype Json =
    | Null
    | Bool(b: bool)
    | Num(n: int)
    | Str(s: string)
    | Arr(items: seq<Json>)
    | Obj(fields: seq<Field>)

  datatype Field = Field(key: string, value: Json)

  ghost predicate UniqueKeys(fs: seq<Field>) {
    forall i, j | 0 <= i < j < |fs| :: fs[i].key != fs[j].key
  }

  /** No object of the tree repeats a key, as no JavaScript object can. */
  ghost predicate Proper(j: Json) {
    match j
    case Arr(items) => forall i | 0 <= i < |items| :: Proper(items[i])
    case Obj(fs) => UniqueKeys(fs) && forall i | 0 <= i < |fs| :: Proper(fs[i].value)
    case _ => true
  }

  /** `obj[key]`. */
  function Get(fs: seq<Field>, key: string): (r: Option<Json>)
    ensures r.Some? <==> exists i :: 0 <= i < |fs| && fs[i].key == key
    ensures r.Some? ==> exists i :: 0 <= i < |fs| && fs[i] == Field(key, r.value)
  {
    if |fs| == 0 then None
    else if fs[0].key == key then
      assert fs[0] == Field(key, fs[0].value);
      Some(fs[0].value)
    else
      var r := Get(fs[1..], key);
      assert r.Some? ==> exists i :: 0 <= i < |fs[1..]| && fs[1..][i] == Field(key, r.value) && fs[i + 1] == fs[1..][i];
      assert forall i | 0 < i < |fs| :: fs[i] == fs[1..][i - 1];
      r
  }

  lemma GetField(fs: seq<Field>, i: nat)
    requires i < |fs| && UniqueKeys(fs)
    ensures Get(fs, fs[i].key) == Some(fs[i].value)
  {
    var r := Get(fs, fs[i].key);
    var k :| 0 <= k < |fs| && fs[k] == Field(fs[i].key, r.value);
    assert k == i;
  }

  /** `j[key]` on a value that may not be an object. */
  function Prop(j: Json, key: string): Option<Json> {
    if j.Obj? then Get(j.fields, key) else None
  }

  function StrProp(j: Json, key: string): Option<string> {
    match Prop(j, key)
    case Some(Str(s)) => Some(s)
    case _ => None
  }

  /** An object literal whose absent properties are left out. */
  function Present(pairs: seq<(string, Option<Json>)>): seq<Field> {
    if |pairs| == 0 then []
    else (if pairs[0].1.Some? then [Field(pairs[0].0, pairs[0].1.value)] else []) + Present(pairs[1..])
  }

  lemma {:induction false} PresentGet(pairs: seq<(string, Option<Json>)>, i: nat)
    requires i < |pairs| && forall a, b | 0 <= a < b < |pairs| :: pairs[a].0 != pairs[b].0
    ensures Get(Present(pairs), pairs[i].0) == pairs[i].1
  {
    if i > 0 {
      PresentGet(pairs[1..], i - 1);
      assert pairs[0].1.Some? ==> Present(pairs)[1..] == Present(pairs[1..]);
      assert pairs[0].1.None? ==> Present(pairs) == Present(pairs[1..]);
    } else {
      PresentAbsent(pairs[1..], pairs[0].0);
      assert pairs[0].1.None? ==> Present(pairs) == Present(pairs[1..]);
    }
  }

  lemma {:induction false} PresentAbsent(pairs: seq<(string, Option<Json>)>, key: string)
    requires forall a | 0 <= a < |pairs| :: pairs[a].0 != key
    ensures Get(Present(pairs), key) == None
  {
    if |pairs| > 0 {
      PresentAbsent(pairs[1..], key);
      assert pairs[0].1.Some? ==> Present(pairs)[1..] == Present(pairs[1..]);
      assert pairs[0].1.None? ==> Present(pairs) == Present(pairs[1..]);
    }
  }

  // ---- strings ----

  lemma Cut(h: string, x: string, y: string)
    requires h + x == h + y
    ensures x == y
  {
    assert (h + x)[|h|..] == x && (h + y)[|h|..] == y;
  }

  lemma Regroup(a: string, b: string, c: string)
    ensures (a + b) + c == a + (b + c)
  {
  }

  function HexDigit(n: nat): char
    requires n < 16
  {
    "0123456789abcdef"[n]
  }

  /** Section 7 of RFC 8259, as JSON.stringify chooses among the escapes it allows. */
  function EscapeJson(c: char): (r: string)
    ensures |r| > 0 && r[0] != '"'
  {
    if c == '"' then "\\\""
    else if c == '\\' then "\\\\"
    else if c as int == 8 then "\\b"
    else if c as int == 9 then "\\t"
    else if c as int == 10 then "\\n"
    else if c as int == 12 then "\\f"
    else if c as int == 13 then "\\r"
    else if (c as int) < 32 then "\\u00" + [HexDigit(c as int / 16), HexDigit(c as int % 16)]
    else [c]
  }

  function EscapeText(s: string): string {
    if |s| == 0 then "" else EscapeJson(s[0]) + EscapeText(s[1..])
  }

  function Quote(s: string): string {
    "\"" + EscapeText(s) + "\""
  }

  lemma EscapeDecodes(c: char, d: char, u: string, v: string)
    requires EscapeJson(c) + u == EscapeJson(d) + v
    ensures c == d && u == v
  {
    var s, e, f := EscapeJson(c) + u, EscapeJson(c), EscapeJson(d);
    assert s[0] == e[0] == f[0];
    if e[0] != '\\' {
      assert c == d;
    } else {
      assert s[1] == e[1] == f[1];
      if e[1] == 'u' {
        assert s[4] == e[4] == f[4] && s[5] == e[5] == f[5];
        HexInjective(c as int / 16, d as int / 16);
        HexInjective(c as int % 16, d as int % 16);
      }
    }
    assert s[|e|..] == u && s[|f|..] == v;
  }

  lemma HexInjective(m: nat, n: nat)
    requires m < 16 && n < 16
    ensures HexDigit(m) == HexDigit(n) ==> m == n
  {
  }

  lemma {:induction false} TextDecodes(s: string, t: string, x: string, y: string)
    requires EscapeText(s) + "\"" + x == EscapeText(t) + "\"" + y
    ensures s == t && x == y
  {
    if |s| > 0 && |t| > 0 {
      var u, v := EscapeText(s[1..]) + "\"" + x, EscapeText(t[1..]) + "\"" + y;
      OneEscape(s, x);
      OneEscape(t, y);
      EscapeDecodes(s[0], t[0], u, v);
      TextDecodes(s[1..], t[1..], x, y);
      assert s == [s[0]] + s[1..] && t == [t[0]] + t[1..];
    } else {
      ClosingQuote(s, x);
      ClosingQuote(t, y);
    }
  }

  lemma OneEscape(s: string, x: string)
    requires |s| > 0
    ensures EscapeText(s) + "\"" + x == EscapeJson(s[0]) + (EscapeText(s[1..]) + "\"" + x)
  {
    Regroup(EscapeJson(s[0]), EscapeText(s[1..]), "\"");
    Regroup(EscapeJson(s[0]), EscapeText(s[1..]) + "\"", x);
  }

  /** A quote right away means the text was empty. */
  lemma ClosingQuote(s: string, x: string)
    ensures var t := EscapeText(s) + "\"" + x; t[0] == '"' <==> |s| == 0
    ensures |s| == 0 ==> (EscapeText(s) + "\"" + x)[1..] == x
  {
    if |s| > 0 {
      assert (EscapeText(s) + "\"" + x)[0] == EscapeJson(s[0])[0];
    }
  }

  lemma QuoteDecodes(s: string, t: string, x: string, y: string)
    requires Quote(s) + x == Quote(t) + y
    ensures s == t && x == y
  {
    assert (Quote(s) + x)[1..] == EscapeText(s) + "\"" + x;
    assert (Quote(t) + y)[1..] == EscapeText(t) + "\"" + y;
    TextDecodes(s, t, x, y);
  }

  // ---- printing ----

  function Spaces(n: nat): string {
    if n == 0 then "" else " " + Spaces(n - 1)
  }

  /** The line break and indent before an element at nesting `d`; nothing in the compact form. */
  function Break(pretty: bool, d: nat): string {
    if pretty then "\n" + Spaces(2 * d) else ""
  }

  function Colon(pretty: bool): string {
    if pretty then ": " else ":"
  }

  /** `JSON.stringify(j)`, or `JSON.stringify(j, null, 2)` when `pretty`. */
  function Print(j: Json, pretty: bool, d: nat): string
    decreases j, 1
  {
    match j
    case Null => "null"
    case Bool(b) => if b then "true" else "false"
    case Num(n) => IntText(n)
    case Str(s) => Quote(s)
    case Arr(items) =>
      if |items| == 0 then "[]"
      else "[" + (Break(pretty, d + 1) + (PrintItems(items, pretty, d + 1) + (Break(pretty, d) + "]")))
    case Obj(fs) =>
      if |fs| == 0 then "{}"
      else "{" + (Break(pretty, d + 1) + (PrintFields(fs, pretty, d + 1) + (Break(pretty, d) + "}")))
  }

  function PrintItems(items: seq<Json>, pretty: bool, d: nat): string
    requires |items| > 0
    decreases items, 0
  {
    Print(items[0], pretty, d)
    + (if |items| == 1 then "" else "," + (Break(pretty, d) + PrintItems(items[1..], pretty, d)))
  }

  function PrintField(f: Field, pretty: bool, d: nat): string
    decreases f, 2
  {
    Quote(f.key) + (Colon(pretty) + Print(f.value, pretty, d))
  }

  function PrintFields(fs: seq<Field>, pretty: bool, d: nat): string
    requires |fs| > 0
    decreases fs, 0
  {
    PrintField(fs[0], pretty, d)
    + (if |fs| == 1 then "" else "," + (Break(pretty, d) + PrintFields(fs[1..], pretty, d)))
  }

  // ---- the printed text determines the tree ----

  lemma Regroup3(h: string, b: string, p: string, x: string)
    ensures (h + (b + p)) + x == (h + b) + (p + x)
  {
  }

  lemma Shape(h: string, i: string, p: string, o: string, x: string)
    ensures (h + (i + (p + o))) + x == (h + i) + (p + (o + x))
  {
  }

  lemma Shape2(h: string, c: string, p: string, x: string)
    ensures (h + (c + p)) + x == h + (c + (p + x))
  {
  }

  /** What a value's first character says about it. */
  function Kind(c: char): nat {
    if c == 'n' then 0 else if c == 't' then 1 else if c == 'f' then 2 else if c == '"' then 3
    else if c == '[' then 4 else if c == '{' then 5 else 6
  }

  lemma FirstChar(j: Json, pretty: bool, d: nat)
    ensures |Print(j, pretty, d)| > 0
    ensures Kind(Print(j, pretty, d)[0]) == match j
      case Null => 0
      case Bool(b) => if b then 1 else 2
      case Num(n) => 6
      case Str(_) => 3
      case Arr(_) => 4
      case Obj(_) => 5
  {
    if j.Num? {
      assert IntText(j.n)[0] == '-' || IsDigit(IntText(j.n)[0]);
    }
  }

  /** What may follow a complete value inside a container: a comma or its end, never a digit. */
  predicate Closes(x: string) {
    |x| > 0 && (x[0] == ']' || x[0] == '}' || x[0] == '\n')
  }

  lemma {:induction false} PrintDecodes(a: Json, b: Json, pretty: bool, d: nat, x: string, y: string)
    requires Stop(x) && Stop(y) && Print(a, pretty, d) + x == Print(b, pretty, d) + y
    ensures a == b && x == y
    decreases a, 1
  {
    FirstChar(a, pretty, d);
    FirstChar(b, pretty, d);
    assert (Print(a, pretty, d) + x)[0] == Print(a, pretty, d)[0];
    assert (Print(b, pretty, d) + y)[0] == Print(b, pretty, d)[0];
    match a
    case Null => Cut("null", x, y);
    case Bool(v) => Cut(if v then "true" else "false", x, y);
    case Num(n) => IntTextEnds(a.n, b.n, x, y);
    case Str(s) => QuoteDecodes(a.s, b.s, x, y);
    case Arr(items) => ArrayDecodes(items, b.items, pretty, d, x, y);
    case Obj(fs) => ObjectDecodes(fs, b.fields, pretty, d, x, y);
  }

  lemma {:induction false} ArrayDecodes(js: seq<Json>, ks: seq<Json>, pretty: bool, d: nat, x: string, y: string)
    requires Print(Arr(js), pretty, d) + x == Print(Arr(ks), pretty, d) + y
    ensures js == ks && x == y
    decreases js, 2
  {
    var s, t := Print(Arr(js), pretty, d) + x, Print(Arr(ks), pretty, d) + y;
    if |js| == 0 || |ks| == 0 {
      EmptyArray(js, pretty, d, x);
      EmptyArray(ks, pretty, d, y);
      Cut("[]", x, y);
    } else {
      var tail := Break(pretty, d) + "]";
      ArrayShape(js, pretty, d, x);
      ArrayShape(ks, pretty, d, y);
      Cut("[" + Break(pretty, d + 1), PrintItems(js, pretty, d + 1) + (tail + x), PrintItems(ks, pretty, d + 1) + (tail + y));
      ItemsDecode(js, ks, pretty, d + 1, tail + x, tail + y);
      Cut(tail, x, y);
    }
  }

  lemma ArrayShape(js: seq<Json>, pretty: bool, d: nat, x: string)
    requires |js| > 0
    ensures Print(Arr(js), pretty, d) + x
      == ("[" + Break(pretty, d + 1)) + (PrintItems(js, pretty, d + 1) + ((Break(pretty, d) + "]") + x))
  {
    Shape("[", Break(pretty, d + 1), PrintItems(js, pretty, d + 1), Break(pretty, d) + "]", x);
  }

  lemma EmptyArray(js: seq<Json>, pretty: bool, d: nat, x: string)
    ensures |js| == 0 ==> Print(Arr(js), pretty, d) + x == "[]" + x
    ensures |js| > 0 ==> (Print(Arr(js), pretty, d) + x)[1] != ']'
  {
    if |js| > 0 {
      ArrayShape(js, pretty, d, x);
      FirstChar(js[0], pretty, d + 1);
      assert PrintItems(js, pretty, d + 1)[0] == Print(js[0], pretty, d + 1)[0];
      assert Kind(']') == 6 && !pretty ==> Break(pretty, d + 1) == "";
      if js[0].Num? {
        assert IntText(js[0].n)[0] == '-' || IsDigit(IntText(js[0].n)[0]);
      }
    }
  }

  lemma {:induction false} ItemsDecode(js: seq<Json>, ks: seq<Json>, pretty: bool, d: nat, x: string, y: string)
    requires |js| > 0 && |ks| > 0 && Closes(x) && Closes(y)
    requires PrintItems(js, pretty, d) + x == PrintItems(ks, pretty, d) + y
    ensures js == ks && x == y
    decreases js, 1
  {
    var ra := if |js| == 1 then "" else "," + (Break(pretty, d) + PrintItems(js[1..], pretty, d));
    var rb := if |ks| == 1 then "" else "," + (Break(pretty, d) + PrintItems(ks[1..], pretty, d));
    Regroup(Print(js[0], pretty, d), ra, x);
    Regroup(Print(ks[0], pretty, d), rb, y);
    assert (ra + x)[0] == (if |js| == 1 then x[0] else ',');
    assert (rb + y)[0] == (if |ks| == 1 then y[0] else ',');
    PrintDecodes(js[0], ks[0], pretty, d, ra + x, rb + y);
    assert js == [js[0]] + js[1..] && ks == [ks[0]] + ks[1..];
    if |js| == 1 {
      assert ra + x == x && rb + y == y;
    } else {
      MoreItems(js, ks, pretty, d, x, y);
      ItemsDecode(js[1..], ks[1..], pretty, d, x, y);
    }
  }

  lemma MoreItems(js: seq<Json>, ks: seq<Json>, pretty: bool, d: nat, x: string, y: string)
    requires |js| > 1 && |ks| > 1
    requires ("," + (Break(pretty, d) + PrintItems(js[1..], pretty, d))) + x
      == ("," + (Break(pretty, d) + PrintItems(ks[1..], pretty, d))) + y
    ensures PrintItems(js[1..], pretty, d) + x == PrintItems(ks[1..], pretty, d) + y
  {
    var p, q := PrintItems(js[1..], pretty, d), PrintItems(ks[1..], pretty, d);
    Regroup3(",", Break(pretty, d), p, x);
    Regroup3(",", Break(pretty, d), q, y);
    Cut("," + Break(pretty, d), p + x, q + y);
  }

  lemma {:induction false} ObjectDecodes(js: seq<Field>, ks: seq<Field>, pretty: bool, d: nat, x: string, y: string)
    requires Print(Obj(js), pretty, d) + x == Print(Obj(ks), pretty, d) + y
    ensures js == ks && x == y
    decreases js, 2
  {
    if |js| == 0 || |ks| == 0 {
      EmptyObject(js, pretty, d, x);
      EmptyObject(ks, pretty, d, y);
      Cut("{}", x, y);
    } else {
      var tail := Break(pretty, d) + "}";
      ObjectShape(js, pretty, d, x);
      ObjectShape(ks, pretty, d, y);
      Cut("{" + Break(pretty, d + 1), PrintFields(js, pretty, d + 1) + (tail + x), PrintFields(ks, pretty, d + 1) + (tail + y));
      FieldsDecode(js, ks, pretty, d + 1, tail + x, tail + y);
      Cut(tail, x, y);
    }
  }

  lemma ObjectShape(js: seq<Field>, pretty: bool, d: nat, x: string)
    requires |js| > 0
    ensures Print(Obj(js), pretty, d) + x
      == ("{" + Break(pretty, d + 1)) + (PrintFields(js, pretty, d + 1) + ((Break(pretty, d) + "}") + x))
  {
    Shape("{", Break(pretty, d + 1), PrintFields(js, pretty, d + 1), Break(pretty, d) + "}", x);
  }

  lemma EmptyObject(js: seq<Field>, pretty: bool, d: nat, x: string)
    ensures |js| == 0 ==> Print(Obj(js), pretty, d) + x == "{}" + x
    ensures |js| > 0 ==> (Print(Obj(js), pretty, d) + x)[1] != '}'
  {
    if |js| > 0 {
      ObjectShape(js, pretty, d, x);
      assert PrintFields(js, pretty, d + 1)[0] == PrintField(js[0], pretty, d + 1)[0] == '"';
    }
  }

  lemma {:induction false} FieldsDecode(js: seq<Field>, ks: seq<Field>, pretty: bool, d: nat, x: string, y: string)
    requires |js| > 0 && |ks| > 0 && Closes(x) && Closes(y)
    requires PrintFields(js, pretty, d) + x == PrintFields(ks, pretty, d) + y
    ensures js == ks && x == y
    decreases js, 1
  {
    var ra := if |js| == 1 then "" else "," + (Break(pretty, d) + PrintFields(js[1..], pretty, d));
    var rb := if |ks| == 1 then "" else "," + (Break(pretty, d) + PrintFields(ks[1..], pretty, d));
    Regroup(PrintField(js[0], pretty, d), ra, x);
    Regroup(PrintField(ks[0], pretty, d), rb, y);
    assert (ra + x)[0] == (if |js| == 1 then x[0] else ',');
    assert (rb + y)[0] == (if |ks| == 1 then y[0] else ',');
    FieldDecodes(js[0], ks[0], pretty, d, ra + x, rb + y);
    assert js == [js[0]] + js[1..] && ks == [ks[0]] + ks[1..];
    if |js| == 1 {
      assert ra + x == x && rb + y == y;
    } else {
      MoreFields(js, ks, pretty, d, x, y);
      FieldsDecode(js[1..], ks[1..], pretty, d, x, y);
    }
  }

  lemma MoreFields(js: seq<Field>, ks: seq<Field>, pretty: bool, d: nat, x: string, y: string)
    requires |js| > 1 && |ks| > 1
    requires ("," + (Break(pretty, d) + PrintFields(js[1..], pretty, d))) + x
      == ("," + (Break(pretty, d) + PrintFields(ks[1..], pretty, d))) + y
    ensures PrintFields(js[1..], pretty, d) + x == PrintFields(ks[1..], pretty, d) + y
  {
    var p, q := PrintFields(js[1..], pretty, d), PrintFields(ks[1..], pretty, d);
    Regroup3(",", Break(pretty, d), p, x);
    Regroup3(",", Break(pretty, d), q, y);
    Cut("," + Break(pretty, d), p + x, q + y);
  }

  lemma {:induction false} FieldDecodes(f: Field, g: Field, pretty: bool, d: nat, x: string, y: string)
    requires Stop(x) && Stop(y) && PrintField(f, pretty, d) + x == PrintField(g, pretty, d) + y
    ensures f == g && x == y
    decreases f, 0
  {
    var c, p, q := Colon(pretty), Print(f.value, pretty, d), Print(g.value, pretty, d);
    Shape2(Quote(f.key), c, p, x);
    Shape2(Quote(g.key), c, q, y);
    QuoteDecodes(f.key, g.key, c + (p + x), c + (q + y));
    Cut(c, p + x, q + y);
    PrintDecodes(f.value, g.value, pretty, d, x, y);
  }

  /** Printing is injective. */
  lemma PrintInjective(a: Json, b: Json, pretty: bool, d: nat)
    ensures Print(a, pretty, d) == Print(b, pretty, d) <==> a == b
  {
    if Print(a, pretty, d) == Print(b, pretty, d) {
      assert Print(a, pretty, d) + "" == Print(b, pretty, d) + "";
      PrintDecodes(a, b, pretty, d, "", "");
    }
  }
}
