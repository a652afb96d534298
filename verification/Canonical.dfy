/**
 * Canonical JSON: trees equal up to key order, the three texts that stand for that equality
 * (`stableStringify`, `canonicalJson` and an empty `diffFingerprints`), and the assertion comparison built on it.
 */
module Canonical {
  import opened Wrappers
  import opened Decimal
  import opened Json
  import opened Order
  import opened Text

  /** Equal up to the order of object keys. */
  ghost predicate Same(a: Json, b: Json)
    decreases a
  {
    match (a, b)
    case (Arr(x), Arr(y)) => |x| == |y| && forall i | 0 <= i < |x| :: Same(x[i], y[i])
    case (Obj(x), Obj(y)) =>
      && (forall i | 0 <= i < |x| :: Get(y, x[i].key).Some? && Same(x[i].value, Get(y, x[i].key).value))
      && (forall i | 0 <= i < |y| :: Get(x, y[i].key).Some?)
    case _ => a == b
  }

  // ---- the printed text, in full ----

  /** The line break and the indent of two blanks a level; nothing when the text is compact. */
  function Gap(pretty: bool, d: nat): string {
    if pretty then ['\n'] + seq(2 * d, i => ' ') else []
  }

  lemma {:induction false} SpacesAre(n: nat)
    ensures Spaces(n) == seq(n, i => ' ')
  {
    if n > 0 {
      SpacesAre(n - 1);
    }
  }

  lemma GapIsBreak(pretty: bool, d: nat)
    ensures Break(pretty, d) == Gap(pretty, d)
  {
    SpacesAre(2 * d);
    assert pretty ==> Break(pretty, d) == ['\n'] + seq(2 * d, i => ' ');
  }

  function ItemTexts(items: seq<Json>, pretty: bool, d: nat): (r: seq<string>)
    ensures |r| == |items| && forall i | 0 <= i < |items| :: r[i] == Print(items[i], pretty, d)
  {
    seq(|items|, i requires 0 <= i < |items| => Print(items[i], pretty, d))
  }

  function FieldTexts(fs: seq<Field>, pretty: bool, d: nat): (r: seq<string>)
    ensures |r| == |fs|
    ensures forall i | 0 <= i < |fs| :: r[i] == Quote(fs[i].key) + (if pretty then ": " else ":") + Print(fs[i].value, pretty, d)
  {
    seq(|fs|, i requires 0 <= i < |fs| => Quote(fs[i].key) + (if pretty then ": " else ":") + Print(fs[i].value, pretty, d))
  }

  lemma {:induction false} ItemsAreJoined(items: seq<Json>, pretty: bool, d: nat)
    requires |items| > 0
    ensures PrintItems(items, pretty, d) == Join(ItemTexts(items, pretty, d), "," + Gap(pretty, d))
    decreases |items|
  {
    GapIsBreak(pretty, d);
    if |items| > 1 {
      ItemsAreJoined(items[1..], pretty, d);
      assert ItemTexts(items, pretty, d)[1..] == ItemTexts(items[1..], pretty, d);
      JoinMore(Print(items[0], pretty, d), Gap(pretty, d), PrintItems(items[1..], pretty, d));
    }
  }

  lemma JoinMore(first: string, gap: string, rest: string)
    ensures first + ("," + (gap + rest)) == first + ("," + gap) + rest
  {
  }

  lemma FieldIs(f: Field, pretty: bool, d: nat)
    ensures PrintField(f, pretty, d) == Quote(f.key) + (if pretty then ": " else ":") + Print(f.value, pretty, d)
  {
    Regroup(Quote(f.key), Colon(pretty), Print(f.value, pretty, d));
  }

  lemma {:induction false} FieldsAreJoined(fs: seq<Field>, pretty: bool, d: nat)
    requires |fs| > 0
    ensures PrintFields(fs, pretty, d) == Join(FieldTexts(fs, pretty, d), "," + Gap(pretty, d))
    decreases |fs|
  {
    GapIsBreak(pretty, d);
    FieldIs(fs[0], pretty, d);
    if |fs| > 1 {
      FieldsAreJoined(fs[1..], pretty, d);
      assert FieldTexts(fs, pretty, d)[1..] == FieldTexts(fs[1..], pretty, d);
      JoinMore(PrintField(fs[0], pretty, d), Gap(pretty, d), PrintFields(fs[1..], pretty, d));
    }
  }

  lemma Bracketed(open: string, gap: string, inner: string, out: string, close: string)
    ensures open + (gap + (inner + (out + close))) == open + gap + inner + out + close
  {
  }

  /** Every value's text, level by level: what JSON.stringify writes, compact or indented by two. */
  lemma PrintSays(j: Json, pretty: bool, d: nat)
    ensures Print(j, pretty, d) == match j
      case Null => "null"
      case Bool(b) => if b then "true" else "false"
      case Num(n) => IntText(n)
      case Str(s) => Quote(s)
      case Arr(items) =>
        if items == [] then "[]"
        else "[" + Gap(pretty, d + 1) + Join(ItemTexts(items, pretty, d + 1), "," + Gap(pretty, d + 1)) + Gap(pretty, d) + "]"
      case Obj(fs) =>
        if fs == [] then "{}"
        else "{" + Gap(pretty, d + 1) + Join(FieldTexts(fs, pretty, d + 1), "," + Gap(pretty, d + 1)) + Gap(pretty, d) + "}"
  {
    GapIsBreak(pretty, d);
    GapIsBreak(pretty, d + 1);
    match j
    case Arr(items) =>
      if |items| > 0 {
        ItemsAreJoined(items, pretty, d + 1);
        Bracketed("[", Gap(pretty, d + 1), PrintItems(items, pretty, d + 1), Gap(pretty, d), "]");
      }
    case Obj(fs) =>
      if |fs| > 0 {
        FieldsAreJoined(fs, pretty, d + 1);
        Bracketed("{", Gap(pretty, d + 1), PrintFields(fs, pretty, d + 1), Gap(pretty, d), "}");
      }
    case _ =>
  }

  function HexValue(c: char): int {
    if '0' <= c <= '9' then c as int - 48 else if 'a' <= c <= 'f' then c as int - 87 else -1
  }

  /** A quoted text character by character: two are escaped by a backslash, five control codes by a letter, the others by number. */
  lemma EscapeSays(c: char)
    ensures var e, n := EscapeJson(c), c as int;
      if n >= 32 then e == (if c == '"' || c == '\\' then ['\\', c] else [c])
      else
        && |e| >= 2 && e[0] == '\\'
        && (n == 8 ==> e[1..] == "b") && (n == 9 ==> e[1..] == "t") && (n == 10 ==> e[1..] == "n")
        && (n == 12 ==> e[1..] == "f") && (n == 13 ==> e[1..] == "r")
        && (n !in {8, 9, 10, 12, 13} ==>
              |e| == 6 && e[1..4] == "u00" && HexValue(e[4]) >= 0 && HexValue(e[5]) >= 0 && 16 * HexValue(e[4]) + HexValue(e[5]) == n)
  {
    if c as int < 32 {
      var n: nat := c as int;
      HexDigitValue(n / 16);
      HexDigitValue(n % 16);
    }
  }

  lemma HexDigitValue(n: nat)
    requires n < 16
    ensures HexValue(HexDigit(n)) == n
  {
  }

  predicate KeyLe(f: Field, g: Field) { StrLe(f.key, g.key) }

  predicate PairLe(f: (string, string), g: (string, string)) { StrLe(f.0, g.0) }

  // ---- canonicalize ----

  function Canon(j: Json): Json
    decreases j, 1
  {
    match j
    case Arr(items) => Arr(CanonItems(items))
    case Obj(fs) => Obj(SortBy(CanonFields(fs), KeyLe))
    case _ => j
  }

  function CanonItems(items: seq<Json>): (r: seq<Json>)
    ensures |r| == |items| && forall i | 0 <= i < |items| :: r[i] == Canon(items[i])
    decreases items, 0
  {
    if |items| == 0 then [] else [Canon(items[0])] + CanonItems(items[1..])
  }

  function CanonFields(fs: seq<Field>): (r: seq<Field>)
    ensures |r| == |fs| && forall i | 0 <= i < |fs| :: r[i] == Field(fs[i].key, Canon(fs[i].value))
    decreases fs, 0
  {
    if |fs| == 0 then [] else [Field(fs[0].key, Canon(fs[0].value))] + CanonFields(fs[1..])
  }

  ghost function AllFields(): iset<Field> { iset f: Field | |f.key| >= 0 }

  ghost function FieldsIn(fs: seq<Field>): iset<Field> { iset f | f in fs }

  lemma KeysAreTotal()
    ensures TotalOn(AllFields(), KeyLe)
    ensures forall a: Field, b: Field | KeyLe(a, b) && KeyLe(b, a) :: a.key == b.key
  {
    StringsAreOrdered();
    forall a: Field, b: Field ensures (KeyLe(a, b) || KeyLe(b, a)) && (KeyLe(a, b) && KeyLe(b, a) ==> a.key == b.key) {
      assert a.key in AllStrings() && b.key in AllStrings();
    }
    forall a: Field, b: Field, c: Field | KeyLe(a, b) && KeyLe(b, c) ensures KeyLe(a, c) {
      assert a.key in AllStrings() && b.key in AllStrings() && c.key in AllStrings();
    }
  }

  lemma UniqueKeysAreStrict(fs: seq<Field>)
    requires UniqueKeys(fs)
    ensures StrictOn(FieldsIn(fs), KeyLe) && TotalOn(FieldsIn(fs), KeyLe) && Distinct(fs)
  {
    KeysAreTotal();
    forall f, g | f in fs && g in fs && KeyLe(f, g) && KeyLe(g, f) ensures f == g {
      assert f.key == g.key;
    }
  }

  lemma FieldsOfSame(x: seq<Field>, y: seq<Field>)
    requires Proper(Obj(x)) && Proper(Obj(y))
    requires forall f :: f in CanonFields(x) <==> f in CanonFields(y)
    ensures Canon(Obj(x)) == Canon(Obj(y))
  {
    var cx, cy := CanonFields(x), CanonFields(y);
    assert UniqueKeys(cx) && UniqueKeys(cy);
    UniqueKeysAreStrict(cx);
    UniqueKeysAreStrict(cy);
    DistinctRearrangement(cx, cy);
    SortCanonical(cx, cy, KeyLe, FieldsIn(cx));
  }

  lemma {:induction false} SameImpliesCanon(a: Json, b: Json)
    requires Proper(a) && Proper(b) && Same(a, b)
    ensures Canon(a) == Canon(b)
    decreases a
  {
    match (a, b)
    case (Arr(x), Arr(y)) =>
      forall i | 0 <= i < |x| ensures Canon(x[i]) == Canon(y[i]) {
        SameImpliesCanon(x[i], y[i]);
      }
      assert CanonItems(x) == CanonItems(y);
    case (Obj(x), Obj(y)) =>
      var cx, cy := CanonFields(x), CanonFields(y);
      forall i | 0 <= i < |x| ensures cx[i] in cy {
        var k := IndexOfKey(y, x[i].key);
        SameImpliesCanon(x[i].value, y[k].value);
        assert cy[k] == cx[i];
      }
      forall k | 0 <= k < |y| ensures cy[k] in cx {
        var i := IndexOfKey(x, y[k].key);
        assert Get(y, x[i].key) == Some(y[k].value) by { GetField(y, k); }
        SameImpliesCanon(x[i].value, y[k].value);
        assert cx[i] == cy[k];
      }
      FieldsOfSame(x, y);
    case _ =>
  }

  lemma IndexOfKey(fs: seq<Field>, key: string) returns (k: nat)
    requires Get(fs, key).Some?
    ensures k < |fs| && fs[k] == Field(key, Get(fs, key).value)
  {
    k :| 0 <= k < |fs| && fs[k] == Field(key, Get(fs, key).value);
  }

  lemma SortedFieldsAgree(x: seq<Field>, y: seq<Field>)
    requires SortBy(CanonFields(x), KeyLe) == SortBy(CanonFields(y), KeyLe)
    ensures forall f :: f in CanonFields(x) <==> f in CanonFields(y)
  {
    SortElements(CanonFields(x), KeyLe);
    SortElements(CanonFields(y), KeyLe);
    SameMembers(CanonFields(x), CanonFields(y));
  }

  lemma {:induction false} CanonImpliesSame(a: Json, b: Json)
    requires Proper(a) && Proper(b) && Canon(a) == Canon(b)
    ensures Same(a, b)
    decreases a
  {
    match (a, b)
    case (Arr(x), Arr(y)) =>
      assert CanonItems(x) == CanonItems(y);
      forall i | 0 <= i < |x| ensures Same(x[i], y[i]) {
        assert CanonItems(x)[i] == CanonItems(y)[i];
        CanonImpliesSame(x[i], y[i]);
      }
    case (Obj(x), Obj(y)) =>
      var cx, cy := CanonFields(x), CanonFields(y);
      SortedFieldsAgree(x, y);
      forall i | 0 <= i < |x| ensures Get(y, x[i].key).Some? && Same(x[i].value, Get(y, x[i].key).value) {
        assert cx[i] in cy;
        var k :| 0 <= k < |cy| && cy[k] == cx[i];
        GetField(y, k);
        CanonImpliesSame(x[i].value, y[k].value);
      }
      forall k | 0 <= k < |y| ensures Get(x, y[k].key).Some? {
        assert cy[k] in cx;
        var i :| 0 <= i < |cx| && cx[i] == cy[k];
        GetField(x, i);
      }
    case _ =>
  }

  /** Canonical trees are equal exactly when the originals are equal up to key order. */
  lemma CanonIffSame(a: Json, b: Json)
    requires Proper(a) && Proper(b)
    ensures Canon(a) == Canon(b) <==> Same(a, b)
  {
    if Canon(a) == Canon(b) {
      CanonImpliesSame(a, b);
    }
    if Same(a, b) {
      SameImpliesCanon(a, b);
    }
  }

  lemma SortedCanonFields(fs: seq<Field>)
    ensures var s := SortBy(CanonFields(fs), KeyLe);
      Sorted(s, KeyLe) && forall f | f in s :: exists i :: 0 <= i < |fs| && f == Field(fs[i].key, Canon(fs[i].value))
  {
    KeysAreTotal();
    var cf := CanonFields(fs);
    SortSorts(cf, KeyLe, AllFields());
    SortElements(cf, KeyLe);
    SameMembers(SortBy(cf, KeyLe), cf);
    forall f | f in SortBy(cf, KeyLe) ensures exists i :: 0 <= i < |fs| && f == Field(fs[i].key, Canon(fs[i].value)) {
      assert f in cf;
      var i :| 0 <= i < |cf| && cf[i] == f;
      assert f == Field(fs[i].key, Canon(fs[i].value));
    }
  }

  lemma {:induction false} CanonIdempotent(j: Json)
    ensures Canon(Canon(j)) == Canon(j)
    decreases j
  {
    match j
    case Arr(items) =>
      forall i | 0 <= i < |items| ensures Canon(Canon(items[i])) == Canon(items[i]) {
        CanonIdempotent(items[i]);
      }
      assert CanonItems(CanonItems(items)) == CanonItems(items);
    case Obj(fs) =>
      var s := SortBy(CanonFields(fs), KeyLe);
      SortedCanonFields(fs);
      forall k | 0 <= k < |s| ensures Canon(s[k].value) == s[k].value {
        assert s[k] in s;
        var i :| 0 <= i < |fs| && s[k] == Field(fs[i].key, Canon(fs[i].value));
        CanonIdempotent(fs[i].value);
      }
      assert CanonFields(s) == s;
      SortFixed(s, KeyLe);
    case _ =>
  }

  lemma {:induction false} CanonProper(j: Json)
    requires Proper(j)
    ensures Proper(Canon(j))
    decreases j
  {
    match j
    case Arr(items) =>
      forall i | 0 <= i < |items| ensures Proper(Canon(items[i])) {
        CanonProper(items[i]);
      }
    case Obj(fs) =>
      var cf, s := CanonFields(fs), SortBy(CanonFields(fs), KeyLe);
      SortedCanonFields(fs);
      SortElements(cf, KeyLe);
      SameMembers(s, cf);
      assert UniqueKeys(cf);
      SortedUniqueKeys(cf, s);
      forall k | 0 <= k < |s| ensures Proper(s[k].value) {
        assert s[k] in s;
        var i :| 0 <= i < |fs| && s[k] == Field(fs[i].key, Canon(fs[i].value));
        CanonProper(fs[i].value);
      }
    case _ =>
  }

  lemma SortedUniqueKeys(a: seq<Field>, b: seq<Field>)
    requires UniqueKeys(a) && multiset(a) == multiset(b)
    ensures UniqueKeys(b)
  {
    SameMembers(a, b);
    assert Distinct(a);
    DistinctStays(a, b);
    forall i, j | 0 <= i < j < |b| ensures b[i].key != b[j].key {
      assert b[i] in a && b[j] in a && b[i] != b[j];
    }
  }

  // ---- stableStringify ----

  /** The text of an object is assembled from its keys in sorted order. */
  function StableStringify(j: Json): string
    decreases j, 1
  {
    match j
    case Arr(items) => if |items| == 0 then "[]" else "[" + (StableItems(items) + "]")
    case Obj(fs) => if |fs| == 0 then "{}" else "{" + (JoinPairs(SortBy(StablePairs(fs), PairLe)) + "}")
    case _ => Print(j, false, 0)
  }

  function StableItems(items: seq<Json>): string
    requires |items| > 0
    decreases items, 0
  {
    StableStringify(items[0]) + (if |items| == 1 then "" else "," + StableItems(items[1..]))
  }

  function StablePairs(fs: seq<Field>): (r: seq<(string, string)>)
    ensures |r| == |fs| && forall i | 0 <= i < |fs| :: r[i] == (fs[i].key, StableStringify(fs[i].value))
    decreases fs, 0
  {
    if |fs| == 0 then [] else [(fs[0].key, StableStringify(fs[0].value))] + StablePairs(fs[1..])
  }

  function JoinPairs(pairs: seq<(string, string)>): string
    requires |pairs| > 0
  {
    (Quote(pairs[0].0) + (":" + pairs[0].1)) + (if |pairs| == 1 then "" else "," + JoinPairs(pairs[1..]))
  }

  /** In the compact form nesting depth leaves no trace. */
  lemma {:induction false} CompactDepth(j: Json, d: nat, e: nat)
    ensures Print(j, false, d) == Print(j, false, e)
    decreases j, 1
  {
    match j
    case Arr(items) =>
      if |items| > 0 {
        CompactItems(items, d + 1, e + 1);
      }
    case Obj(fs) =>
      if |fs| > 0 {
        CompactFields(fs, d + 1, e + 1);
      }
    case _ =>
  }

  lemma {:induction false} CompactItems(items: seq<Json>, d: nat, e: nat)
    requires |items| > 0
    ensures PrintItems(items, false, d) == PrintItems(items, false, e)
    decreases items, 0
  {
    CompactDepth(items[0], d, e);
    if |items| > 1 {
      CompactItems(items[1..], d, e);
    }
  }

  lemma {:induction false} CompactFields(fs: seq<Field>, d: nat, e: nat)
    requires |fs| > 0
    ensures PrintFields(fs, false, d) == PrintFields(fs, false, e)
    decreases fs, 0
  {
    CompactDepth(fs[0].value, d, e);
    if |fs| > 1 {
      CompactFields(fs[1..], d, e);
    }
  }

  function FieldText(f: Field): (string, string) { (f.key, Print(f.value, false, 0)) }

  lemma {:induction false} FieldsText(fs: seq<Field>)
    requires |fs| > 0
    ensures PrintFields(fs, false, 1) == JoinPairs(MapSeq(FieldText, fs))
  {
    CompactDepth(fs[0].value, 1, 0);
    if |fs| > 1 {
      FieldsText(fs[1..]);
      assert MapSeq(FieldText, fs)[1..] == MapSeq(FieldText, fs[1..]);
      assert "" + PrintFields(fs[1..], false, 1) == PrintFields(fs[1..], false, 1);
    }
  }

  lemma {:induction false} StableIsCanonText(j: Json)
    ensures StableStringify(j) == Print(Canon(j), false, 0)
    decreases j, 1
  {
    match j
    case Arr(items) =>
      if |items| > 0 {
        StableItemsText(items);
        var p := PrintItems(CanonItems(items), false, 1);
        assert "" + (p + ("" + "]")) == p + "]";
      }
    case Obj(fs) =>
      if |fs| > 0 {
        var cf := CanonFields(fs);
        forall i | 0 <= i < |fs| ensures StablePairs(fs)[i] == FieldText(cf[i]) {
          StableIsCanonText(fs[i].value);
        }
        assert StablePairs(fs) == MapSeq(FieldText, cf);
        SortMap(FieldText, cf, KeyLe, PairLe);
        FieldsText(SortBy(cf, KeyLe));
        var p := PrintFields(SortBy(cf, KeyLe), false, 1);
        assert "" + (p + ("" + "}")) == p + "}";
      }
    case _ =>
  }

  lemma {:induction false} StableItemsText(items: seq<Json>)
    requires |items| > 0
    ensures StableItems(items) == PrintItems(CanonItems(items), false, 1)
    decreases items, 0
  {
    StableIsCanonText(items[0]);
    CompactDepth(Canon(items[0]), 0, 1);
    if |items| > 1 {
      StableItemsText(items[1..]);
      assert CanonItems(items)[1..] == CanonItems(items[1..]);
      var p := PrintItems(CanonItems(items[1..]), false, 1);
      assert "" + p == p;
    }
  }

  /** `assertionsEqual`: the comparison that guards assertions during repair. */
  predicate AssertionsEqual(a: Json, b: Json) {
    StableStringify(a) == StableStringify(b)
  }

  lemma StableIffSame(a: Json, b: Json)
    requires Proper(a) && Proper(b)
    ensures AssertionsEqual(a, b) <==> Same(a, b)
  {
    StableIsCanonText(a);
    StableIsCanonText(b);
    PrintInjective(Canon(a), Canon(b), false, 0);
    CanonIffSame(a, b);
  }

  // ---- canonicalJson and diffFingerprints ----

  function CanonicalJson(j: Json): string {
    Print(Canon(j), true, 0) + "\n"
  }

  lemma CanonicalJsonIffSame(a: Json, b: Json)
    requires Proper(a) && Proper(b)
    ensures CanonicalJson(a) == CanonicalJson(b) <==> Same(a, b)
  {
    if CanonicalJson(a) == CanonicalJson(b) {
      PrintDecodes(Canon(a), Canon(b), true, 0, "\n", "\n");
    }
    CanonIffSame(a, b);
  }

  /** One reported difference; an absent value is JavaScript's `undefined`. */
  datatype Diff = Diff(path: string, left: Option<Json>, right: Option<Json>)

  function CompactText(j: Option<Json>): Option<string> {
    match j
    case None => None
    case Some(v) => Some(Print(Canon(v), false, 0))
  }

  function Extend(path: string, key: string): string {
    if |path| > 0 then path + "." + key else key
  }

  function Keys(fs: seq<Field>): (r: seq<string>)
    ensures |r| == |fs| && forall i | 0 <= i < |fs| :: r[i] == fs[i].key
  {
    seq(|fs|, i requires 0 <= i < |fs| => fs[i].key)
  }

  /** `new Set([...Object.keys(a), ...Object.keys(b)])`. */
  function KeyUnion(a: seq<Field>, b: seq<Field>): seq<string> {
    Keys(a) + Missing(Keys(b), a)
  }

  function Missing(keys: seq<string>, a: seq<Field>): (r: seq<string>)
    ensures forall k :: k in r <==> k in keys && Get(a, k).None?
  {
    if |keys| == 0 then []
    else (if Get(a, keys[0]).None? then [keys[0]] else []) + Missing(keys[1..], a)
  }

  function Walk(a: seq<Field>, b: seq<Field>, path: string): seq<Diff>
    decreases a, 1, 0
  {
    WalkKeys(a, b, SortBy(KeyUnion(a, b), StrLe), path)
  }

  function WalkKeys(a: seq<Field>, b: seq<Field>, keys: seq<string>, path: string): seq<Diff>
    decreases a, 0, |keys|
  {
    if |keys| == 0 then []
    else
      WalkKeys(a, b, keys[..|keys| - 1], path)
      + WalkAt(Get(a, keys[|keys| - 1]), Get(b, keys[|keys| - 1]), a, Extend(path, keys[|keys| - 1]))
  }

  /** `walk` on one pair of values; `owner` is the left object, which only shrinks. */
  function WalkAt(x: Option<Json>, y: Option<Json>, ghost owner: seq<Field>, path: string): seq<Diff>
    requires x.Some? ==> exists i :: 0 <= i < |owner| && owner[i].value == x.value
    decreases owner, 0, 0
  {
    if x.Some? && x.value.Obj? && y.Some? && y.value.Obj? then
      Walk(x.value.fields, y.value.fields, path)
    else if CompactText(x) != CompactText(y) then [Diff(path, x, y)]
    else []
  }

  lemma WalkKeysSnoc(a: seq<Field>, b: seq<Field>, keys: seq<string>, k: nat, path: string)
    requires k < |keys|
    ensures WalkKeys(a, b, keys[..k + 1], path)
      == WalkKeys(a, b, keys[..k], path) + WalkAt(Get(a, keys[k]), Get(b, keys[k]), a, Extend(path, keys[k]))
  {
    assert keys[..k + 1][..k] == keys[..k];
  }

  method DiffObjects(a: seq<Field>, b: seq<Field>, path: string) returns (diffs: seq<Diff>)
    ensures diffs == Walk(a, b, path)
    decreases a
  {
    var keys := SortBy(KeyUnion(a, b), StrLe);
    diffs := [];
    for k := 0 to |keys|
      invariant diffs == WalkKeys(a, b, keys[..k], path)
    {
      WalkKeysSnoc(a, b, keys, k, path);
      var x, y, here := Get(a, keys[k]), Get(b, keys[k]), Extend(path, keys[k]);
      if x.Some? && x.value.Obj? && y.Some? && y.value.Obj? {
        var inner := DiffObjects(x.value.fields, y.value.fields, here);
        diffs := diffs + inner;
      } else if CompactText(x) != CompactText(y) {
        diffs := diffs + [Diff(here, x, y)];
      }
    }
    assert keys[..|keys|] == keys;
  }

  function DiffSpec(left: Json, right: Json): seq<Diff> {
    match (Canon(left), Canon(right))
    case (Obj(x), Obj(y)) => Walk(x, y, "")
    case (x, y) => if CompactText(Some(x)) != CompactText(Some(y)) then [Diff("", Some(x), Some(y))] else []
  }

  method DiffFingerprints(left: Json, right: Json) returns (diffs: seq<Diff>)
    ensures diffs == DiffSpec(left, right)
  {
    var a, b := Canon(left), Canon(right);
    if a.Obj? && b.Obj? {
      diffs := DiffObjects(a.fields, b.fields, "");
    } else if CompactText(Some(a)) != CompactText(Some(b)) {
      diffs := [Diff("", Some(a), Some(b))];
    } else {
      diffs := [];
    }
  }

  /** The walk finds nothing at this key. */
  predicate Quiet(a: seq<Field>, b: seq<Field>, path: string, k: string) {
    WalkAt(Get(a, k), Get(b, k), a, Extend(path, k)) == []
  }

  lemma MembersSnoc(keys: seq<string>)
    requires |keys| > 0
    ensures forall k :: k in keys <==> k in keys[..|keys| - 1] || k == keys[|keys| - 1]
  {
    assert keys == keys[..|keys| - 1] + [keys[|keys| - 1]];
  }

  lemma {:induction false} WalkKeysEmpty(a: seq<Field>, b: seq<Field>, keys: seq<string>, path: string)
    ensures WalkKeys(a, b, keys, path) == [] <==> forall k | k in keys :: Quiet(a, b, path, k)
    decreases |keys|
  {
    if |keys| > 0 {
      WalkKeysEmpty(a, b, keys[..|keys| - 1], path);
      LastKeyQuiet(a, b, keys, path);
      MembersSnoc(keys);
    }
  }

  lemma LastKeyQuiet(a: seq<Field>, b: seq<Field>, keys: seq<string>, path: string)
    requires |keys| > 0
    ensures WalkKeys(a, b, keys, path) == []
      <==> WalkKeys(a, b, keys[..|keys| - 1], path) == [] && Quiet(a, b, path, keys[|keys| - 1])
  {
  }

  /** The walk visits exactly the keys that either object has. */
  lemma KeyUnionMembers(a: seq<Field>, b: seq<Field>)
    ensures forall k :: k in SortBy(KeyUnion(a, b), StrLe) <==> Get(a, k).Some? || Get(b, k).Some?
  {
    SortElements(KeyUnion(a, b), StrLe);
    SameMembers(SortBy(KeyUnion(a, b), StrLe), KeyUnion(a, b));
    forall k ensures k in KeyUnion(a, b) <==> Get(a, k).Some? || Get(b, k).Some? {
      KeysMembers(a, k);
      KeysMembers(b, k);
    }
  }

  lemma KeysMembers(fs: seq<Field>, k: string)
    ensures k in Keys(fs) <==> Get(fs, k).Some?
  {
    if k in Keys(fs) {
      var i :| 0 <= i < |fs| && Keys(fs)[i] == k;
      assert fs[i].key == k;
    }
    if Get(fs, k).Some? {
      var i :| 0 <= i < |fs| && fs[i].key == k;
      assert Keys(fs)[i] == k;
    }
  }

  lemma {:induction false} WalkEmptyIffSame(a: seq<Field>, b: seq<Field>, path: string)
    requires Proper(Obj(a)) && Proper(Obj(b))
    ensures Walk(a, b, path) == [] <==> Same(Obj(a), Obj(b))
    decreases a, 1
  {
    var keys := SortBy(KeyUnion(a, b), StrLe);
    WalkKeysEmpty(a, b, keys, path);
    KeyUnionMembers(a, b);
    forall k | k in keys ensures Quiet(a, b, path, k) <==> SameAt(a, b, k) {
      WalkAtEmpty(a, b, k, Extend(path, k));
    }
    SameByKeys(a, b, keys);
  }

  ghost predicate SameAt(a: seq<Field>, b: seq<Field>, k: string) {
    Get(a, k).Some? && Get(b, k).Some? && Same(Get(a, k).value, Get(b, k).value)
  }

  lemma SameAtEach(a: seq<Field>, b: seq<Field>, k: string)
    requires Same(Obj(a), Obj(b)) && (Get(a, k).Some? || Get(b, k).Some?)
    ensures SameAt(a, b, k)
  {
    if Get(a, k).None? {
      var i := IndexOfKey(b, k);
    }
    var i := IndexOfKey(a, k);
  }

  lemma SameIfAtEach(a: seq<Field>, b: seq<Field>)
    requires UniqueKeys(a) && UniqueKeys(b)
    requires forall k | Get(a, k).Some? || Get(b, k).Some? :: SameAt(a, b, k)
    ensures Same(Obj(a), Obj(b))
  {
    forall i | 0 <= i < |a| ensures SameAt(a, b, a[i].key) && Get(a, a[i].key) == Some(a[i].value) {
      GetField(a, i);
    }
    forall i | 0 <= i < |b| ensures SameAt(a, b, b[i].key) {
      GetField(b, i);
    }
  }

  lemma SameByKeys(a: seq<Field>, b: seq<Field>, keys: seq<string>)
    requires UniqueKeys(a) && UniqueKeys(b)
    requires forall k :: k in keys <==> Get(a, k).Some? || Get(b, k).Some?
    ensures Same(Obj(a), Obj(b)) <==> forall k | k in keys :: SameAt(a, b, k)
  {
    if Same(Obj(a), Obj(b)) {
      forall k | k in keys ensures SameAt(a, b, k) {
        SameAtEach(a, b, k);
      }
    }
    if forall k | k in keys :: SameAt(a, b, k) {
      SameIfAtEach(a, b);
    }
  }

  lemma {:induction false} WalkAtEmpty(a: seq<Field>, b: seq<Field>, k: string, path: string)
    requires Proper(Obj(a)) && Proper(Obj(b)) && (Get(a, k).Some? || Get(b, k).Some?)
    ensures WalkAt(Get(a, k), Get(b, k), a, path) == [] <==> SameAt(a, b, k)
    decreases a, 0
  {
    var x, y := Get(a, k), Get(b, k);
    if x.Some? && y.Some? {
      var i := IndexOfKey(a, k);
      var j := IndexOfKey(b, k);
      assert Proper(a[i].value) && Proper(b[j].value);
      if x.value.Obj? && y.value.Obj? {
        WalkEmptyIffSame(x.value.fields, y.value.fields, path);
      } else {
        PrintInjective(Canon(x.value), Canon(y.value), false, 0);
        CanonIffSame(x.value, y.value);
      }
    }
  }

  /** The diff is empty exactly when the fingerprints print the same, that is, agree up to key order. */
  lemma DiffEmptyIffSame(left: Json, right: Json)
    requires Proper(left) && Proper(right)
    ensures DiffSpec(left, right) == [] <==> Same(left, right)
    ensures DiffSpec(left, right) == [] <==> CanonicalJson(left) == CanonicalJson(right)
  {
    var a, b := Canon(left), Canon(right);
    CanonProper(left);
    CanonProper(right);
    CanonIdempotent(left);
    CanonIdempotent(right);
    CanonIffSame(left, right);
    CanonIffSame(a, b);
    CanonicalJsonIffSame(left, right);
    if a.Obj? && b.Obj? {
      WalkEmptyIffSame(a.fields, b.fields, "");
    } else {
      PrintInjective(Canon(a), Canon(b), false, 0);
    }
  }

  // ---- exactly which differences are reported ----

  /** The value some keys lead to. */
  function ValueAt(j: Option<Json>, keys: seq<string>): Option<Json>
    decreases |keys|
  {
    if |keys| == 0 then j
    else if j.Some? && j.value.Obj? then ValueAt(Get(j.value.fields, keys[0]), keys[1..])
    else None
  }

  /** How a report names the place, going on from `path`. */
  function PathTo(path: string, keys: seq<string>): string
    decreases |keys|
  {
    if |keys| == 0 then path
    else PathTo(if path == "" then keys[0] else path + "." + keys[0], keys[1..])
  }

  predicate BothObjects(x: Option<Json>, y: Option<Json>) {
    x.Some? && y.Some? && x.value.Obj? && y.value.Obj?
  }

  /** The comparison gets there: objects on both sides all the way, and a value on one side at least. */
  predicate Reaches(x: Option<Json>, y: Option<Json>, keys: seq<string>)
    decreases |keys|
  {
    if |keys| == 0 then true
    else
      && BothObjects(x, y)
      && (Get(x.value.fields, keys[0]).Some? || Get(y.value.fields, keys[0]).Some?)
      && Reaches(Get(x.value.fields, keys[0]), Get(y.value.fields, keys[0]), keys[1..])
  }

  /** The two sides differ there, and not in the parts of two objects. */
  ghost predicate DiffersAt(x: Option<Json>, y: Option<Json>, keys: seq<string>) {
    var l, r := ValueAt(x, keys), ValueAt(y, keys);
    && Reaches(x, y, keys) && !BothObjects(l, r) && (l.Some? || r.Some?)
    && !(l.Some? && r.Some? && Same(l.value, r.value))
  }

  ghost predicate IsReported(d: Diff, x: Option<Json>, y: Option<Json>, path: string, keys: seq<string>) {
    DiffersAt(x, y, keys) && d == Diff(PathTo(path, keys), ValueAt(x, keys), ValueAt(y, keys))
  }

  ghost predicate ProperIfAny(x: Option<Json>) {
    x.Some? ==> Proper(x.value)
  }

  lemma {:induction false} WalkKeysMembers(a: seq<Field>, b: seq<Field>, keys: seq<string>, path: string, d: Diff)
    ensures d in WalkKeys(a, b, keys, path) <==>
      exists k :: k in keys && d in WalkAt(Get(a, k), Get(b, k), a, Extend(path, k))
    decreases |keys|
  {
    if |keys| > 0 {
      WalkKeysMembers(a, b, keys[..|keys| - 1], path, d);
      MembersSnoc(keys);
    }
  }

  lemma TextsDiffer(x: Option<Json>, y: Option<Json>)
    requires ProperIfAny(x) && ProperIfAny(y)
    ensures CompactText(x) != CompactText(y) <==> (x.Some? || y.Some?) && !(x.Some? && y.Some? && Same(x.value, y.value))
  {
    if x.Some? && y.Some? {
      PrintInjectiveIff(Canon(x.value), Canon(y.value));
      CanonIffSame(x.value, y.value);
    }
  }

  lemma PrintInjectiveIff(x: Json, y: Json)
    ensures Print(x, false, 0) == Print(y, false, 0) <==> x == y
  {
    if Print(x, false, 0) == Print(y, false, 0) {
      PrintInjective(x, y, false, 0);
    }
  }

  lemma PartProper(a: seq<Field>, k: string)
    requires Proper(Obj(a))
    ensures ProperIfAny(Get(a, k))
  {
    if Get(a, k).Some? {
      var i := IndexOfKey(a, k);
      assert Proper(a[i].value);
    }
  }

  /** A difference in a part is one in the whole, one key further down. */
  lemma ReportedBelow(x: Option<Json>, y: Option<Json>, path: string, d: Diff, k: string, rest: seq<string>)
    requires BothObjects(x, y) && (Get(x.value.fields, k).Some? || Get(y.value.fields, k).Some?)
    requires IsReported(d, Get(x.value.fields, k), Get(y.value.fields, k), Extend(path, k), rest)
    ensures IsReported(d, x, y, path, [k] + rest)
  {
    assert ([k] + rest)[1..] == rest;
  }

  /** Every reported difference is one. */
  lemma {:induction false} ReportedDiffers(x: Option<Json>, y: Option<Json>, owner: seq<Field>, path: string, d: Diff)
    returns (keys: seq<string>)
    requires ProperIfAny(x) && ProperIfAny(y)
    requires x.Some? ==> exists i :: 0 <= i < |owner| && owner[i].value == x.value
    requires d in WalkAt(x, y, owner, path)
    ensures IsReported(d, x, y, path, keys)
    decreases owner
  {
    if BothObjects(x, y) {
      var a, b := x.value.fields, y.value.fields;
      var all := SortBy(KeyUnion(a, b), StrLe);
      WalkKeysMembers(a, b, all, path, d);
      KeyUnionMembers(a, b);
      var k :| k in all && d in WalkAt(Get(a, k), Get(b, k), a, Extend(path, k));
      PartProper(a, k);
      PartProper(b, k);
      var rest := ReportedDiffers(Get(a, k), Get(b, k), a, Extend(path, k), d);
      ReportedBelow(x, y, path, d, k, rest);
      keys := [k] + rest;
    } else {
      TextsDiffer(x, y);
      keys := [];
    }
  }

  /** Every difference is reported. */
  lemma {:induction false} DifferenceReported(x: Option<Json>, y: Option<Json>, owner: seq<Field>, path: string, keys: seq<string>)
    requires ProperIfAny(x) && ProperIfAny(y) && DiffersAt(x, y, keys)
    requires x.Some? ==> exists i :: 0 <= i < |owner| && owner[i].value == x.value
    ensures Diff(PathTo(path, keys), ValueAt(x, keys), ValueAt(y, keys)) in WalkAt(x, y, owner, path)
    decreases |keys|
  {
    if |keys| == 0 {
      TextsDiffer(x, y);
    } else {
      var a, b, k := x.value.fields, y.value.fields, keys[0];
      PartProper(a, k);
      PartProper(b, k);
      DifferenceReported(Get(a, k), Get(b, k), a, Extend(path, k), keys[1..]);
      var all := SortBy(KeyUnion(a, b), StrLe);
      KeyUnionMembers(a, b);
      WalkKeysMembers(a, b, all, path, Diff(PathTo(path, keys), ValueAt(x, keys), ValueAt(y, keys)));
    }
  }

  lemma SpecIsWalk(left: Json, right: Json, x: Json, y: Json, owner: seq<Field>)
    requires x == Canon(left) && y == Canon(right) && owner == [Field("", x)]
    ensures exists i :: 0 <= i < |owner| && owner[i].value == x
    ensures DiffSpec(left, right) == WalkAt(Some(x), Some(y), owner, "")
  {
    assert owner[0].value == x;
  }

  lemma WalkIsExact(x: Option<Json>, y: Option<Json>, owner: seq<Field>, d: Diff)
    requires ProperIfAny(x) && ProperIfAny(y)
    requires x.Some? ==> exists i :: 0 <= i < |owner| && owner[i].value == x.value
    ensures d in WalkAt(x, y, owner, "") <==> exists keys :: IsReported(d, x, y, "", keys)
  {
    if d in WalkAt(x, y, owner, "") {
      var keys := ReportedDiffers(x, y, owner, "", d);
    }
    if exists keys :: IsReported(d, x, y, "", keys) {
      var keys :| IsReported(d, x, y, "", keys);
      DifferenceReported(x, y, owner, "", keys);
    }
  }

  /** The report: for every place where the two canonical fingerprints differ its path and both values, and nothing else. */
  lemma DiffIsExact(left: Json, right: Json, d: Diff)
    requires Proper(left) && Proper(right)
    ensures d in DiffSpec(left, right) <==> exists keys :: IsReported(d, Some(Canon(left)), Some(Canon(right)), "", keys)
  {
    CanonProper(left);
    CanonProper(right);
    SpecIsWalk(left, right, Canon(left), Canon(right), [Field("", Canon(left))]);
    WalkIsExact(Some(Canon(left)), Some(Canon(right)), [Field("", Canon(left))], d);
  }
}
