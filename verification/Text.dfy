/** Substring search and replacement, the `{param}` hole grammar, and the interpolation that fills holes. */
module Text {
  import opened Wrappers

  // ---- substrings ----

  /** `s.includes(v)`. */
  predicate Contains(s: string, v: string) {
    v <= s || (|s| > 0 && Contains(s[1..], v))
  }

  /** The text of `s` up to the first occurrence of `v`, or all of it. */
  function Before(s: string, v: string): (r: string)
    ensures |r| <= |s|
  {
    if |s| == 0 || v <= s then "" else [s[0]] + Before(s[1..], v)
  }

  /** `s.split(v)` for a non-empty separator: cut at leftmost, non-overlapping occurrences. */
  function Split(s: string, v: string): (r: seq<string>)
    requires |v| > 0
    ensures |r| > 0
    decreases |s|
  {
    if |s| < |v| then [s]
    else if v <= s then [""] + Split(s[|v|..], v)
    else
      var rest := Split(s[1..], v);
      [[s[0]] + rest[0]] + rest[1..]
  }

  /** `parts.join(w)`. */
  function Join(parts: seq<string>, w: string): string {
    if |parts| == 0 then ""
    else if |parts| == 1 then parts[0]
    else parts[0] + w + Join(parts[1..], w)
  }

  /** Every leftmost, non-overlapping occurrence of `v` replaced by `w`. */
  function ReplaceAll(s: string, v: string, w: string): string
    requires |v| > 0
    decreases |s|
  {
    if |s| < |v| then s
    else if v <= s then w + ReplaceAll(s[|v|..], v, w)
    else [s[0]] + ReplaceAll(s[1..], v, w)
  }

  lemma JoinCharFirst(c: char, rest: seq<string>, w: string)
    requires |rest| > 0
    ensures Join([[c] + rest[0]] + rest[1..], w) == [c] + Join(rest, w)
  {
    var parts := [[c] + rest[0]] + rest[1..];
    assert parts[1..] == rest[1..];
    if |rest| > 1 {
      assert [c] + (rest[0] + w + Join(rest[1..], w)) == ([c] + rest[0]) + w + Join(rest[1..], w);
    }
  }

  lemma JoinEmptyFirst(rest: seq<string>, w: string)
    requires |rest| > 0
    ensures Join([""] + rest, w) == w + Join(rest, w)
  {
    assert ([""] + rest)[1..] == rest;
  }

  /** The source writes replacement as `split(v).join(w)`. */
  lemma {:induction false} SplitJoin(s: string, v: string, w: string)
    requires |v| > 0
    ensures Join(Split(s, v), w) == ReplaceAll(s, v, w)
    decreases |s|
  {
    if |s| >= |v| {
      if v <= s {
        SplitJoin(s[|v|..], v, w);
        JoinEmptyFirst(Split(s[|v|..], v), w);
      } else {
        SplitJoin(s[1..], v, w);
        JoinCharFirst(s[0], Split(s[1..], v), w);
      }
    }
  }

  lemma {:induction false} ReplaceAbsent(s: string, v: string, w: string)
    requires |v| > 0 && !Contains(s, v)
    ensures ReplaceAll(s, v, w) == s
    decreases |s|
  {
    if |s| >= |v| {
      ReplaceAbsent(s[1..], v, w);
    }
  }

  lemma Concat3(a: string, b: string, c: string)
    ensures a + (b + c) == (a + b) + c
  {
  }

  /** `s.indexOf(c)`. */
  function IndexOf(s: string, c: char): (r: Option<nat>)
    ensures r.Some? ==> r.value < |s| && s[r.value] == c && c !in s[..r.value]
    ensures r.None? ==> c !in s
  {
    if |s| == 0 then None
    else if s[0] == c then Some(0)
    else match IndexOf(s[1..], c)
      case None => None
      case Some(k) =>
        assert s[..k + 1] == [s[0]] + s[1..][..k];
        Some(k + 1)
  }

  // ---- characters and braces ----

  predicate BraceFree(s: string) {
    forall i | 0 <= i < |s| :: s[i] != '{' && s[i] != '}'
  }

  predicate IsIdentStart(c: char) {
    'a' <= c <= 'z' || 'A' <= c <= 'Z' || c == '_'
  }

  predicate IsIdentChar(c: char) {
    IsIdentStart(c) || '0' <= c <= '9'
  }

  /** `[A-Za-z_][A-Za-z0-9_]*`, the grammar of a hole's name. */
  predicate IsIdent(s: string) {
    |s| > 0 && IsIdentStart(s[0]) && forall i | 0 <= i < |s| :: IsIdentChar(s[i])
  }

  // ---- holes ----

  function Hole(name: string): string {
    ['{'] + name + ['}']
  }

  function IdentRun(s: string): (n: nat)
    ensures n <= |s|
    ensures forall i | 0 <= i < n :: IsIdentChar(s[i])
    ensures n < |s| ==> !IsIdentChar(s[n])
  {
    if |s| > 0 && IsIdentChar(s[0]) then 1 + IdentRun(s[1..]) else 0
  }

  /** The name of the hole `s` starts with, when it starts with one. */
  function HoleAt(s: string): (h: Option<string>)
    ensures h.Some? ==> IsIdent(h.value) && Hole(h.value) <= s
  {
    if |s| == 0 || s[0] != '{' then None
    else
      var n := IdentRun(s[1..]);
      if n > 0 && IsIdentStart(s[1]) && n + 1 < |s| && s[n + 1] == '}' then Some(s[1..n + 1]) else None
  }

  /** `HoleAt` finds every hole: a name read off the front of a text is determined by the text. */
  lemma HoleAtFinds(s: string, name: string)
    requires IsIdent(name) && Hole(name) <= s
    ensures HoleAt(s) == Some(name)
  {
    var n := IdentRun(s[1..]);
    var hole := Hole(name);
    assert forall i | 0 <= i < |name| :: hole[i + 1] == name[i] && s[i + 1] == hole[i + 1] && s[1..][i] == s[i + 1];
    assert hole[|name| + 1] == '}' && s[1..][|name|] == s[|name| + 1] == '}';
    assert n == |name|;
    assert s[1..n + 1] == name;
  }

  predicate LetterOrUnderscore(c: char) {
    'A' <= c <= 'Z' || 'a' <= c <= 'z' || c == '_'
  }

  /** The grammar of holes, character by character. */
  lemma HoleAtIff(s: string, name: string)
    ensures HoleAt(s) == Some(name) <==>
      && ['{'] + name + ['}'] <= s && |name| > 0 && LetterOrUnderscore(name[0])
      && forall i | 0 <= i < |name| :: LetterOrUnderscore(name[i]) || '0' <= name[i] <= '9'
  {
    if Hole(name) <= s && IsIdent(name) {
      HoleAtFinds(s, name);
    }
    assert IsIdent(name) <==> (|name| > 0 && LetterOrUnderscore(name[0])
      && forall i | 0 <= i < |name| :: LetterOrUnderscore(name[i]) || '0' <= name[i] <= '9');
  }

  lemma SplitHole(s: string)
    requires HoleAt(s).Some?
    ensures s == Hole(HoleAt(s).value) + s[|HoleAt(s).value| + 2..]
    ensures BraceFree(HoleAt(s).value)
  {
  }

  lemma HoleEnds(s: string)
    requires HoleAt(s).Some?
    ensures var n := |HoleAt(s).value|; s[n + 1] == '}' && IsIdentChar(s[n])
  {
    var h := HoleAt(s).value;
    assert s[|h| + 1] == Hole(h)[|h| + 1] && s[|h|] == Hole(h)[|h|] == h[|h| - 1];
  }

  /** Names of all holes in a template, in order of appearance. */
  function HoleNames(s: string): seq<string>
    decreases |s|
  {
    if |s| == 0 then []
    else match HoleAt(s)
      case Some(h) => [h] + HoleNames(s[|h| + 2..])
      case None => HoleNames(s[1..])
  }

  /** Runtime bindings, each value already turned into text by `String(value)`. */
  type Bindings = map<string, string>

  /** Fill every bound hole; an unbound hole stays as it is. */
  function Interpolate(s: string, b: Bindings): string
    decreases |s|
  {
    if |s| == 0 then ""
    else match HoleAt(s)
      case Some(h) => (if h in b then b[h] else Hole(h)) + Interpolate(s[|h| + 2..], b)
      case None => [s[0]] + Interpolate(s[1..], b)
  }

  /** `template.replace(HOLE, "")`: the template without its holes. */
  function StripHoles(s: string): string
    decreases |s|
  {
    if |s| == 0 then ""
    else match HoleAt(s)
      case Some(h) => StripHoles(s[|h| + 2..])
      case None => [s[0]] + StripHoles(s[1..])
  }

  lemma InterpolateHole(name: string, rest: string, b: Bindings)
    requires IsIdent(name)
    ensures Interpolate(Hole(name) + rest, b) == (if name in b then b[name] else Hole(name)) + Interpolate(rest, b)
  {
    var s := Hole(name) + rest;
    HoleAtFinds(s, name);
    assert s[|name| + 2..] == rest;
  }

  lemma InterpolateChar(c: char, rest: string, b: Bindings)
    requires c != '{'
    ensures Interpolate([c] + rest, b) == [c] + Interpolate(rest, b)
  {
    assert ([c] + rest)[1..] == rest;
  }

  /** Text without an opening brace passes through interpolation untouched. */
  lemma {:induction false} InterpolateLiteral(lit: string, rest: string, b: Bindings)
    requires '{' !in lit
    ensures Interpolate(lit + rest, b) == lit + Interpolate(rest, b)
  {
    if |lit| > 0 {
      var c, more := lit[0], lit[1..];
      assert c in lit && lit == [c] + more;
      Concat3([c], more, rest);
      InterpolateChar(c, more + rest, b);
      InterpolateLiteral(more, rest, b);
      Concat3([c], more, Interpolate(rest, b));
    } else {
      assert lit + rest == rest;
    }
  }

  lemma InterpolateBraceFree(s: string, b: Bindings)
    requires '{' !in s
    ensures Interpolate(s, b) == s
  {
    InterpolateLiteral(s, "", b);
    assert s + "" == s;
  }

  /** Interpolation leaves no hole of the template unfilled exactly when every hole name is bound. */
  ghost predicate AllBound(s: string, b: Bindings) {
    forall h | h in HoleNames(s) :: h in b
  }
}
