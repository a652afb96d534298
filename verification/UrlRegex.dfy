/**
 * The URL pattern a template compiles to: its text, what that text means to a regular-expression reader, and
 * which URLs it accepts.
 */
module UrlRegex {
  import opened Wrappers
  import opened Text

  // ---- the printer ----

  predicate IsMeta(c: char) {
    c in ".*+?^${}()|[]\\"
  }

  function EscapeOne(c: char): string {
    if IsMeta(c) then ['\\', c] else [c]
  }

  function EscapeRegex(s: string): string {
    if |s| == 0 then "" else EscapeOne(s[0]) + EscapeRegex(s[1..])
  }

  const SEGMENT := "[^/?#]+"

  /** What lies between `^` and `$`. A brace that never closes is literal text. */
  function RegexBody(t: string): string
    decreases |t|
  {
    if |t| == 0 then ""
    else if t[0] == '{' then
      match IndexOf(t, '}')
      case None => EscapeRegex(t)
      case Some(end) => SEGMENT + RegexBody(t[end + 1..])
    else EscapeOne(t[0]) + RegexBody(t[1..])
  }

  function TemplateRegex(t: string): string {
    "^" + RegexBody(t) + "$"
  }

  lemma {:induction false} BodyOfLiteral(lit: string, rest: string)
    requires '{' !in lit
    ensures RegexBody(lit + rest) == EscapeRegex(lit) + RegexBody(rest)
  {
    if |lit| == 0 {
      assert lit + rest == rest;
    } else {
      assert lit[0] in lit && (lit + rest)[1..] == lit[1..] + rest;
      BodyOfLiteral(lit[1..], rest);
      Concat3(EscapeOne(lit[0]), EscapeRegex(lit[1..]), RegexBody(rest));
    }
  }

  /** The characters a pattern gives a meaning of their own, each taken literally behind a backslash. */
  lemma EscapeSays(c: char)
    ensures EscapeOne(c)
      == if c in {'.', '*', '+', '?', '^', '$', '{', '}', '(', ')', '|', '[', ']', '\\'} then ['\\', c] else [c]
  {
  }

  lemma HoleBody(name: string, rest: string)
    requires '}' !in name
    ensures RegexBody(['{'] + name + ['}'] + rest) == "[^/?#]+" + RegexBody(rest)
    ensures RegexBody(['{'] + name) == EscapeRegex(['{'] + name)
  {
    var hole, open := ['{'] + name + ['}'] + rest, ['{'] + name;
    assert hole[|name| + 1] == '}' && forall i | 0 <= i <= |name| :: hole[i] != '}';
    assert IndexOf(hole, '}') == Some(|name| + 1) && hole[|name| + 2..] == rest;
    assert IndexOf(open, '}') == None;
  }

  /** A hole, whatever its name, becomes one path segment; the text around it is escaped; an open brace alone is text. */
  lemma RegexSays(lit: string, name: string, rest: string)
    requires '{' !in lit && '}' !in name
    ensures TemplateRegex(lit + (['{'] + name + ['}'] + rest)) == "^" + (EscapeRegex(lit) + ("[^/?#]+" + RegexBody(rest))) + "$"
    ensures TemplateRegex(lit + (['{'] + name)) == "^" + (EscapeRegex(lit) + EscapeRegex(['{'] + name)) + "$"
  {
    HoleBody(name, rest);
    BodyOfLiteral(lit, ['{'] + name + ['}'] + rest);
    BodyOfLiteral(lit, ['{'] + name);
  }

  function Concat(parts: seq<string>): string {
    if |parts| == 0 then "" else Concat(parts[..|parts| - 1]) + parts[|parts| - 1]
  }

  lemma {:induction false} JoinIsConcat(parts: seq<string>)
    ensures Join(parts, "") == Concat(parts)
  {
    if |parts| > 1 {
      var last := |parts| - 1;
      JoinIsConcat(parts[..last]);
      JoinSnoc(parts[..last], parts[last]);
      assert parts == parts[..last] + [parts[last]];
    }
  }

  lemma {:induction false} JoinSnoc(parts: seq<string>, x: string)
    ensures Join(parts + [x], "") == Join(parts, "") + x
  {
    if |parts| > 0 {
      assert (parts + [x])[1..] == parts[1..] + [x];
      JoinSnoc(parts[1..], x);
    }
  }

  lemma AddPart(parts: seq<string>, x: string, tail: string)
    ensures Concat(parts + [x]) + tail == Concat(parts) + (x + tail)
  {
    assert (parts + [x])[..|parts|] == parts;
  }

  /** The end of the literal run that starts at `i`. */
  method LiteralRun(template: string, i: nat) returns (j: nat)
    requires i < |template| && template[i] != '{'
    ensures i < j <= |template| && '{' !in template[i..j]
    ensures j < |template| ==> template[j] == '{'
  {
    j := i + 1;
    while j < |template| && template[j] != '{'
      invariant i < j <= |template|
      invariant forall k | i <= k < j :: template[k] != '{'
    {
      j := j + 1;
    }
  }

  /** What has been pushed so far, and what the rest of the template still stands for, make up the body. */
  ghost predicate Pushed(parts: seq<string>, template: string, i: nat)
    requires i <= |template|
  {
    Concat(parts) + RegexBody(template[i..]) == RegexBody(template)
  }

  lemma PushedLiteral(parts: seq<string>, template: string, i: nat, j: nat)
    requires i < j <= |template| && '{' !in template[i..j] && Pushed(parts, template, i)
    ensures Pushed(parts + [EscapeRegex(template[i..j])], template, j)
  {
    var lit := template[i..j];
    assert template[i..] == lit + template[j..];
    BodyOfLiteral(lit, template[j..]);
    AddPart(parts, EscapeRegex(lit), RegexBody(template[j..]));
  }

  lemma PushedHole(parts: seq<string>, template: string, i: nat, end: nat)
    requires i < |template| && template[i] == '{' && Pushed(parts, template, i)
    requires IndexOf(template[i..], '}') == Some(end)
    ensures i + end + 1 <= |template| && Pushed(parts + [SEGMENT], template, i + end + 1)
  {
    var t := template[i..];
    assert t[end + 1..] == template[i + end + 1..];
    AddPart(parts, SEGMENT, RegexBody(t[end + 1..]));
  }

  lemma PushedRest(parts: seq<string>, template: string, i: nat)
    requires i < |template| && template[i] == '{' && Pushed(parts, template, i)
    requires IndexOf(template[i..], '}').None?
    ensures Pushed(parts + [EscapeRegex(template[i..])], template, |template|)
  {
    AddPart(parts, EscapeRegex(template[i..]), "");
    assert RegexBody(template[|template|..]) == "";
    assert Concat(parts) + (EscapeRegex(template[i..]) + "") == Concat(parts) + EscapeRegex(template[i..]);
  }

  lemma PushedAll(parts: seq<string>, template: string)
    requires Pushed(parts, template, |template|)
    ensures Join(parts, "") == RegexBody(template)
  {
    JoinIsConcat(parts);
    assert RegexBody(template[|template|..]) == "" && Concat(parts) + "" == Concat(parts);
  }

  method TemplateToRegex(template: string) returns (r: string)
    ensures r == TemplateRegex(template)
  {
    var parts: seq<string> := [];
    var i := 0;
    assert template[0..] == template && Concat([]) + RegexBody(template) == RegexBody(template);
    while i < |template|
      invariant 0 <= i <= |template| && Pushed(parts, template, i)
    {
      if template[i] == '{' {
        var end := IndexOf(template[i..], '}');
        if end.None? {
          PushedRest(parts, template, i);
          parts := parts + [EscapeRegex(template[i..])];
          i := |template|;
        } else {
          PushedHole(parts, template, i, end.value);
          parts := parts + [SEGMENT];
          i := i + end.value + 1;
        }
      } else {
        var j := LiteralRun(template, i);
        PushedLiteral(parts, template, i, j);
        parts := parts + [EscapeRegex(template[i..j])];
        i := j;
      }
    }
    PushedAll(parts, template);
    r := "^" + Join(parts, "") + "$";
  }

  // ---- reading the text back ----

  /** One element of the pattern language the printer uses. */
  datatype Atom = Lit(c: char) | Segment

  function Lits(s: string): (r: seq<Atom>)
    ensures |r| == |s| && forall i | 0 <= i < |s| :: r[i] == Lit(s[i])
  {
    seq(|s|, i requires 0 <= i < |s| => Lit(s[i]))
  }

  /** A template as its author means it: literal characters and holes. */
  function TemplateAtoms(t: string): seq<Atom>
    decreases |t|
  {
    if |t| == 0 then []
    else if t[0] == '{' then
      match IndexOf(t, '}')
      case None => Lits(t)
      case Some(end) => [Segment] + TemplateAtoms(t[end + 1..])
    else [Lit(t[0])] + TemplateAtoms(t[1..])
  }

  /** A reader for the fragment: escaped metacharacters, plain characters and the one character class. */
  function ReadBody(r: string): Option<seq<Atom>>
    decreases |r|
  {
    if |r| == 0 then Some([])
    else if SEGMENT <= r then Prepend(Segment, ReadBody(r[|SEGMENT|..]))
    else if r[0] == '\\' then
      if |r| > 1 && IsMeta(r[1]) then Prepend(Lit(r[1]), ReadBody(r[2..])) else None
    else if IsMeta(r[0]) then None
    else Prepend(Lit(r[0]), ReadBody(r[1..]))
  }

  function Prepend(a: Atom, rest: Option<seq<Atom>>): Option<seq<Atom>> {
    match rest
    case None => None
    case Some(atoms) => Some([a] + atoms)
  }

  function ReadRegex(r: string): Option<seq<Atom>> {
    if |r| >= 2 && r[0] == '^' && r[|r| - 1] == '$' then ReadBody(r[1..|r| - 1]) else None
  }

  lemma ReadEscapedChar(c: char, rest: string)
    ensures ReadBody(EscapeOne(c) + rest) == Prepend(Lit(c), ReadBody(rest))
  {
    var e := EscapeOne(c);
    assert SEGMENT[0] == '[';
    assert (e + rest)[|e|..] == rest;
  }

  lemma LitsStep(s: string, atoms: seq<Atom>)
    requires |s| > 0
    ensures [Lit(s[0])] + (Lits(s[1..]) + atoms) == Lits(s) + atoms
  {
  }

  lemma {:induction false} ReadEscapedText(s: string, rest: string, atoms: seq<Atom>)
    requires ReadBody(rest) == Some(atoms)
    ensures ReadBody(EscapeRegex(s) + rest) == Some(Lits(s) + atoms)
  {
    if |s| == 0 {
      assert EscapeRegex(s) + rest == rest && Lits(s) + atoms == atoms;
    } else {
      var more := EscapeRegex(s[1..]) + rest;
      ReadEscapedText(s[1..], rest, atoms);
      Concat3(EscapeOne(s[0]), EscapeRegex(s[1..]), rest);
      ReadEscapedChar(s[0], more);
      LitsStep(s, atoms);
    }
  }

  lemma {:induction false} BodyReadsBack(t: string)
    ensures ReadBody(RegexBody(t)) == Some(TemplateAtoms(t))
    decreases |t|
  {
    if |t| > 0 {
      if t[0] == '{' {
        match IndexOf(t, '}')
        case None =>
          ReadEscapedText(t, "", []);
          assert EscapeRegex(t) + "" == EscapeRegex(t) && Lits(t) + [] == Lits(t);
        case Some(end) =>
          BodyReadsBack(t[end + 1..]);
          assert (SEGMENT + RegexBody(t[end + 1..]))[|SEGMENT|..] == RegexBody(t[end + 1..]);
      } else {
        BodyReadsBack(t[1..]);
        ReadEscapedChar(t[0], RegexBody(t[1..]));
      }
    }
  }

  /** The pattern printed for a template reads back as exactly that template's literals and holes. */
  lemma RegexReadsBack(t: string)
    ensures ReadRegex(TemplateRegex(t)) == Some(TemplateAtoms(t))
  {
    BodyReadsBack(t);
    assert TemplateRegex(t)[1..|TemplateRegex(t)| - 1] == RegexBody(t);
  }

  // ---- interpolation leaves the pattern alone ----

  /** Every closing brace that could end a hole is escaped. */
  ghost predicate ClosesEscaped(s: string) {
    forall i | 0 < i < |s| && s[i] == '}' :: s[i - 1] == '\\'
  }

  lemma ClosesEscapedConcat(a: string, b: string)
    requires ClosesEscaped(a) && ClosesEscaped(b) && (|b| > 0 ==> b[0] != '}')
    ensures ClosesEscaped(a + b)
  {
    var s := a + b;
    forall i | 0 < i < |s| && s[i] == '}' ensures s[i - 1] == '\\' {
      if i > |a| {
        assert b[i - |a|] == '}';
      }
    }
  }

  lemma {:induction false} EscapedText(s: string)
    ensures ClosesEscaped(EscapeRegex(s)) && '}' !in EscapeRegex(s)[..if |s| > 0 then 1 else 0]
  {
    if |s| > 0 {
      EscapedText(s[1..]);
      ClosesEscapedConcat(EscapeOne(s[0]), EscapeRegex(s[1..]));
    }
  }

  lemma {:induction false} BodyEscapes(t: string)
    ensures ClosesEscaped(RegexBody(t)) && (|RegexBody(t)| > 0 ==> RegexBody(t)[0] != '}')
    decreases |t|
  {
    if |t| > 0 {
      if t[0] == '{' {
        match IndexOf(t, '}')
        case None => EscapedText(t);
        case Some(end) =>
          BodyEscapes(t[end + 1..]);
          ClosesEscapedConcat(SEGMENT, RegexBody(t[end + 1..]));
      } else {
        BodyEscapes(t[1..]);
        ClosesEscapedConcat(EscapeOne(t[0]), RegexBody(t[1..]));
      }
    }
  }

  lemma {:induction false} NothingToFill(s: string, b: Bindings)
    requires ClosesEscaped(s)
    ensures Interpolate(s, b) == s && HoleNames(s) == []
    decreases |s|
  {
    if |s| > 0 {
      NoHoleHere(s);
      NothingToFill(s[1..], b);
      assert s == [s[0]] + s[1..];
    }
  }

  lemma NoHoleHere(s: string)
    requires ClosesEscaped(s) && |s| > 0
    ensures HoleAt(s).None? && ClosesEscaped(s[1..])
  {
    if HoleAt(s).Some? {
      HoleEnds(s);
    }
    var t := s[1..];
    assert forall i | 0 < i < |t| && t[i] == '}' :: s[i + 1] == '}' && t[i - 1] == s[i];
  }

  /** A compiled pattern has no hole to fill: run-time bindings cannot change what it matches. */
  lemma RegexIgnoresBindings(t: string, b: Bindings)
    ensures Interpolate(TemplateRegex(t), b) == TemplateRegex(t)
    ensures HoleNames(TemplateRegex(t)) == []
  {
    BodyEscapes(t);
    ClosesEscapedConcat("^", RegexBody(t));
    ClosesEscapedConcat("^" + RegexBody(t), "$");
    NothingToFill(TemplateRegex(t), b);
  }

  // ---- what the pattern accepts ----

  predicate IsDelim(c: char) {
    c == '/' || c == '?' || c == '#'
  }

  /** The characters a segment of the pattern excludes are the three delimiters. */
  lemma SegmentExcludes(c: char)
    ensures SEGMENT == "[^" + "/?#" + "]+" && (IsDelim(c) <==> c in "/?#")
  {
  }

  predicate DelimFree(s: string) {
    forall i | 0 <= i < |s| :: !IsDelim(s[i])
  }

  /** Anchored matching of the whole text. */
  ghost predicate Matches(atoms: seq<Atom>, s: string) {
    if |atoms| == 0 then |s| == 0
    else match atoms[0]
      case Lit(c) => |s| > 0 && s[0] == c && Matches(atoms[1..], s[1..])
      case Segment => exists k | 1 <= k <= |s| :: DelimFree(s[..k]) && Matches(atoms[1..], s[k..])
  }

  function CountChar(s: string, d: char): nat {
    if |s| == 0 then 0 else (if s[0] == d then 1 else 0) + CountChar(s[1..], d)
  }

  function CountLit(atoms: seq<Atom>, d: char): nat {
    if |atoms| == 0 then 0 else (if atoms[0] == Lit(d) then 1 else 0) + CountLit(atoms[1..], d)
  }

  lemma {:induction false} CountConcat(a: string, b: string, d: char)
    ensures CountChar(a + b, d) == CountChar(a, d) + CountChar(b, d)
  {
    if |a| == 0 {
      assert a + b == b;
    } else {
      assert (a + b)[1..] == a[1..] + b;
      CountConcat(a[1..], b, d);
    }
  }

  lemma {:induction false} CountAbsent(s: string, d: char)
    ensures CountChar(s, d) == 0 <==> d !in s
  {
    if |s| > 0 {
      CountAbsent(s[1..], d);
      assert s == [s[0]] + s[1..];
    }
  }

  /** A match never skips a path segment: delimiters come from the literals, one for one. */
  lemma {:induction false} MatchKeepsDelimiters(atoms: seq<Atom>, s: string, d: char)
    requires Matches(atoms, s) && IsDelim(d)
    ensures CountChar(s, d) == CountLit(atoms, d)
    decreases |atoms|
  {
    if |atoms| > 0 {
      match atoms[0]
      case Lit(c) => MatchKeepsDelimiters(atoms[1..], s[1..], d);
      case Segment =>
        var k :| 1 <= k <= |s| && DelimFree(s[..k]) && Matches(atoms[1..], s[k..]);
        MatchKeepsDelimiters(atoms[1..], s[k..], d);
        CountAbsent(s[..k], d);
        assert s == s[..k] + s[k..];
        CountConcat(s[..k], s[k..], d);
    }
  }

  /** Every brace of the template belongs to an identifier hole. */
  predicate IdentTemplate(t: string)
    decreases |t|
  {
    if |t| == 0 then true
    else match HoleAt(t)
      case Some(h) => IdentTemplate(t[|h| + 2..])
      case None => t[0] != '{' && IdentTemplate(t[1..])
  }

  /** Text without an open brace is one, and so is a hole in front of one, whatever its name. */
  lemma IdentTemplateSays(c: char, name: string, rest: string)
    requires c != '{' && IsIdent(name)
    ensures IdentTemplate("")
    ensures IdentTemplate([c] + rest) <==> IdentTemplate(rest)
    ensures IdentTemplate(Hole(name) + rest) <==> IdentTemplate(rest)
  {
    assert ([c] + rest)[1..] == rest;
    HoleAtFinds(Hole(name) + rest, name);
    assert (Hole(name) + rest)[|name| + 2..] == rest;
  }

  ghost predicate Filled(t: string, b: Bindings) {
    forall h | h in HoleNames(t) :: h in b && |b[h]| > 0
  }

  ghost predicate SegmentValues(t: string, b: Bindings)
    requires Filled(t, b)
  {
    forall h | h in HoleNames(t) :: DelimFree(b[h])
  }

  lemma HoleEnd(t: string)
    requires HoleAt(t).Some?
    ensures IndexOf(t, '}') == Some(|HoleAt(t).value| + 1)
  {
    var h := HoleAt(t).value;
    SplitHole(t);
    var end := IndexOf(t, '}').value;
    assert Hole(h)[|h| + 1] == '}' == t[|h| + 1];
    assert forall i | 0 <= i < |h| :: t[i + 1] == Hole(h)[i + 1] == h[i];
    assert t[..end][0..] == t[..end];
  }

  /** A template that starts with a hole, taken apart. */
  lemma HoleStep(t: string, b: Bindings)
    requires HoleAt(t).Some? && HoleAt(t).value in b
    ensures var h := HoleAt(t).value;
      var rest := t[|h| + 2..];
      && HoleNames(t) == [h] + HoleNames(rest)
      && (forall n | n in HoleNames(rest) :: n in HoleNames(t)) && h in HoleNames(t)
      && TemplateAtoms(t) == [Segment] + TemplateAtoms(rest) && TemplateAtoms(t)[1..] == TemplateAtoms(rest)
      && Interpolate(t, b) == b[h] + Interpolate(rest, b)
  {
    HoleEnd(t);
  }

  /** A template that starts with a literal character, taken apart. */
  lemma CharStep(t: string, b: Bindings)
    requires |t| > 0 && HoleAt(t).None? && t[0] != '{'
    ensures HoleNames(t) == HoleNames(t[1..])
    ensures TemplateAtoms(t) == [Lit(t[0])] + TemplateAtoms(t[1..]) && TemplateAtoms(t)[1..] == TemplateAtoms(t[1..])
    ensures Interpolate(t, b) == [t[0]] + Interpolate(t[1..], b) && Interpolate(t, b)[1..] == Interpolate(t[1..], b)
  {
  }

  lemma HeadIn(t: string)
    requires HoleAt(t).Some?
    ensures HoleAt(t).value in HoleNames(t)
  {
  }

  lemma SegmentFirst(value: string, atoms: seq<Atom>, rest: string)
    requires |value| > 0 && DelimFree(value) && Matches(atoms, rest)
    ensures Matches([Segment] + atoms, value + rest)
  {
    var s := value + rest;
    assert s[..|value|] == value && s[|value|..] == rest;
    assert ([Segment] + atoms)[1..] == atoms;
  }

  lemma CharFirst(c: char, atoms: seq<Atom>, rest: string)
    requires Matches(atoms, rest)
    ensures Matches([Lit(c)] + atoms, [c] + rest)
  {
    assert ([Lit(c)] + atoms)[1..] == atoms && ([c] + rest)[1..] == rest;
  }

  ghost predicate Segments(names: seq<string>, b: Bindings) {
    forall i | 0 <= i < |names| :: names[i] in b && |b[names[i]]| > 0 && DelimFree(b[names[i]])
  }

  lemma SegmentsStep(h: string, names: seq<string>, b: Bindings)
    requires Segments([h] + names, b)
    ensures h in b && |b[h]| > 0 && DelimFree(b[h]) && Segments(names, b)
  {
    var all := [h] + names;
    assert all[0] == h;
    assert forall i | 0 <= i < |names| :: names[i] == all[i + 1];
  }

  lemma {:induction false} InstancesMatch(t: string, b: Bindings)
    requires IdentTemplate(t) && Segments(HoleNames(t), b)
    ensures Matches(TemplateAtoms(t), Interpolate(t, b))
    decreases |t|
  {
    if |t| == 0 {
    } else if HoleAt(t).None? {
      CharStep(t, b);
      InstancesMatch(t[1..], b);
      CharFirst(t[0], TemplateAtoms(t[1..]), Interpolate(t[1..], b));
    } else {
      var h := HoleAt(t).value;
      var rest := t[|h| + 2..];
      SegmentsStep(h, HoleNames(rest), b);
      HoleStep(t, b);
      InstancesMatch(rest, b);
      SegmentFirst(b[h], TemplateAtoms(rest), Interpolate(rest, b));
    }
  }

  /** The text has the delimiters of the literals, and no others only if no value brings one. */
  ghost predicate AddsUp(s: string, atoms: seq<Atom>, names: seq<string>, b: Bindings, d: char) {
    && CountChar(s, d) >= CountLit(atoms, d)
    && (CountChar(s, d) == CountLit(atoms, d) ==> forall i | 0 <= i < |names| :: names[i] in b ==> d !in b[names[i]])
  }

  lemma HoleCounts(value: string, rest: string, atoms: seq<Atom>, d: char)
    requires CountChar(rest, d) >= CountLit(atoms, d)
    ensures CountChar(value + rest, d) >= CountLit([Segment] + atoms, d)
    ensures CountChar(value + rest, d) == CountLit([Segment] + atoms, d) ==> d !in value && CountChar(rest, d) == CountLit(atoms, d)
  {
    CountConcat(value, rest, d);
    CountAbsent(value, d);
    assert ([Segment] + atoms)[1..] == atoms;
  }

  lemma CharCounts(c: char, rest: string, atoms: seq<Atom>, d: char)
    ensures CountChar([c] + rest, d) - CountLit([Lit(c)] + atoms, d) == CountChar(rest, d) - CountLit(atoms, d)
  {
    assert ([Lit(c)] + atoms)[1..] == atoms && ([c] + rest)[1..] == rest;
  }

  lemma AddsUpHole(s: string, atoms: seq<Atom>, h: string, names: seq<string>, b: Bindings, d: char)
    requires AddsUp(s, atoms, names, b, d) && h in b
    ensures AddsUp(b[h] + s, [Segment] + atoms, [h] + names, b, d)
  {
    HoleCounts(b[h], s, atoms, d);
    var all := [h] + names;
    assert forall i | 0 < i < |all| :: all[i] == names[i - 1];
  }

  lemma AddsUpChar(s: string, atoms: seq<Atom>, c: char, names: seq<string>, b: Bindings, d: char)
    requires AddsUp(s, atoms, names, b, d)
    ensures AddsUp([c] + s, [Lit(c)] + atoms, names, b, d)
  {
    CharCounts(c, s, atoms, d);
  }

  /** Filling holes adds the delimiters of the values to those of the literals. */
  lemma {:induction false} InstanceDelimiters(t: string, b: Bindings, d: char)
    requires IdentTemplate(t) && forall h | h in HoleNames(t) :: h in b
    ensures AddsUp(Interpolate(t, b), TemplateAtoms(t), HoleNames(t), b, d)
    decreases |t|
  {
    if |t| == 0 {
    } else if HoleAt(t).None? {
      CharStep(t, b);
      InstanceDelimiters(t[1..], b, d);
      AddsUpChar(Interpolate(t[1..], b), TemplateAtoms(t[1..]), t[0], HoleNames(t[1..]), b, d);
    } else {
      var h := HoleAt(t).value;
      var rest := t[|h| + 2..];
      HeadIn(t);
      RestBound(t, b);
      InstanceDelimiters(rest, b, d);
      AddsUpHole(Interpolate(rest, b), TemplateAtoms(rest), h, HoleNames(rest), b, d);
      HoleStep(t, b);
    }
  }

  lemma RestBound(t: string, b: Bindings)
    requires HoleAt(t).Some? && IdentTemplate(t) && forall h | h in HoleNames(t) :: h in b
    ensures var rest := t[|HoleAt(t).value| + 2..];
      HoleAt(t).value in b && IdentTemplate(rest) && forall h | h in HoleNames(rest) :: h in b
  {
    HeadIn(t);
    HoleStep(t, b);
  }

  /** With non-empty values, an instance of the template matches exactly when no value smuggles in a delimiter. */
  lemma InstanceMatchesIff(t: string, b: Bindings)
    requires IdentTemplate(t) && Filled(t, b)
    ensures Matches(TemplateAtoms(t), Interpolate(t, b)) <==> SegmentValues(t, b)
  {
    var names := HoleNames(t);
    assert forall i | 0 <= i < |names| :: names[i] in names;
    if SegmentValues(t, b) {
      InstancesMatch(t, b);
    }
    if Matches(TemplateAtoms(t), Interpolate(t, b)) {
      forall d, h | IsDelim(d) && h in names ensures d !in b[h] {
        MatchKeepsDelimiters(TemplateAtoms(t), Interpolate(t, b), d);
        InstanceDelimiters(t, b, d);
        var i :| 0 <= i < |names| && names[i] == h;
      }
      forall h | h in names ensures DelimFree(b[h]) {
        forall i | 0 <= i < |b[h]| ensures !IsDelim(b[h][i]) {
          assert b[h][i] in b[h];
        }
      }
    }
  }
}
