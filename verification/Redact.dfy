/**
 * Lifting bound values out of recorded text and putting them back.
 *
 * Replacing a value by its hole is undone by interpolation unless the value also occurs inside the name
 * of a hole that is bound, which the replacement then breaks. Nothing else can go wrong, whatever stray
 * braces the text carries and in whatever order overlapping values are replaced.
 */
module Redact {
  import opened Wrappers
  import opened Text
  import opened Order

  /** One replacement: `lead + value` becomes `lead + {name}`; `lead` is ":" for a port, otherwise empty. */
  datatype Step = Step(name: string, lead: string, value: string)

  function Pattern(p: Step): string { p.lead + p.value }

  function Lifted(p: Step): string { p.lead + Hole(p.name) }

  function Apply(s: string, p: Step): string
    requires |Pattern(p)| > 0
  {
    ReplaceAll(s, Pattern(p), Lifted(p))
  }

  /** What the caller must supply for a replacement to be undoable: a name the grammar reads, a brace-free value. */
  ghost predicate Usable(p: Step, b: Bindings) {
    && |p.value| > 0 && BraceFree(p.value) && BraceFree(p.lead)
    && IsIdent(p.name) && p.name in b && b[p.name] == p.value
  }

  /** Some hole of `s` that is bound has the replaced text inside its name. */
  predicate HitsBoundHole(s: string, p: Step, b: Bindings)
    decreases |s|
  {
    if |s| == 0 then false
    else match HoleAt(s)
      case Some(h) => (h in b && Contains(h, Pattern(p))) || HitsBoundHole(s[|h| + 2..], p, b)
      case None => HitsBoundHole(s[1..], p, b)
  }

  function Opens(s: string): nat {
    if |s| == 0 then 0 else (if s[0] == '{' then 1 else 0) + Opens(s[1..])
  }

  lemma {:induction false} OpensConcat(a: string, c: string)
    ensures Opens(a + c) == Opens(a) + Opens(c)
  {
    if |a| == 0 {
      assert a + c == c;
    } else {
      assert (a + c)[1..] == a[1..] + c;
      OpensConcat(a[1..], c);
    }
  }

  lemma {:induction false} OpensBraceFree(s: string)
    requires BraceFree(s)
    ensures Opens(s) == 0
  {
    if |s| > 0 {
      OpensBraceFree(s[1..]);
    }
  }

  // ---- how a replacement meets braces ----

  /** No occurrence of a brace-free pattern crosses a brace. */
  lemma {:induction false} ApplyAcrossBrace(a: string, c: char, rest: string, p: Step)
    requires BraceFree(Pattern(p)) && |Pattern(p)| > 0 && (c == '{' || c == '}')
    ensures Apply(a + [c] + rest, p) == Apply(a, p) + [c] + Apply(rest, p)
    decreases |a|
  {
    var v, w := Pattern(p), Lifted(p);
    var s := a + [c] + rest;
    assert s[|a|] == c;
    if |a| == 0 {
      assert s[1..] == rest;
    } else if v <= a {
      assert s[|v|..] == a[|v|..] + [c] + rest;
      ApplyAcrossBrace(a[|v|..], c, rest, p);
      Concat4(w, Apply(a[|v|..], p), [c], Apply(rest, p));
    } else {
      assert s[1..] == a[1..] + [c] + rest;
      ApplyAcrossBrace(a[1..], c, rest, p);
      Concat4([a[0]], Apply(a[1..], p), [c], Apply(rest, p));
    }
  }

  lemma Concat4(a: string, b: string, c: string, d: string)
    ensures a + (b + c + d) == (a + b) + c + d
  {
  }

  lemma ApplyAroundName(h: string, rest: string, p: Step)
    requires BraceFree(Pattern(p)) && |Pattern(p)| > 0
    ensures Apply(Hole(h) + rest, p) == ['{'] + Apply(h, p) + ['}'] + Apply(rest, p)
  {
    assert Hole(h) + rest == "" + ['{'] + (h + ['}'] + rest);
    ApplyAcrossBrace("", '{', h + ['}'] + rest, p);
    ApplyAcrossBrace(h, '}', rest, p);
  }

  /** A hole's tail at the front of the result was already at the front of the input. */
  lemma {:induction false} HoleTailSurvives(q: string, r: string, p: Step)
    requires BraceFree(Pattern(p)) && |Pattern(p)| > 0 && BraceFree(q)
    requires q + ['}'] <= Apply(r, p)
    ensures q + ['}'] <= r
    decreases |r|
  {
    var v, t := Pattern(p), q + ['}'];
    if |r| >= |v| {
      var out := Apply(r, p);
      assert t[|q|] == '}';
      assert Lifted(p)[|p.lead|] == '{';
      assert |q| < |p.lead| ==> v[|q|] == Lifted(p)[|q|];
      assert |q| > |p.lead| ==> t[|p.lead|] == q[|p.lead|];
      if !(v <= r) {
        assert out == [r[0]] + Apply(r[1..], p);
        if |q| > 0 {
          assert q[0] == t[0] == r[0];
          assert t[1..] == q[1..] + ['}'];
          HoleTailSurvives(q[1..], r[1..], p);
        }
      }
    }
  }

  /** What follows an opening brace that starts no hole still starts none after the replacement. */
  lemma NoNewHole(s: string, p: Step)
    requires BraceFree(Pattern(p)) && |Pattern(p)| > 0
    requires |s| > 0 && HoleAt(s).None?
    ensures HoleAt([s[0]] + Apply(s[1..], p)).None?
  {
    var t := [s[0]] + Apply(s[1..], p);
    if HoleAt(t).Some? {
      var g := HoleAt(t).value;
      TailOfHole(s[0], Apply(s[1..], p), g);
      HoleTailSurvives(g, s[1..], p);
      HoleFromTail(s, g);
    }
  }

  lemma TailOfHole(c: char, more: string, g: string)
    requires HoleAt([c] + more) == Some(g)
    ensures c == '{' && BraceFree(g) && IsIdent(g) && g + ['}'] <= more
  {
    var t := [c] + more;
    SplitHole(t);
    assert t[1..] == more && t[1..] == g + ['}'] + t[|g| + 2..];
  }

  lemma HoleFromTail(s: string, g: string)
    requires |s| > 0 && s[0] == '{' && IsIdent(g) && g + ['}'] <= s[1..]
    ensures HoleAt(s) == Some(g)
  {
    assert Hole(g) == ['{'] + (g + ['}']) && s == [s[0]] + s[1..];
    HoleAtFinds(s, g);
  }

  /** The result starts, up to its first inserted brace, with brace-free text. */
  lemma {:induction false} FirstInsertion(a: string, p: Step) returns (k: nat)
    requires BraceFree(a) && BraceFree(p.lead) && |Pattern(p)| > 0 && Contains(a, Pattern(p))
    ensures k < |Apply(a, p)| && Apply(a, p)[k] == '{' && BraceFree(Apply(a, p)[..k])
    decreases |a|
  {
    var v := Pattern(p);
    if v <= a {
      k := |p.lead|;
      assert Apply(a, p)[..k] == p.lead;
    } else {
      k := FirstInsertion(a[1..], p);
      ContainsFits(a[1..], v);
      assert Apply(a, p) == [a[0]] + Apply(a[1..], p);
      assert Apply(a, p)[..k + 1] == [a[0]] + Apply(a[1..], p)[..k];
      k := k + 1;
    }
  }

  lemma {:induction false} ContainsFits(s: string, v: string)
    requires Contains(s, v)
    ensures |v| <= |s|
  {
    if !(v <= s) {
      ContainsFits(s[1..], v);
    }
  }

  // ---- undoing one replacement ----

  lemma LiftedUndone(more: string, p: Step, b: Bindings)
    requires Usable(p, b)
    ensures Interpolate(Lifted(p) + more, b) == Pattern(p) + Interpolate(more, b)
  {
    assert Lifted(p) + more == p.lead + (Hole(p.name) + more);
    InterpolateLiteral(p.lead, Hole(p.name) + more, b);
    InterpolateHole(p.name, more, b);
  }

  lemma {:induction false} LiteralUndone(a: string, rest: string, p: Step, b: Bindings)
    requires BraceFree(a) && Usable(p, b)
    ensures Interpolate(Apply(a, p) + rest, b) == a + Interpolate(rest, b)
    decreases |a|
  {
    var v, x := Pattern(p), Interpolate(rest, b);
    if |a| < |v| {
      InterpolateLiteral(a, rest, b);
    } else if v <= a {
      var tail := a[|v|..];
      LiteralUndone(tail, rest, p, b);
      Concat3(Lifted(p), Apply(tail, p), rest);
      LiftedUndone(Apply(tail, p) + rest, p, b);
      Concat3(v, tail, x);
      assert v + tail == a;
    } else {
      LiteralUndone(a[1..], rest, p, b);
      CharUndone(a[0], Apply(a[1..], p), a[1..], rest, b);
      assert [a[0]] + a[1..] == a;
    }
  }

  lemma CharUndone(c: char, lifted: string, plain: string, rest: string, b: Bindings)
    requires c != '{' && Interpolate(lifted + rest, b) == plain + Interpolate(rest, b)
    ensures Interpolate([c] + lifted + rest, b) == [c] + plain + Interpolate(rest, b)
  {
    InterpolateLiteral([c], lifted + rest, b);
    Concat3([c], lifted, rest);
    Concat3([c], plain, Interpolate(rest, b));
  }

  lemma BrokenIsNoHole(h: string, rest: string, p: Step)
    requires BraceFree(h) && BraceFree(p.lead) && |Pattern(p)| > 0 && Contains(h, Pattern(p))
    ensures HoleAt(['{'] + Apply(h, p) + ['}'] + rest).None?
  {
    var k := FirstInsertion(h, p);
    OpensTwice(Apply(h, p), rest, k);
  }

  /** A brace opened again before anything closes starts no hole. */
  lemma OpensTwice(x: string, rest: string, k: nat)
    requires k < |x| && x[k] == '{' && BraceFree(x[..k])
    ensures HoleAt(['{'] + x + ['}'] + rest).None?
  {
    var s := ['{'] + x + ['}'] + rest;
    assert s[1..] == x + ['}'] + rest;
    var n := IdentRun(s[1..]);
    assert s[1..][k] == '{';
    assert n <= k;
    assert n < k ==> s[1..][n] == x[..k][n];
  }

  /** A hole broken by a replacement reads back as its own literal text. */
  lemma BrokenHole(h: string, rest: string, p: Step, b: Bindings)
    requires BraceFree(h) && Usable(p, b) && Contains(h, Pattern(p))
    ensures Interpolate(['{'] + Apply(h, p) + ['}'] + rest, b) == Hole(h) + Interpolate(rest, b)
  {
    BrokenIsNoHole(h, rest, p);
    LiteralUndone(h, ['}'] + rest, p, b);
    InterpolateLiteral(['}'], rest, b);
    OpenBraceStays(Apply(h, p), rest, b);
    Rebuilt(h, Interpolate(rest, b));
  }

  lemma OpenBraceStays(x: string, rest: string, b: Bindings)
    requires HoleAt(['{'] + x + ['}'] + rest).None?
    ensures Interpolate(['{'] + x + ['}'] + rest, b) == ['{'] + Interpolate(x + (['}'] + rest), b)
  {
    assert (['{'] + x + ['}'] + rest)[1..] == x + (['}'] + rest);
  }

  lemma Rebuilt(h: string, more: string)
    ensures ['{'] + (h + (['}'] + more)) == Hole(h) + more
  {
  }

  ghost predicate PlainValues(b: Bindings) {
    forall n | n in b :: BraceFree(b[n])
  }

  lemma {:induction false} HitsSkipsLiteral(lit: string, rest: string, p: Step, b: Bindings)
    requires BraceFree(lit)
    ensures HitsBoundHole(lit + rest, p, b) == HitsBoundHole(rest, p, b)
  {
    if |lit| == 0 {
      assert lit + rest == rest;
    } else {
      assert (lit + rest)[1..] == lit[1..] + rest;
      HitsSkipsLiteral(lit[1..], rest, p, b);
    }
  }

  /** What one replacement does to the interpolated text: nothing, or it leaves at least one extra brace. */
  ghost predicate Undone(s: string, t: string, hits: bool, b: Bindings) {
    && (!hits ==> Interpolate(t, b) == Interpolate(s, b))
    && (PlainValues(b) ==> Opens(Interpolate(t, b)) >= Opens(Interpolate(s, b)) + (if hits then 1 else 0))
  }

  lemma {:induction false} StepEffect(s: string, p: Step, b: Bindings)
    requires Usable(p, b)
    ensures Undone(s, Apply(s, p), HitsBoundHole(s, p, b), b)
    decreases |s|, 1
  {
    if |s| == 0 {
    } else if HoleAt(s).Some? {
      HoleStepEffect(s, p, b);
    } else if Pattern(p) <= s {
      LiftStepEffect(s, p, b);
    } else {
      StepEffect(s[1..], p, b);
      NoNewHole(s, p);
      var t := [s[0]] + Apply(s[1..], p);
      assert Apply(s, p) == t;
      assert t[1..] == Apply(s[1..], p);
    }
  }

  lemma {:induction false} LiftStepEffect(s: string, p: Step, b: Bindings)
    requires Usable(p, b) && Pattern(p) <= s
    ensures Undone(s, Apply(s, p), HitsBoundHole(s, p, b), b)
    decreases |s|, 0
  {
    var v := Pattern(p);
    var rest := s[|v|..];
    var more := Apply(rest, p);
    assert s == v + rest;
    InterpolateLiteral(v, rest, b);
    HitsSkipsLiteral(v, rest, p, b);
    StepEffect(rest, p, b);
    LiftedUndone(more, p, b);
    assert Apply(s, p) == Lifted(p) + more;
    OpensConcat(v, Interpolate(rest, b));
    OpensConcat(v, Interpolate(more, b));
  }

  lemma {:induction false} HoleStepEffect(s: string, p: Step, b: Bindings)
    requires Usable(p, b) && HoleAt(s).Some?
    ensures Undone(s, Apply(s, p), HitsBoundHole(s, p, b), b)
    decreases |s|, 0
  {
    var h := HoleAt(s).value;
    var rest := s[|h| + 2..];
    SplitHole(s);
    ApplyAroundName(h, rest, p);
    StepEffect(rest, p, b);
    var more := Apply(rest, p);
    var value := if h in b then b[h] else Hole(h);
    OpensConcat(value, Interpolate(rest, b));
    if Contains(h, Pattern(p)) {
      BrokenHole(h, more, p, b);
      OpensConcat(Hole(h), Interpolate(more, b));
      OpensConcat(['{'], h + ['}']);
      assert Hole(h) == ['{'] + (h + ['}']);
      if h in b && PlainValues(b) {
        OpensBraceFree(value);
      }
    } else {
      ReplaceAbsent(h, Pattern(p), Lifted(p));
      assert Apply(s, p) == Hole(h) + more;
      InterpolateHole(h, more, b);
      OpensConcat(value, Interpolate(more, b));
    }
  }

  // ---- a whole run of replacements ----

  /** Every replacement in turn, in the order given. */
  function Lift(s: string, steps: seq<Step>): string
    requires forall p | p in steps :: |Pattern(p)| > 0
    decreases |steps|
  {
    if |steps| == 0 then s else Lift(Apply(s, steps[0]), steps[1..])
  }

  ghost predicate AllUsable(steps: seq<Step>, b: Bindings) {
    forall i | 0 <= i < |steps| :: Usable(steps[i], b)
  }

  /** Some replacement of the run finds its text inside the name of a hole that is bound. */
  ghost predicate HitsAlong(s: string, steps: seq<Step>, b: Bindings)
    requires AllUsable(steps, b)
    decreases |steps|
  {
    |steps| > 0 && (HitsBoundHole(s, steps[0], b) || HitsAlong(Apply(s, steps[0]), steps[1..], b))
  }

  lemma {:induction false} LiftEffect(s: string, steps: seq<Step>, b: Bindings)
    requires AllUsable(steps, b)
    ensures Undone(s, Lift(s, steps), HitsAlong(s, steps, b), b)
    decreases |steps|
  {
    if |steps| > 0 {
      StepEffect(s, steps[0], b);
      LiftEffect(Apply(s, steps[0]), steps[1..], b);
    }
  }

  /** Lifting is undone by interpolation exactly when no replacement of the run breaks a bound hole. */
  lemma LiftRoundTrip(s: string, steps: seq<Step>, b: Bindings)
    requires AllUsable(steps, b) && PlainValues(b)
    ensures Interpolate(Lift(s, steps), b) == Interpolate(s, b) <==> !HitsAlong(s, steps, b)
  {
    LiftEffect(s, steps, b);
  }

  /** After a replacement, the only new name a later pattern can hit is the inserted one. */
  lemma {:induction false} HitsAfter(s: string, p: Step, q: Step, b: Bindings)
    requires Usable(p, b) && HitsBoundHole(Apply(s, p), q, b)
    ensures HitsBoundHole(s, q, b) || Contains(p.name, Pattern(q))
    decreases |s|
  {
    var v := Pattern(p);
    if |s| == 0 {
    } else if HoleAt(s).Some? {
      var h := HoleAt(s).value;
      HitsAfterHole(s, h, p, q, b);
      if HitsBoundHole(Apply(s[|h| + 2..], p), q, b) {
        HitsAfter(s[|h| + 2..], p, q, b);
      }
    } else if v <= s {
      var rest := s[|v|..];
      assert s == v + rest && Apply(s, p) == Lifted(p) + Apply(rest, p);
      HitsSkipsLiteral(v, rest, q, b);
      HitsInLifted(Apply(rest, p), p, q, b);
      if HitsBoundHole(Apply(rest, p), q, b) {
        HitsAfter(rest, p, q, b);
      }
    } else {
      NoNewHole(s, p);
      HitsAfterChar(s[0], Apply(s[1..], p), q, b);
      HitsAfter(s[1..], p, q, b);
    }
  }

  lemma HitsAfterChar(c: char, more: string, q: Step, b: Bindings)
    requires HoleAt([c] + more).None?
    ensures HitsBoundHole([c] + more, q, b) == HitsBoundHole(more, q, b)
  {
    assert ([c] + more)[1..] == more;
  }

  /** At a hole of the input: a later hit is in the hole's own name, in the inserted one, or further on. */
  lemma HitsAfterHole(s: string, h: string, p: Step, q: Step, b: Bindings)
    requires Usable(p, b) && HoleAt(s) == Some(h) && HitsBoundHole(Apply(s, p), q, b)
    ensures HitsBoundHole(s, q, b) || Contains(p.name, Pattern(q)) || HitsBoundHole(Apply(s[|h| + 2..], p), q, b)
  {
    var more := Apply(s[|h| + 2..], p);
    SplitHole(s);
    ApplyAroundName(h, s[|h| + 2..], p);
    if Contains(h, Pattern(p)) {
      HitsInBroken(h, more, p, q, b);
    } else {
      ReplaceAbsent(h, Pattern(p), Lifted(p));
      assert Apply(s, p) == Hole(h) + more;
      HoleAtFinds(Hole(h) + more, h);
      assert (Hole(h) + more)[|h| + 2..] == more;
    }
  }

  lemma HitsInLifted(more: string, p: Step, q: Step, b: Bindings)
    requires Usable(p, b) && HitsBoundHole(Lifted(p) + more, q, b)
    ensures Contains(p.name, Pattern(q)) || HitsBoundHole(more, q, b)
  {
    var t := Hole(p.name) + more;
    assert Lifted(p) + more == p.lead + t;
    HitsSkipsLiteral(p.lead, t, q, b);
    HoleAtFinds(t, p.name);
    assert t[|p.name| + 2..] == more;
  }

  lemma {:induction false} HitsInLiteral(a: string, rest: string, p: Step, q: Step, b: Bindings)
    requires BraceFree(a) && Usable(p, b) && HitsBoundHole(Apply(a, p) + rest, q, b)
    ensures Contains(p.name, Pattern(q)) || HitsBoundHole(rest, q, b)
    decreases |a|
  {
    var v := Pattern(p);
    if |a| < |v| {
      HitsSkipsLiteral(a, rest, q, b);
    } else if v <= a {
      var more := Apply(a[|v|..], p) + rest;
      assert Apply(a, p) + rest == Lifted(p) + more;
      HitsInLifted(more, p, q, b);
      if HitsBoundHole(more, q, b) {
        HitsInLiteral(a[|v|..], rest, p, q, b);
      }
    } else {
      var more := Apply(a[1..], p) + rest;
      assert Apply(a, p) + rest == [a[0]] + more;
      HitsSkipsLiteral([a[0]], more, q, b);
      HitsInLiteral(a[1..], rest, p, q, b);
    }
  }

  lemma HitsInBroken(h: string, rest: string, p: Step, q: Step, b: Bindings)
    requires BraceFree(h) && Usable(p, b) && Contains(h, Pattern(p))
    requires HitsBoundHole(['{'] + Apply(h, p) + ['}'] + rest, q, b)
    ensures Contains(p.name, Pattern(q)) || HitsBoundHole(rest, q, b)
  {
    BrokenIsNoHole(h, rest, p);
    var s := ['{'] + Apply(h, p) + ['}'] + rest;
    assert s[1..] == Apply(h, p) + (['}'] + rest);
    HitsInLiteral(h, ['}'] + rest, p, q, b);
    if HitsBoundHole(['}'] + rest, q, b) {
      assert (['}'] + rest)[1..] == rest;
    }
  }

  /**
   * A condition on the inputs alone: no value occurs in the name of a bound hole of the text, nor in the name
   * of a hole inserted before it.
   */
  ghost predicate NamesClearOfValues(s: string, steps: seq<Step>, b: Bindings) {
    && (forall j | 0 <= j < |steps| :: !HitsBoundHole(s, steps[j], b))
    && (forall i, j | 0 <= i < j < |steps| :: !Contains(steps[i].name, Pattern(steps[j])))
  }

  lemma {:induction false} ClearNamesNeverHit(s: string, steps: seq<Step>, b: Bindings)
    requires AllUsable(steps, b) && NamesClearOfValues(s, steps, b)
    ensures !HitsAlong(s, steps, b)
    decreases |steps|
  {
    if |steps| > 0 {
      var t, more := Apply(s, steps[0]), steps[1..];
      forall j | 0 <= j < |more| ensures !HitsBoundHole(t, more[j], b) {
        assert more[j] == steps[j + 1];
        if HitsBoundHole(t, more[j], b) {
          HitsAfter(s, steps[0], more[j], b);
        }
      }
      ClearNamesNeverHit(t, more, b);
    }
  }

  lemma {:induction false} HitIsInAName(s: string, p: Step, b: Bindings)
    requires HitsBoundHole(s, p, b)
    ensures exists n :: n in b && IsIdent(n) && Contains(n, Pattern(p))
    decreases |s|
  {
    match HoleAt(s)
    case Some(h) =>
      if !(h in b && Contains(h, Pattern(p))) {
        HitIsInAName(s[|h| + 2..], p, b);
      }
    case None => HitIsInAName(s[1..], p, b);
  }

  /** A bound hole whose name contains a value stands until the first step that finds its value in the name. */
  lemma {:induction false} HoleIsHit(n: string, steps: seq<Step>, b: Bindings, i: nat)
    requires AllUsable(steps, b) && n in b && IsIdent(n) && i < |steps| && Contains(n, Pattern(steps[i]))
    ensures HitsAlong(Hole(n), steps, b)
    decreases i
  {
    var p := steps[0];
    assert Usable(p, b);
    HoleAtFinds(Hole(n), n);
    if !Contains(n, Pattern(p)) {
      ReplaceAbsent(n, Pattern(p), Lifted(p));
      ApplyAroundName(n, "", p);
      assert Apply(Hole(n), p) == Hole(n) by {
        assert Hole(n) + "" == Hole(n) && ['{'] + n + ['}'] + "" == Hole(n);
      }
      assert steps[1..][i - 1] == steps[i];
      HoleIsHit(n, steps[1..], b, i - 1);
    }
  }

  /** The lifted text resolves as the text does. */
  ghost predicate RoundTrips(text: string, steps: seq<Step>, b: Bindings)
    requires AllUsable(steps, b)
  {
    Interpolate(Lift(text, steps), b) == Interpolate(text, b)
  }

  /** Every text makes the round trip exactly when no name of a bound hole contains a replaced text. */
  lemma RoundTripsIff(steps: seq<Step>, b: Bindings)
    requires AllUsable(steps, b) && PlainValues(b)
    ensures (forall text :: RoundTrips(text, steps, b)) <==>
      forall n, i | n in b && IsIdent(n) && 0 <= i < |steps| :: !Contains(n, Pattern(steps[i]))
  {
    forall n, i | n in b && IsIdent(n) && 0 <= i < |steps| && Contains(n, Pattern(steps[i])) ensures !RoundTrips(Hole(n), steps, b) {
      HoleIsHit(n, steps, b, i);
      LiftRoundTrip(Hole(n), steps, b);
    }
    if forall n, i | n in b && IsIdent(n) && 0 <= i < |steps| :: !Contains(n, Pattern(steps[i])) {
      forall text ensures RoundTrips(text, steps, b) {
        NamesAreClear(text, steps, b);
        ClearNamesNeverHit(text, steps, b);
        LiftRoundTrip(text, steps, b);
      }
    }
  }

  lemma NamesAreClear(text: string, steps: seq<Step>, b: Bindings)
    requires AllUsable(steps, b)
    requires forall n, i | n in b && IsIdent(n) && 0 <= i < |steps| :: !Contains(n, Pattern(steps[i]))
    ensures NamesClearOfValues(text, steps, b)
  {
    forall j | 0 <= j < |steps| ensures !HitsBoundHole(text, steps[j], b) {
      if HitsBoundHole(text, steps[j], b) {
        HitIsInAName(text, steps[j], b);
      }
    }
    forall i, j | 0 <= i < j < |steps| ensures !Contains(steps[i].name, Pattern(steps[j])) {
      assert Usable(steps[i], b);
    }
  }

  // ---- nothing bound is left behind ----

  lemma {:induction false} ContainsSuffix(a: string, rest: string, v: string)
    requires Contains(rest, v)
    ensures Contains(a + rest, v)
  {
    if |a| > 0 {
      ContainsSuffix(a[1..], rest, v);
      assert (a + rest)[1..] == a[1..] + rest;
    } else {
      assert a + rest == rest;
    }
  }

  lemma {:induction false} ContainsInside(a: string, b: string, v: string)
    requires Contains(a, v)
    ensures Contains(a + b, v)
    decreases |a|
  {
    if v <= a {
      assert v <= a + b;
    } else {
      assert (a + b)[1..] == a[1..] + b;
      ContainsInside(a[1..], b, v);
    }
  }

  /** A brace-free text occurs on one side of a brace or the other. */
  lemma {:induction false} BraceSeparates(a: string, c: char, rest: string, v: string)
    requires BraceFree(v) && |v| > 0 && (c == '{' || c == '}') && Contains(a + [c] + rest, v)
    ensures Contains(a, v) || Contains(rest, v)
    decreases |a|
  {
    var s := a + [c] + rest;
    assert s[|a|] == c;
    if |a| == 0 {
      assert s[1..] == rest;
    } else if v <= s {
      assert v <= a;
    } else {
      assert s[1..] == a[1..] + [c] + rest;
      BraceSeparates(a[1..], c, rest, v);
    }
  }

  lemma ApplyStarts(s: string, p: Step)
    requires |p.value| > 0
    ensures |Pattern(p)| > 0
    ensures Apply(s, p)
      == if |s| < |Pattern(p)| then s
         else if Pattern(p) <= s then p.lead + Hole(p.name) + Apply(s[|Pattern(p)|..], p)
         else [s[0]] + Apply(s[1..], p)
  {
    assert Lifted(p) == p.lead + Hole(p.name);
  }

  /** What a text begins with before its first hole it began with before the replacement. */
  lemma {:induction false} PlainPrefixSurvives(v: string, r: string, p: Step)
    requires BraceFree(v) && |p.value| > 0 && v <= Apply(r, p)
    ensures v <= r && v != Pattern(p)
    decreases |r|
  {
    ApplyStarts(r, p);
    if |r| >= |Pattern(p)| {
      if Pattern(p) <= r {
        var more := Apply(r[|Pattern(p)|..], p);
        assert (p.lead + Hole(p.name) + more)[|p.lead|] == '{';
        assert v <= p.lead <= Pattern(p);
      } else if |v| > 0 {
        assert [r[0]] + Apply(r[1..], p) == Apply(r, p);
        PlainPrefixSurvives(v[1..], r[1..], p);
      }
    }
  }

  /** An occurrence of a brace-free text is not in the hole, so it is in front of it or after it. */
  lemma OccursBesideHole(lead: string, name: string, more: string, v: string)
    requires BraceFree(v) && |v| > 0 && !Contains(name, v) && Contains(lead + Hole(name) + more, v)
    ensures Contains(lead, v) || Contains(more, v)
  {
    assert lead + Hole(name) + more == lead + ['{'] + (name + ['}'] + more);
    BraceSeparates(lead, '{', name + ['}'] + more, v);
    if Contains(name + ['}'] + more, v) {
      BraceSeparates(name, '}', more, v);
    }
  }

  lemma ContainedAfter(s: string, u: string, v: string)
    requires u <= s && Contains(s[|u|..], v)
    ensures Contains(s, v)
  {
    assert s == u + s[|u|..];
    ContainsSuffix(u, s[|u|..], v);
  }

  lemma ContainedBefore(s: string, u: string, v: string)
    requires u <= s && Contains(u, v)
    ensures Contains(s, v) && |v| <= |u|
  {
    assert s == u + s[|u|..];
    ContainsInside(u, s[|u|..], v);
    ContainsFits(u, v);
  }

  /** Replacing one text never creates an occurrence of another, and leaves none of its own. */
  lemma {:induction false} NoNewOccurrence(s: string, p: Step, v: string)
    requires BraceFree(v) && |v| > 0 && |p.value| > 0 && !Contains(p.name, v)
    requires Contains(Apply(s, p), v)
    ensures Contains(s, v) && v != Pattern(p)
    decreases |s|
  {
    var u := Pattern(p);
    ApplyStarts(s, p);
    if |s| < |u| {
      ContainsFits(s, v);
    } else if u <= s {
      var rest := s[|u|..];
      OccursBesideHole(p.lead, p.name, Apply(rest, p), v);
      if Contains(p.lead, v) {
        ContainedBefore(s, p.lead, v);
      } else {
        NoNewOccurrence(rest, p, v);
        ContainedAfter(s, u, v);
      }
    } else if v <= Apply(s, p) {
      PlainPrefixSurvives(v, s, p);
    } else {
      var more := Apply(s[1..], p);
      assert ([s[0]] + more)[1..] == more;
      NoNewOccurrence(s[1..], p, v);
    }
  }

  lemma {:induction false} GoneStaysGone(s: string, steps: seq<Step>, v: string)
    requires forall i | 0 <= i < |steps| :: steps[i].lead == "" && |steps[i].value| > 0 && !Contains(steps[i].name, v)
    requires BraceFree(v) && |v| > 0 && !Contains(s, v)
    ensures (forall p | p in steps :: |Pattern(p)| > 0) && !Contains(Lift(s, steps), v)
    decreases |steps|
  {
    if |steps| > 0 {
      var t := Apply(s, steps[0]);
      if Contains(t, v) {
        NoNewOccurrence(s, steps[0], v);
      }
      GoneStaysGone(t, steps[1..], v);
    }
  }

  /** Once a value has been replaced it occurs nowhere in the result, inside hole names included. */
  lemma {:induction false} NothingSurvives(s: string, steps: seq<Step>, k: nat)
    requires k < |steps| && BraceFree(steps[k].value)
    requires forall i | 0 <= i < |steps| :: steps[i].lead == "" && |steps[i].value| > 0
    requires forall i | k <= i < |steps| :: !Contains(steps[i].name, steps[k].value)
    ensures (forall p | p in steps :: |Pattern(p)| > 0) && !Contains(Lift(s, steps), steps[k].value)
    decreases |steps|
  {
    var v := steps[k].value;
    var t := Apply(s, steps[0]);
    if k == 0 {
      if Contains(t, v) {
        NoNewOccurrence(s, steps[0], v);
      }
      GoneStaysGone(t, steps[1..], v);
    } else {
      assert steps[1..][k - 1] == steps[k];
      forall i | k - 1 <= i < |steps[1..]| ensures !Contains(steps[1..][i].name, v) {
        assert steps[1..][i] == steps[i + 1];
      }
      NothingSurvives(t, steps[1..], k - 1);
    }
  }

  // ---- exactly when nothing bound is left behind ----

  /** Replacements as `templatizeText` makes them: nothing in front of the value, and no brace in it. */
  ghost predicate AllPlain(steps: seq<Step>) {
    forall i | 0 <= i < |steps| :: steps[i].lead == "" && |steps[i].value| > 0 && BraceFree(steps[i].value)
  }

  lemma PlainPatterns(steps: seq<Step>)
    requires AllPlain(steps)
    ensures forall p | p in steps :: Pattern(p) == p.value && |Pattern(p)| > 0 && Lifted(p) == Hole(p.name)
  {
  }

  /** Lifting the text leaves the value somewhere in the result. */
  ghost predicate Leaves(text: string, steps: seq<Step>, v: string)
    requires AllPlain(steps)
  {
    PlainPatterns(steps);
    Contains(Lift(text, steps), v)
  }

  /** Lifting works on both sides of a brace separately. */
  lemma {:induction false} LiftAcrossBrace(a: string, c: char, rest: string, steps: seq<Step>)
    requires AllPlain(steps) && (c == '{' || c == '}')
    ensures (forall p | p in steps :: |Pattern(p)| > 0) && Lift(a + [c] + rest, steps) == Lift(a, steps) + [c] + Lift(rest, steps)
    decreases |steps|
  {
    PlainPatterns(steps);
    if |steps| > 0 {
      assert steps[0] in steps;
      ApplyAcrossBrace(a, c, rest, steps[0]);
      LiftAcrossBrace(Apply(a, steps[0]), c, Apply(rest, steps[0]), steps[1..]);
    }
  }

  /** So what is left around a hole is left by the text before it, by its name, or by the text after it. */
  lemma LeavesAroundHole(a: string, name: string, c: string, steps: seq<Step>, v: string)
    requires AllPlain(steps) && BraceFree(v) && |v| > 0
    ensures Leaves(a + Hole(name) + c, steps, v) ==> Leaves(a, steps, v) || Leaves(name, steps, v) || Leaves(c, steps, v)
    ensures Leaves(name, steps, v) ==> Leaves(a + Hole(name) + c, steps, v)
  {
    var rest := name + ['}'] + c;
    assert a + Hole(name) + c == a + ['{'] + rest;
    LiftAcrossBrace(a, '{', rest, steps);
    LiftAcrossBrace(name, '}', c, steps);
    var x, y, z := Lift(a, steps), Lift(name, steps), Lift(c, steps);
    if Leaves(a + Hole(name) + c, steps, v) {
      BraceSeparates(x, '{', y + ['}'] + z, v);
      if Contains(y + ['}'] + z, v) {
        BraceSeparates(y, '}', z, v);
      }
    }
    if Leaves(name, steps, v) {
      ContainsInside(y, ['}'] + z, v);
      assert y + (['}'] + z) == y + ['}'] + z;
      ContainsSuffix(x + ['{'], y + ['}'] + z, v);
    }
  }

  lemma ReplaceFromNext(s: string, u: string, w: string)
    requires |u| > 0 && Contains(s, u) && !(u <= s)
    ensures |s| > 0 && Contains(s[1..], u) && ReplaceAll(s, u, w) == [s[0]] + ReplaceAll(s[1..], u, w)
  {
    ContainsFits(s, u);
  }

  lemma OneMoreInFront(x: char, b: string, u: string, c: string)
    ensures [x] + (b + u + c) == ([x] + b) + u + c
    ensures !Contains(b, u) && !(u <= [x] + (b + u + c)) ==> !Contains([x] + b, u)
  {
    var a := [x] + b;
    assert [x] + (b + u + c) == a + u + c && a[1..] == b && a <= a + (u + c);
    assert a + u + c == a + (u + c);
  }

  /** The first occurrence of a value, and the replacement of all of them. */
  lemma {:induction false} FirstOccurrence(s: string, u: string, w: string) returns (a: string, c: string)
    requires |u| > 0 && Contains(s, u)
    ensures s == a + u + c && !Contains(a, u) && ReplaceAll(s, u, w) == a + w + ReplaceAll(c, u, w)
    decreases |s|
  {
    if u <= s {
      a, c := "", s[|u|..];
    } else {
      ReplaceFromNext(s, u, w);
      var x, t, b := s[0], s[1..], "";
      b, c := FirstOccurrence(t, u, w);
      a := [x] + b;
      assert s == [x] + t;
      OneMoreInFront(x, b, u, c);
      OneMoreInFront(x, b, w, ReplaceAll(c, u, w));
    }
  }

  /** No earlier value occurs in this one, so the earlier replacements leave it to its own. */
  ghost predicate Untouched(steps: seq<Step>, m: nat)
    requires m < |steps|
  {
    forall i | 0 <= i < m :: !Contains(steps[m].value, steps[i].value)
  }

  /** The hole this step inserts comes out of the later replacements with the value in it. */
  ghost predicate Carries(steps: seq<Step>, m: nat, v: string)
    requires AllPlain(steps) && m < |steps|
  {
    Leaves(steps[m].name, steps[m + 1..], v)
  }

  lemma NotInPart(a: string, u: string, c: string, d: string)
    requires !Contains(a + u + c, d)
    ensures !Contains(a, d) && !Contains(u, d) && !Contains(c, d)
  {
    if Contains(a, d) {
      ContainsInside(a, u, d);
      ContainsInside(a + u, c, d);
    }
    if Contains(u, d) {
      ContainsSuffix(a, u, d);
      ContainsInside(a + u, c, d);
    }
    if Contains(c, d) {
      ContainsSuffix(a + u, c, d);
    }
  }

  /** What is left of a replaced value was carried there by a step that acted on the text itself. */
  lemma {:induction false} Carrier(s: string, gone: set<string>, steps: seq<Step>, v: string) returns (m: nat)
    requires AllPlain(steps) && BraceFree(v) && |v| > 0 && (forall d | d in gone :: !Contains(s, d))
    requires v in gone || exists k :: 0 <= k < |steps| && steps[k].value == v
    requires Leaves(s, steps, v)
    ensures m < |steps| && Carries(steps, m, v) && Untouched(steps, m) && forall d | d in gone :: !Contains(steps[m].value, d)
    decreases |steps|, |s|
  {
    assert |steps| > 0;
    var p, rest := steps[0], steps[1..];
    var u := p.value;
    PlainPatterns(steps);
    assert p in steps;
    assert v in gone + {u} || exists k :: 0 <= k < |rest| && rest[k].value == v by {
      if v !in gone && v != u {
        var k :| 0 <= k < |steps| && steps[k].value == v;
        assert rest[k - 1] == steps[k];
      }
    }
    if !Contains(s, u) {
      ReplaceAbsent(s, u, Hole(p.name));
      m := CarrierLater(s, gone, steps, v);
    } else {
      var a, c := FirstOccurrence(s, u, Hole(p.name));
      forall d | d in gone ensures !Contains(a, d) && !Contains(u, d) && !Contains(c, d) {
        NotInPart(a, u, c, d);
      }
      LeavesAroundHole(a, p.name, Apply(c, p), rest, v);
      if Leaves(p.name, rest, v) {
        m := 0;
      } else if Leaves(a, rest, v) {
        m := CarrierLater(a, gone, steps, v);
      } else {
        m := Carrier(c, gone, steps, v);
      }
    }
  }

  /** The same for a text the first step finds nothing in. */
  lemma {:induction false} CarrierLater(s: string, gone: set<string>, steps: seq<Step>, v: string) returns (m: nat)
    requires AllPlain(steps) && |steps| > 0 && BraceFree(v) && |v| > 0
    requires (forall d | d in gone :: !Contains(s, d)) && !Contains(s, steps[0].value)
    requires v in gone + {steps[0].value} || exists k :: 0 <= k < |steps[1..]| && steps[1..][k].value == v
    requires Leaves(s, steps[1..], v)
    ensures m < |steps| && Carries(steps, m, v) && Untouched(steps, m) && forall d | d in gone :: !Contains(steps[m].value, d)
    decreases |steps| - 1, |s| + 1
  {
    var rest, u := steps[1..], steps[0].value;
    var n := Carrier(s, gone + {u}, rest, v);
    m := n + 1;
    assert rest[n] == steps[m] && rest[n + 1..] == steps[m + 1..];
    forall i | 0 <= i < m ensures !Contains(steps[m].value, steps[i].value) {
      if i > 0 {
        assert rest[i - 1] == steps[i];
      }
    }
  }

  lemma AfterFirst(s: string, steps: seq<Step>, v: string)
    requires AllPlain(steps) && |steps| > 0
    ensures AllPlain(steps[1..]) && |Pattern(steps[0])| > 0
    ensures Leaves(s, steps, v) <==> Leaves(Apply(s, steps[0]), steps[1..], v)
  {
    PlainPatterns(steps);
    assert steps[0] in steps;
  }

  lemma ValueBecomesHole(p: Step)
    requires p.lead == "" && |p.value| > 0
    ensures |Pattern(p)| > 0 && Apply(p.value, p) == Hole(p.name)
  {
    ApplyStarts(p.value, p);
    ApplyStarts("", p);
    assert p.value[|p.value|..] == "" && Hole(p.name) + "" == Hole(p.name);
  }

  lemma LeavesAlone(s: string, p: Step)
    requires p.lead == "" && |p.value| > 0 && !Contains(s, p.value)
    ensures |Pattern(p)| > 0 && Apply(s, p) == s
  {
    assert Pattern(p) == p.value;
    ReplaceAbsent(s, p.value, Lifted(p));
  }

  /** An untouched value is turned into its hole, and the hole into whatever the later replacements make of it. */
  lemma {:induction false} OwnValueLifts(steps: seq<Step>, m: nat, u: string, v: string)
    requires AllPlain(steps) && m < |steps| && u == steps[m].value && Untouched(steps, m) && Carries(steps, m, v)
    requires BraceFree(v) && |v| > 0
    ensures Leaves(u, steps, v)
    decreases m
  {
    var p, rest := steps[0], steps[1..];
    AfterFirst(u, steps, v);
    if m == 0 {
      ValueBecomesHole(p);
      LeavesAroundHole("", p.name, "", rest, v);
      assert "" + Hole(p.name) + "" == Hole(p.name);
    } else {
      LeavesAlone(u, p);
      assert rest[m - 1] == steps[m] && rest[m..] == steps[m + 1..];
      assert forall i | 0 <= i < m - 1 :: rest[i] == steps[i + 1];
      OwnValueLifts(rest, m - 1, u, v);
    }
  }

  /**
   * A replaced value is gone from every text, if and only if no hole that can be inserted into a text carries it, and
   * if and only if it is gone from the few texts that are themselves values.
   */
  lemma ValueGoneIff(steps: seq<Step>, k: nat)
    requires AllPlain(steps) && k < |steps|
    ensures (forall text :: !Leaves(text, steps, steps[k].value)) <==>
      forall m | 0 <= m < |steps| && Untouched(steps, m) :: !Carries(steps, m, steps[k].value)
    ensures (forall text :: !Leaves(text, steps, steps[k].value)) <==>
      forall m | 0 <= m < |steps| :: !Leaves(steps[m].value, steps, steps[k].value)
  {
    var v := steps[k].value;
    forall text | Leaves(text, steps, v)
      ensures exists m :: 0 <= m < |steps| && Untouched(steps, m) && Carries(steps, m, v) && Leaves(steps[m].value, steps, v)
    {
      var m := Carrier(text, {}, steps, v);
      OwnValueLifts(steps, m, steps[m].value, v);
    }
    forall m | 0 <= m < |steps| && Untouched(steps, m) && Carries(steps, m, v) ensures Leaves(steps[m].value, steps, v) {
      OwnValueLifts(steps, m, steps[m].value, v);
    }
  }

  /** A hole inserted before the value's turn carries it only if one inserted at its turn or later does. */
  lemma {:induction false} CarrierFrom(steps: seq<Step>, k: nat, m: nat) returns (j: nat)
    requires AllPlain(steps) && k < |steps| && m < |steps| && Carries(steps, m, steps[k].value)
    ensures k <= j < |steps| && Carries(steps, j, steps[k].value)
    decreases |steps| - m
  {
    if m >= k {
      j := m;
    } else {
      var rest := steps[m + 1..];
      assert rest[k - m - 1] == steps[k];
      var n := Carrier(steps[m].name, {}, rest, steps[k].value);
      assert rest[n] == steps[m + 1 + n] && rest[n + 1..] == steps[m + 1 + n + 1..];
      j := CarrierFrom(steps, k, m + 1 + n);
    }
  }

  /** With distinct values, longest first, only the holes inserted from the value's turn on need be looked at. */
  lemma DistinctValueGoneIff(steps: seq<Step>, k: nat)
    requires AllPlain(steps) && k < |steps| && forall m | 0 <= m < |steps| :: Untouched(steps, m)
    ensures (forall text :: !Leaves(text, steps, steps[k].value)) <==>
      forall j | k <= j < |steps| :: !Carries(steps, j, steps[k].value)
  {
    ValueGoneIff(steps, k);
    forall m | 0 <= m < |steps| && Carries(steps, m, steps[k].value) ensures exists j :: k <= j < |steps| && Carries(steps, j, steps[k].value) {
      var j := CarrierFrom(steps, k, m);
    }
  }

  // ---- the two entry points ----

  /** The caller's bindings as JavaScript enumerates them. */
  type Entries = seq<(string, string)>

  ghost predicate Enumerates(entries: Entries, b: Bindings) {
    forall i | 0 <= i < |entries| :: entries[i].0 in b && b[entries[i].0] == entries[i].1
  }

  const URL_SPECIAL_BINDINGS: set<string> := {"host", "port", "fixture_root"}

  /** The entries `templatizeText` may replace: not handled positionally, and at least four characters long. */
  function Eligible(entries: Entries): (r: Entries)
    ensures forall e | e in r :: e in entries && |e.1| >= 4 && e.0 !in URL_SPECIAL_BINDINGS
    ensures forall e | e in entries && |e.1| >= 4 && e.0 !in URL_SPECIAL_BINDINGS :: e in r
  {
    if |entries| == 0 then []
    else if |entries[0].1| >= 4 && entries[0].0 !in URL_SPECIAL_BINDINGS
    then [entries[0]] + Eligible(entries[1..])
    else Eligible(entries[1..])
  }

  predicate LongerFirst(x: (string, string), y: (string, string)) {
    |x.1| >= |y.1|
  }

  function StepsOf(entries: Entries): (r: seq<Step>)
    ensures |r| == |entries|
    ensures forall i | 0 <= i < |entries| :: r[i] == Step(entries[i].0, "", entries[i].1)
  {
    seq(|entries|, i requires 0 <= i < |entries| => Step(entries[i].0, "", entries[i].1))
  }

  function Candidates(entries: Entries): seq<Step> {
    StepsOf(SortBy(Eligible(entries), LongerFirst))
  }

  lemma CandidatesAreEligible(entries: Entries)
    ensures forall p | p in Candidates(entries) :: p.lead == "" && |p.value| >= 4 && (p.name, p.value) in entries
  {
    var sorted := SortBy(Eligible(entries), LongerFirst);
    SortElements(Eligible(entries), LongerFirst);
    SameMembers(sorted, Eligible(entries));
    forall p | p in Candidates(entries) ensures p.lead == "" && |p.value| >= 4 && (p.name, p.value) in entries {
      var i :| 0 <= i < |sorted| && Candidates(entries)[i] == p;
      assert sorted[i] in sorted && sorted[i] == (p.name, p.value);
    }
  }

  lemma {:induction false} LiftOneMore(s: string, steps: seq<Step>, k: nat)
    requires k < |steps| && forall p | p in steps :: |Pattern(p)| > 0
    ensures Lift(s, steps[..k + 1]) == Apply(Lift(s, steps[..k]), steps[k])
    decreases k
  {
    if k > 0 {
      assert steps[..k + 1][1..] == steps[1..][..k] && steps[..k][1..] == steps[1..][..k - 1];
      LiftOneMore(Apply(s, steps[0]), steps[1..], k - 1);
    } else {
      assert steps[..1][1..] == [] && steps[..0] == [];
    }
  }

  method TemplatizeText(text: string, entries: Entries) returns (out: string)
    ensures forall p | p in Candidates(entries) :: |Pattern(p)| > 0
    ensures out == Lift(text, Candidates(entries))
  {
    CandidatesAreEligible(entries);
    var candidates := SortBy(Eligible(entries), LongerFirst);
    ghost var steps := Candidates(entries);
    out := text;
    for k := 0 to |candidates|
      invariant out == Lift(text, steps[..k])
    {
      var (name, value) := candidates[k];
      LiftOneMore(text, steps, k);
      assert steps[k] in steps && Pattern(steps[k]) == value && Lifted(steps[k]) == Hole(name);
      if Contains(out, value) {
        SplitJoin(out, value, Hole(name));
        out := Join(Split(out, value), Hole(name));
      } else {
        ReplaceAbsent(out, value, Hole(name));
      }
    }
    assert steps[..|candidates|] == steps;
  }

  /** No binding's name contains the value. */
  predicate NoNameContains(entries: Entries, v: string) {
    forall i | 0 <= i < |entries| :: !Contains(entries[i].0, v)
  }

  /** A bound value of four or more characters is nowhere in the lifted text, unless a binding's name contains it. */
  lemma NoValueSurvives(text: string, entries: Entries, e: (string, string))
    requires e in Eligible(entries) && BraceFree(e.1) && NoNameContains(entries, e.1)
    ensures forall p | p in Candidates(entries) :: |Pattern(p)| > 0
    ensures !Contains(Lift(text, Candidates(entries)), e.1)
  {
    var steps := Candidates(entries);
    var sorted := SortBy(Eligible(entries), LongerFirst);
    CandidatesAreEligible(entries);
    SortElements(Eligible(entries), LongerFirst);
    SameMembers(sorted, Eligible(entries));
    var k :| 0 <= k < |sorted| && sorted[k] == e;
    forall i | 0 <= i < |steps| ensures steps[i].lead == "" && |steps[i].value| > 0 && !Contains(steps[i].name, e.1) {
      assert steps[i] in steps;
      assert (steps[i].name, steps[i].value) in entries;
    }
    NothingSurvives(text, steps, k);
  }

  /** No value `templatizeText` may replace holds a brace. */
  ghost predicate PlainEntries(entries: Entries) {
    forall e | e in Eligible(entries) :: BraceFree(e.1)
  }

  /** Where an eligible entry stands among the replacements. */
  lemma CandidateOf(entries: Entries, e: (string, string)) returns (k: nat)
    requires e in Eligible(entries)
    ensures k < |Candidates(entries)| && Candidates(entries)[k].value == e.1
  {
    var sorted := SortBy(Eligible(entries), LongerFirst);
    SortElements(Eligible(entries), LongerFirst);
    SameMembers(sorted, Eligible(entries));
    k :| 0 <= k < |sorted| && sorted[k] == e;
  }

  /** Which eligible entry a replacement came from. */
  lemma EntryOf(entries: Entries, k: nat) returns (e: (string, string))
    requires k < |Candidates(entries)|
    ensures e in Eligible(entries) && Candidates(entries)[k] == Step(e.0, "", e.1)
  {
    var sorted := SortBy(Eligible(entries), LongerFirst);
    SortElements(Eligible(entries), LongerFirst);
    SameMembers(sorted, Eligible(entries));
    e := sorted[k];
    assert e in sorted;
  }

  lemma CandidatesArePlain(entries: Entries)
    requires PlainEntries(entries)
    ensures AllPlain(Candidates(entries))
  {
    var steps := Candidates(entries);
    forall k | 0 <= k < |steps| ensures steps[k].lead == "" && |steps[k].value| > 0 && BraceFree(steps[k].value) {
      var e := EntryOf(entries, k);
    }
  }

  /** Lifting leaves the value in some text that is itself a bound value. */
  ghost predicate LeftInAValue(entries: Entries, v: string)
    requires AllPlain(Candidates(entries))
  {
    exists f :: f in Eligible(entries) && Leaves(f.1, Candidates(entries), v)
  }

  /**
   * For any number of overlapping bindings: a bound value is gone from every lifted text if and only if it is gone
   * when each bound value is lifted as a text of its own.
   */
  lemma BoundValueGoneIff(entries: Entries, e: (string, string))
    requires PlainEntries(entries) && e in Eligible(entries)
    ensures AllPlain(Candidates(entries))
    ensures (forall text :: !Leaves(text, Candidates(entries), e.1)) <==> !LeftInAValue(entries, e.1)
  {
    CandidatesArePlain(entries);
    var steps := Candidates(entries);
    var k := CandidateOf(entries, e);
    ValueGoneIff(steps, k);
    if !LeftInAValue(entries, e.1) {
      forall m | 0 <= m < |steps| ensures !Leaves(steps[m].value, steps, e.1) {
        var f := EntryOf(entries, m);
      }
    }
  }

  ghost function AllEntries(): iset<(string, string)> { iset e: (string, string) | |e.0| >= 0 }

  lemma ContainsShorter(s: string, v: string)
    requires Contains(s, v) && |v| >= |s|
    ensures s == v
  {
    if !(v <= s) {
      ContainsFits(s[1..], v);
    }
  }

  /** No two eligible entries share a value. */
  ghost predicate DistinctValues(entries: Entries) {
    forall i, j | 0 <= i < j < |Eligible(entries)| :: Eligible(entries)[i].1 != Eligible(entries)[j].1
  }

  lemma MembersDiffer(s: Entries, x: (string, string), y: (string, string))
    requires (forall i, j | 0 <= i < j < |s| :: s[i].1 != s[j].1) && x in s && y in s && x != y
    ensures x.1 != y.1
  {
    var a :| 0 <= a < |s| && s[a] == x;
    var b :| 0 <= b < |s| && s[b] == y;
    assert a < b || b < a;
  }

  /** Distinct values, longest first, leave each other alone. */
  lemma DistinctAreUntouched(entries: Entries)
    requires DistinctValues(entries)
    ensures forall m | 0 <= m < |Candidates(entries)| :: Untouched(Candidates(entries), m)
  {
    var eligible := Eligible(entries);
    var sorted := SortBy(eligible, LongerFirst);
    SortElements(eligible, LongerFirst);
    SortSorts(eligible, LongerFirst, AllEntries());
    assert Distinct(eligible);
    DistinctStays(eligible, sorted);
    SameMembers(sorted, eligible);
    forall i, m | 0 <= i < m < |sorted| ensures !Contains(sorted[m].1, sorted[i].1) {
      var x, y := sorted[i], sorted[m];
      assert x in sorted && y in sorted && LongerFirst(x, y);
      MembersDiffer(eligible, x, y);
      if Contains(y.1, x.1) {
        ContainsShorter(y.1, x.1);
      }
    }
  }

  /** With distinct values, a value is gone from every text exactly when no name inserted from its turn on carries it. */
  lemma DistinctValuesGoneIff(entries: Entries, k: nat)
    requires PlainEntries(entries) && DistinctValues(entries) && k < |Candidates(entries)|
    ensures AllPlain(Candidates(entries))
    ensures (forall text :: !Leaves(text, Candidates(entries), Candidates(entries)[k].value)) <==>
      forall j | k <= j < |Candidates(entries)| :: !Carries(Candidates(entries), j, Candidates(entries)[k].value)
  {
    CandidatesArePlain(entries);
    DistinctAreUntouched(entries);
    DistinctValueGoneIff(Candidates(entries), k);
  }

  const TITLE_ENTRIES: Entries := [("title_text", "title")]

  /** With `title_text` bound to `title`, the text `title` is lifted and still holds the value. */
  lemma TitleSurvives()
    ensures forall p | p in Candidates(TITLE_ENTRIES) :: |Pattern(p)| > 0
    ensures Contains(Lift("title", Candidates(TITLE_ENTRIES)), "title")
  {
    assert TITLE_ENTRIES[1..] == [] && Eligible([]) == [];
    assert Eligible(TITLE_ENTRIES) == TITLE_ENTRIES + [];
    assert SortBy(TITLE_ENTRIES, LongerFirst) == TITLE_ENTRIES;
    assert Candidates(TITLE_ENTRIES) == [Step("title_text", "", "title")];
    var steps := [Step("title_text", "", "title")];
    assert "title" <= "title_text" && steps[1..] == [];
    assert Carries(steps, 0, "title");
    OwnValueLifts(steps, 0, "title", "title");
  }

  lemma EntriesArePlain(entries: Entries, b: Bindings)
    requires Enumerates(entries, b) && PlainValues(b)
    ensures PlainEntries(entries)
  {
  }

  /** The whole of the round trip, for all texts at once: no bound hole name contains a value that may be replaced. */
  lemma TextsRoundTripIff(entries: Entries, b: Bindings)
    requires Enumerates(entries, b) && PlainValues(b) && forall i | 0 <= i < |entries| :: IsIdent(entries[i].0)
    ensures AllUsable(Candidates(entries), b)
    ensures (forall text :: RoundTrips(text, Candidates(entries), b)) <==>
      forall n, e | n in b && IsIdent(n) && e in Eligible(entries) :: !Contains(n, e.1)
  {
    CandidatesAreUsable(entries, b);
    RoundTripsIff(Candidates(entries), b);
    forall n ensures InSomePattern(n, Candidates(entries)) <==> exists e :: e in Eligible(entries) && Contains(n, e.1) {
      PatternsAreValues(n, entries);
    }
  }

  /** A replaced text occurs in this one. */
  ghost predicate InSomePattern(n: string, steps: seq<Step>) {
    exists i :: 0 <= i < |steps| && Contains(n, Pattern(steps[i]))
  }

  lemma PatternsAreValues(n: string, entries: Entries)
    ensures InSomePattern(n, Candidates(entries)) <==> exists e :: e in Eligible(entries) && Contains(n, e.1)
  {
    var steps := Candidates(entries);
    if InSomePattern(n, steps) {
      var i :| 0 <= i < |steps| && Contains(n, Pattern(steps[i]));
      var e := EntryOf(entries, i);
      assert Pattern(steps[i]) == e.1;
    }
    if exists e :: e in Eligible(entries) && Contains(n, e.1) {
      var e :| e in Eligible(entries) && Contains(n, e.1);
      var i := CandidateOf(entries, e);
      var same := EntryOf(entries, i);
      assert Pattern(steps[i]) == e.1;
    }
  }

  lemma CandidatesAreUsable(entries: Entries, b: Bindings)
    requires Enumerates(entries, b) && PlainValues(b) && forall i | 0 <= i < |entries| :: IsIdent(entries[i].0)
    ensures AllUsable(Candidates(entries), b)
  {
    var steps := Candidates(entries);
    CandidatesAreEligible(entries);
    forall i | 0 <= i < |steps| ensures Usable(steps[i], b) {
      assert steps[i] in steps;
      assert (steps[i].name, steps[i].value) in entries;
    }
  }

  /** What `templatizeText` promises its caller, over any number of overlapping bindings. */
  lemma TextRoundTrip(text: string, entries: Entries, b: Bindings)
    requires Enumerates(entries, b) && PlainValues(b)
    requires forall i | 0 <= i < |entries| :: IsIdent(entries[i].0)
    ensures AllUsable(Candidates(entries), b)
    ensures Interpolate(Lift(text, Candidates(entries)), b) == Interpolate(text, b)
      <==> !HitsAlong(text, Candidates(entries), b)
    ensures NamesClearOfValues(text, Candidates(entries), b) ==>
      Interpolate(Lift(text, Candidates(entries)), b) == Interpolate(text, b)
    ensures NamesClearOfValues(text, Candidates(entries), b) && '{' !in text ==>
      Interpolate(Lift(text, Candidates(entries)), b) == text
    ensures forall e | e in Eligible(entries) && NoNameContains(entries, e.1) :: !Contains(Lift(text, Candidates(entries)), e.1)
    ensures PlainEntries(entries) && AllPlain(Candidates(entries))
    ensures forall e | e in Eligible(entries) && !LeftInAValue(entries, e.1) :: !Leaves(text, Candidates(entries), e.1)
  {
    var steps := Candidates(entries);
    CandidatesAreEligible(entries);
    EntriesArePlain(entries, b);
    CandidatesArePlain(entries);
    forall e | e in Eligible(entries) && !LeftInAValue(entries, e.1) ensures !Leaves(text, steps, e.1) {
      BoundValueGoneIff(entries, e);
    }
    forall e | e in Eligible(entries) && NoNameContains(entries, e.1) ensures !Contains(Lift(text, steps), e.1) {
      NoValueSurvives(text, entries, e);
    }
    CandidatesAreUsable(entries, b);
    LiftRoundTrip(text, steps, b);
    if NamesClearOfValues(text, steps, b) {
      ClearNamesNeverHit(text, steps, b);
    }
    if '{' !in text {
      InterpolateBraceFree(text, b);
    }
  }

  // A value that occurs inside another binding's name does break the round trip.
  const CLASH_BINDINGS: Bindings := map["username" := "Acme Corp", "kind" := "user"]
  const CLASH_STEPS: seq<Step> := [Step("username", "", "Acme Corp"), Step("kind", "", "user")]

  lemma ClashNamesAndValues()
    ensures IsIdent("username") && IsIdent("kind") && BraceFree("Acme Corp") && BraceFree("user") && BraceFree("")
  {
  }

  lemma ClashIsUsable()
    ensures AllUsable(CLASH_STEPS, CLASH_BINDINGS) && PlainValues(CLASH_BINDINGS)
  {
    ClashNamesAndValues();
  }

  lemma ClashHitsAHole()
    requires AllUsable(CLASH_STEPS, CLASH_BINDINGS)
    ensures HitsAlong("Acme Corp", CLASH_STEPS, CLASH_BINDINGS)
  {
    assert Apply("Acme Corp", CLASH_STEPS[0]) == Hole("username") by {
      assert "Acme Corp"[|"Acme Corp"|..] == "";
      assert Hole("username") + "" == Hole("username");
    }
    HoleAtFinds(Hole("username"), "username");
    assert "user" <= "username";
    assert HitsBoundHole(Hole("username"), CLASH_STEPS[1], CLASH_BINDINGS);
    assert CLASH_STEPS[1..][0] == CLASH_STEPS[1];
  }

  lemma ClashBreaksRoundTrip()
    ensures AllUsable(CLASH_STEPS, CLASH_BINDINGS)
    ensures Interpolate(Lift("Acme Corp", CLASH_STEPS), CLASH_BINDINGS) != "Acme Corp"
  {
    ClashIsUsable();
    ClashHitsAHole();
    LiftRoundTrip("Acme Corp", CLASH_STEPS, CLASH_BINDINGS);
    InterpolateBraceFree("Acme Corp", CLASH_BINDINGS);
  }

  // ---- URLs ----

  /** `bindings.x != null && String(x)` is usable only when it is a non-empty text. */
  function Said(b: Bindings, name: string): (r: string)
    ensures name !in b ==> |r| == 0
    ensures name in b ==> r == b[name]
  {
    if name in b then b[name] else ""
  }

  function PlainStep(url: string, name: string, value: string): seq<Step> {
    if |value| > 0 && Contains(url, value) then [Step(name, "", value)] else []
  }

  function PortStepsFor(url: string, port: string): seq<Step> {
    if |port| > 0 && Contains(url, ":" + port) then [Step("port", ":", port)] else PlainStep(url, "port", port)
  }

  /** The host replacement, when the host occurs. */
  function HostSteps(url: string, b: Bindings): seq<Step> {
    PlainStep(url, "host", Said(b, "host"))
  }

  /** A port is replaced after its colon when it has one, and anywhere otherwise. */
  function PortSteps(url: string, b: Bindings): seq<Step> {
    PortStepsFor(url, Said(b, "port"))
  }

  function RootSteps(url: string, b: Bindings): seq<Step> {
    PlainStep(url, "fixture_root", Said(b, "fixture_root"))
  }

  function UrlSteps(url: string, b: Bindings): (r: seq<Step>)
    ensures forall p | p in r :: |p.value| > 0 && |Pattern(p)| > 0
    ensures forall p | p in r :: p.name in b && p.value == b[p.name] && p.name in URL_SPECIAL_BINDINGS
    ensures forall p | p in r :: p.lead == "" || p.lead == ":"
  {
    var h := HostSteps(url, b);
    var url1 := Lift(url, h);
    var p := PortSteps(url1, b);
    var url2 := Lift(url1, p);
    h + p + RootSteps(url2, b)
  }

  lemma {:induction false} LiftConcat(s: string, a: seq<Step>, c: seq<Step>)
    requires forall p | p in a + c :: |Pattern(p)| > 0
    ensures (forall p | p in a :: |Pattern(p)| > 0) && (forall p | p in c :: |Pattern(p)| > 0)
    ensures Lift(s, a + c) == Lift(Lift(s, a), c)
    decreases |a|
  {
    assert forall p | p in a :: p in a + c;
    assert forall p | p in c :: p in a + c;
    if |a| == 0 {
      assert a + c == c;
    } else {
      assert (a + c)[1..] == a[1..] + c;
      assert forall p | p in a[1..] + c :: p in a + c;
      LiftConcat(Apply(s, a[0]), a[1..], c);
    }
  }

  lemma LiftSingle(s: string, name: string, lead: string, value: string)
    requires |value| > 0
    ensures Lift(s, [Step(name, lead, value)]) == Join(Split(s, lead + value), lead + Hole(name))
    ensures lead == "" ==> Lift(s, [Step(name, lead, value)]) == Join(Split(s, value), Hole(name))
  {
    SplitJoin(s, lead + value, lead + Hole(name));
    if lead == "" {
      assert lead + value == value && lead + Hole(name) == Hole(name);
    }
  }

  /** `s.split(v).join(w)` when there is something to split at. */
  function Swapped(s: string, v: string, w: string): string {
    if |v| > 0 then ReplaceAll(s, v, w) else s
  }

  /** The port goes after its colon when the text has it there, and anywhere otherwise. */
  function PortSwapped(s: string, port: string): string {
    if |port| > 0 && Contains(s, ":" + port) then ReplaceAll(s, ":" + port, ":" + Hole("port")) else Swapped(s, port, Hole("port"))
  }

  /** Host, port and fixture root are replaced in that order, each named when the text before its turn has it. */
  predicate UrlSays(url: string, host: string, port: string, root: string, template: string, refs: seq<string>) {
    var url1 := Swapped(url, host, Hole("host"));
    var url2 := PortSwapped(url1, port);
    && template == Swapped(url2, root, Hole("fixture_root"))
    && refs == (if |host| > 0 && Contains(url, host) then ["host"] else [])
             + (if |port| > 0 && Contains(url1, port) then ["port"] else [])
             + (if |root| > 0 && Contains(url2, root) then ["fixture_root"] else [])
  }

  lemma PlainSwapped(url: string, name: string, value: string)
    ensures (forall p | p in PlainStep(url, name, value) :: |Pattern(p)| > 0)
    ensures Lift(url, PlainStep(url, name, value)) == Swapped(url, value, Hole(name))
  {
    if |value| > 0 && !Contains(url, value) {
      ReplaceAbsent(url, value, Hole(name));
    } else if |value| > 0 {
      LiftSingle(url, name, "", value);
      SplitJoin(url, value, Hole(name));
    }
  }

  lemma PortIsSwapped(url: string, port: string)
    ensures (forall p | p in PortStepsFor(url, port) :: |Pattern(p)| > 0)
    ensures Lift(url, PortStepsFor(url, port)) == PortSwapped(url, port)
    ensures PortStepsFor(url, port) != [] <==> |port| > 0 && Contains(url, port)
  {
    if |port| > 0 && Contains(url, ":" + port) {
      LiftSingle(url, "port", ":", port);
      SplitJoin(url, ":" + port, ":" + Hole("port"));
      PortAfterColon(url, port);
    } else {
      PlainSwapped(url, "port", port);
    }
  }

  lemma {:induction false} PortAfterColon(s: string, port: string)
    requires Contains(s, ":" + port)
    ensures Contains(s, port)
  {
    if ":" + port <= s {
      assert (":" + port)[1..] == port && port <= s[1..];
    } else {
      PortAfterColon(s[1..], port);
    }
  }

  /** Replace one text by a hole when it occurs. */
  method LiftOne(url: string, name: string, lead: string, value: string) returns (template: string, refs: seq<string>)
    requires |value| > 0 && lead in {"", ":"}
    ensures var here := Contains(url, lead + value);
      template == (if here then Lift(url, [Step(name, lead, value)]) else url) && refs == (if here then [name] else [])
  {
    template, refs := url, [];
    if Contains(url, lead + value) {
      LiftSingle(url, name, lead, value);
      template, refs := Join(Split(url, lead + value), lead + Hole(name)), [name];
    }
  }

  method TemplatizePort(url: string, port: string) returns (template: string, refs: seq<string>)
    ensures var steps := PortStepsFor(url, port);
      && (forall p | p in steps :: |Pattern(p)| > 0) && template == Lift(url, steps)
      && |refs| == |steps| && forall i | 0 <= i < |refs| :: refs[i] == steps[i].name
    ensures template == PortSwapped(url, port) && refs == if |port| > 0 && Contains(url, port) then ["port"] else []
  {
    PortIsSwapped(url, port);
    template, refs := url, [];
    if |port| > 0 {
      if Contains(url, ":" + port) {
        template, refs := LiftOne(url, "port", ":", port);
      } else if Contains(url, port) {
        assert "" + port == port;
        template, refs := LiftOne(url, "port", "", port);
      }
    }
  }

  method TemplatizePlain(url: string, name: string, value: string) returns (template: string, refs: seq<string>)
    ensures var steps := PlainStep(url, name, value);
      && (forall p | p in steps :: |Pattern(p)| > 0) && template == Lift(url, steps)
      && |refs| == |steps| && forall i | 0 <= i < |refs| :: refs[i] == steps[i].name
    ensures template == Swapped(url, value, Hole(name)) && refs == if |value| > 0 && Contains(url, value) then [name] else []
  {
    PlainSwapped(url, name, value);
    template, refs := url, [];
    if |value| > 0 {
      assert "" + value == value;
      template, refs := LiftOne(url, name, "", value);
    }
  }

  method TemplatizeUrl(url: string, b: Bindings) returns (template: string, refs: seq<string>)
    ensures template == Lift(url, UrlSteps(url, b))
    ensures |refs| == |UrlSteps(url, b)|
    ensures forall i | 0 <= i < |refs| :: refs[i] == UrlSteps(url, b)[i].name
    ensures UrlSays(url, Said(b, "host"), Said(b, "port"), Said(b, "fixture_root"), template, refs)
    ensures "host" in refs <==> "host" in b && |b["host"]| > 0 && Contains(url, b["host"])
    ensures forall i, j | 0 <= i < j < |refs| :: refs[i] != refs[j]
  {
    var url1, hostRefs := TemplatizePlain(url, "host", Said(b, "host"));
    var url2, portRefs := TemplatizePort(url1, Said(b, "port"));
    var url3, rootRefs := TemplatizePlain(url2, "fixture_root", Said(b, "fixture_root"));
    template, refs := url3, hostRefs + portRefs + rootRefs;
    UrlStepsSplit(url, b, HostSteps(url, b), PortSteps(url1, b), RootSteps(url2, b));
    RefsSay(url, Said(b, "host"), Said(b, "port"), Said(b, "fixture_root"), template, refs);
  }

  /** One of the names that were inserted has the text in it. */
  predicate CarriedByName(refs: seq<string>, v: string) {
    exists n | n in refs :: Contains(n, v)
  }

  /** What is left of a text after a replacement was there before, or the inserted name brings it in. */
  lemma SwappedOut(s: string, name: string, value: string, v: string)
    requires BraceFree(v) && |v| > 0 && Contains(Swapped(s, value, Hole(name)), v)
    ensures (|value| > 0 && Contains(s, value) && Contains(name, v)) || (Contains(s, v) && v != value)
  {
    if |value| > 0 && !Contains(s, value) {
      ReplaceAbsent(s, value, Hole(name));
    } else if |value| > 0 && !Contains(name, v) {
      var p := Step(name, "", value);
      assert Pattern(p) == value && Lifted(p) == Hole(name);
      NoNewOccurrence(s, p, v);
    }
  }

  lemma PortSwappedOut(s: string, port: string, v: string)
    requires BraceFree(v) && |v| > 0 && Contains(PortSwapped(s, port), v)
    ensures (|port| > 0 && Contains(s, port) && Contains("port", v)) || Contains(s, v)
    ensures |port| > 0 ==> v != ":" + port
    ensures |port| > 0 && v == port && !Contains(s, ":" + port) ==> Contains(s, port) && Contains("port", v)
  {
    if Contains("port", v) {
      NoColonInPort(v);
    }
    if |port| > 0 && Contains(s, ":" + port) {
      PortAfterColon(s, port);
      var p := Step("port", ":", port);
      assert Pattern(p) == ":" + port && Lifted(p) == ":" + Hole("port");
      if !Contains("port", v) {
        NoNewOccurrence(s, p, v);
      }
    } else {
      SwappedOut(s, "port", port, v);
    }
  }

  lemma NoColonInPort(v: string)
    requires Contains("port", v)
    ensures ':' !in v
  {
    ContainedChars("port", v);
  }

  lemma {:induction false} ContainedChars(s: string, v: string)
    requires Contains(s, v)
    ensures forall c | c in v :: c in s
  {
    if !(v <= s) {
      ContainedChars(s[1..], v);
    }
  }

  /**
   * Nothing bound stays in a URL template but what an inserted name brings back: a host or a root survives only inside
   * an inserted name, a port never after a colon, and a port that stood nowhere after a colon only inside a name.
   */
  lemma NothingLeftInUrl(url: string, host: string, port: string, root: string, template: string, refs: seq<string>)
    requires UrlSays(url, host, port, root, template, refs) && BraceFree(host) && BraceFree(port) && BraceFree(root)
    ensures |host| > 0 && Contains(template, host) ==> CarriedByName(refs, host)
    ensures |root| > 0 && Contains(template, root) ==> CarriedByName(refs, root)
    ensures |port| > 0 ==> !Contains(template, ":" + port)
    ensures |port| > 0 && Contains(template, port) && !Contains(Swapped(url, host, Hole("host")), ":" + port) ==> CarriedByName(refs, port)
    ensures forall i, j | 0 <= i < j < |refs| :: refs[i] != refs[j]
  {
    RefsSay(url, host, port, root, template, refs);
    if |host| > 0 && Contains(template, host) {
      HostIsCarried(url, host, port, root, template, refs);
    }
    if |root| > 0 && Contains(template, root) {
      RootIsCarried(url, host, port, root, template, refs);
    }
    if |port| > 0 {
      PortIsCarried(url, host, port, root, template, refs);
    }
  }

  /** Each name is there once, exactly when its turn found something. */
  lemma RefsSay(url: string, host: string, port: string, root: string, template: string, refs: seq<string>)
    requires UrlSays(url, host, port, root, template, refs)
    ensures "host" in refs <==> |host| > 0 && Contains(url, host)
    ensures "port" in refs <==> |port| > 0 && Contains(Swapped(url, host, Hole("host")), port)
    ensures "fixture_root" in refs <==> |root| > 0 && Contains(PortSwapped(Swapped(url, host, Hole("host")), port), root)
    ensures forall i, j | 0 <= i < j < |refs| :: refs[i] != refs[j]
  {
  }

  predicate Brings(used: bool, name: string, v: string) {
    used && Contains(name, v)
  }

  lemma SwappedFrom(s: string, t: string, name: string, value: string, v: string)
    requires t == Swapped(s, value, Hole(name)) && BraceFree(v) && |v| > 0 && Contains(t, v)
    ensures Brings(|value| > 0 && Contains(s, value), name, v) || (Contains(s, v) && v != value)
  {
    SwappedOut(s, name, value, v);
  }

  lemma PortSwappedFrom(s: string, t: string, port: string, v: string)
    requires t == PortSwapped(s, port) && BraceFree(v) && |v| > 0 && Contains(t, v)
    ensures Brings(|port| > 0 && Contains(s, port), "port", v) || Contains(s, v)
  {
    PortSwappedOut(s, port, v);
  }

  /** What of the host can be left before the fixture root's turn. */
  lemma HostBeforeRoot(url: string, url1: string, host: string, port: string, first: string)
    requires url1 == Swapped(url, host, Hole(first)) && BraceFree(host) && |host| > 0 && Contains(PortSwapped(url1, port), host)
    ensures Brings(|port| > 0 && Contains(url1, port), "port", host) || Brings(Contains(url, host), first, host)
  {
    PortSwappedFrom(url1, PortSwapped(url1, port), port, host);
    if Contains(url1, host) {
      SwappedFrom(url, url1, first, host, host);
    }
  }

  lemma HostIsCarried(url: string, host: string, port: string, root: string, template: string, refs: seq<string>)
    requires UrlSays(url, host, port, root, template, refs) && BraceFree(host) && |host| > 0 && Contains(template, host)
    ensures CarriedByName(refs, host)
  {
    var url1 := Swapped(url, host, Hole("host"));
    RefsSay(url, host, port, root, template, refs);
    SwappedFrom(PortSwapped(url1, port), template, "fixture_root", root, host);
    if Contains(PortSwapped(url1, port), host) {
      HostBeforeRoot(url, url1, host, port, "host");
    }
  }

  lemma ColonIsNotInRoot(port: string)
    ensures !Contains("fixture_root", ":" + port)
  {
    var root, v := "fixture_root", ":" + port;
    assert ':' !in root && v[0] == ':' && v[0] in v;
    if Contains(root, v) {
      ContainedChars(root, v);
    }
  }

  /** The port after its turn: never after a colon, and bare only where the colon's turn left it or its name brings it. */
  lemma PortAfterTurn(url1: string, url2: string, template: string, port: string, root: string, last: string)
    requires url2 == PortSwapped(url1, port) && template == Swapped(url2, root, Hole(last))
    requires BraceFree(port) && |port| > 0
    requires !Contains(last, ":" + port)
    ensures !Contains(template, ":" + port)
    ensures Contains(template, port) && !Contains(url1, ":" + port) ==>
      Brings(|root| > 0 && Contains(url2, root), last, port) || Brings(Contains(url1, port), "port", port)
  {
    var v := ":" + port;
    if Contains(template, v) {
      SwappedOut(url2, last, root, v);
      PortSwappedOut(url1, port, v);
    }
    if Contains(template, port) && !Contains(url1, v) {
      SwappedOut(url2, last, root, port);
      if Contains(url2, port) {
        PortSwappedOut(url1, port, port);
      }
    }
  }

  lemma PortIsCarried(url: string, host: string, port: string, root: string, template: string, refs: seq<string>)
    requires UrlSays(url, host, port, root, template, refs) && BraceFree(port) && |port| > 0
    ensures !Contains(template, ":" + port)
    ensures Contains(template, port) && !Contains(Swapped(url, host, Hole("host")), ":" + port) ==> CarriedByName(refs, port)
  {
    var url1 := Swapped(url, host, Hole("host"));
    ColonIsNotInRoot(port);
    RefsSay(url, host, port, root, template, refs);
    PortAfterTurn(url1, PortSwapped(url1, port), template, port, root, "fixture_root");
  }

  lemma RootIsCarried(url: string, host: string, port: string, root: string, template: string, refs: seq<string>)
    requires UrlSays(url, host, port, root, template, refs) && BraceFree(root) && |root| > 0 && Contains(template, root)
    ensures CarriedByName(refs, root)
  {
    RefsSay(url, host, port, root, template, refs);
    SwappedOut(PortSwapped(Swapped(url, host, Hole("host")), port), "fixture_root", root, root);
  }

  lemma UrlStepsSplit(url: string, b: Bindings, h: seq<Step>, p: seq<Step>, f: seq<Step>)
    requires h == HostSteps(url, b)
    requires p == PortSteps(Lift(url, h), b)
    requires f == RootSteps(Lift(Lift(url, h), p), b)
    ensures UrlSteps(url, b) == h + p + f
    ensures Lift(url, UrlSteps(url, b)) == Lift(Lift(Lift(url, h), p), f)
  {
    LiftConcat(url, h, p);
    LiftConcat(url, h + p, f);
  }

  /** A URL template resolves back to its URL exactly when no replacement broke a bound hole. */
  lemma UrlRoundTrip(url: string, b: Bindings)
    requires PlainValues(b)
    ensures AllUsable(UrlSteps(url, b), b)
    ensures Interpolate(Lift(url, UrlSteps(url, b)), b) == Interpolate(url, b) <==> !HitsAlong(url, UrlSteps(url, b), b)
  {
    var steps := UrlSteps(url, b);
    forall i | 0 <= i < |steps| ensures Usable(steps[i], b) {
      assert steps[i] in steps;
      SpecialNamesAreIdents(steps[i].name);
    }
    LiftRoundTrip(url, steps, b);
  }

  lemma SpecialNamesAreIdents(name: string)
    requires name in URL_SPECIAL_BINDINGS
    ensures IsIdent(name)
  {
  }
}
