/** Shared vocabulary: an optional value and a success-or-error value. */
module Wrappers {
  datatype Option<+T> = None | Some(value: T)

  datatype Result<+T, +E> = Ok(value: T) | Err(error: E)
}

/** String comparison as the source's `<` does it, and a stable sort with the laws callers rely on. */
module Order {
  /** `a < b` on strings: lexicographic by character code. */
  predicate StrLess(a: string, b: string) {
    if |b| == 0 then false
    else if |a| == 0 then true
    else a[0] < b[0] || (a[0] == b[0] && StrLess(a[1..], b[1..]))
  }

  predicate StrLe(a: string, b: string) {
    a == b || StrLess(a, b)
  }

  lemma {:induction false} StrLessTotal(a: string, b: string)
    ensures a == b || StrLess(a, b) || StrLess(b, a)
    ensures !(StrLess(a, b) && StrLess(b, a))
    ensures a == b ==> !StrLess(a, b)
    decreases |a| + |b|
  {
    if |a| > 0 && |b| > 0 {
      StrLessTotal(a[1..], b[1..]);
      assert a == [a[0]] + a[1..] && b == [b[0]] + b[1..];
    }
  }

  lemma {:induction false} StrLessTransitive(a: string, b: string, c: string)
    requires StrLess(a, b) && StrLess(b, c)
    ensures StrLess(a, c)
  {
    if |a| > 0 && a[0] == b[0] && b[0] == c[0] {
      StrLessTransitive(a[1..], b[1..], c[1..]);
    }
  }

  /** The first place where two texts part decides, by character code; a text comes before its continuations. */
  ghost predicate ComesBefore(a: string, b: string) {
    exists k: nat :: PartsAt(a, b, k)
  }

  predicate PartsAt(a: string, b: string, k: nat) {
    k <= |a| && k < |b| && a[..k] == b[..k] && (k == |a| || a[k] < b[k])
  }

  lemma FirstDiffers(a: string, b: string, k: nat)
    requires |a| > 0 && |b| > 0 && a[0] != b[0] && k > 0
    ensures !PartsAt(a, b, k)
  {
    if k <= |a| && k < |b| {
      assert a[..k][0] == a[0] && b[..k][0] == b[0];
    }
  }

  lemma {:induction false} StrLessIff(a: string, b: string)
    ensures StrLess(a, b) <==> ComesBefore(a, b)
    decreases |a|
  {
    if |a| == 0 || |b| == 0 {
      assert |b| > 0 ==> PartsAt(a, b, 0);
    } else if a[0] != b[0] {
      assert a[0] < b[0] ==> PartsAt(a, b, 0);
      forall k: nat | k > 0 ensures !PartsAt(a, b, k) {
        FirstDiffers(a, b, k);
      }
    } else {
      StrLessIff(a[1..], b[1..]);
      if ComesBefore(a[1..], b[1..]) {
        var k: nat :| PartsAt(a[1..], b[1..], k);
        assert a[..k + 1] == [a[0]] + a[1..][..k] && b[..k + 1] == [b[0]] + b[1..][..k];
        assert PartsAt(a, b, k + 1);
      }
      if ComesBefore(a, b) {
        var k: nat :| PartsAt(a, b, k);
        assert k > 0;
        assert a[1..][..k - 1] == a[..k][1..] && b[1..][..k - 1] == b[..k][1..];
        assert PartsAt(a[1..], b[1..], k - 1);
      }
    }
  }

  /** Insert `x` after every element that is not greater than it, so equal elements keep their order. */
  function Insert<T>(x: T, s: seq<T>, le: (T, T) -> bool): (r: seq<T>)
    ensures |r| == |s| + 1
  {
    if |s| == 0 || le(x, s[0]) then [x] + s else [s[0]] + Insert(x, s[1..], le)
  }

  /** A stable sort: `[...s].sort(cmp)` where `le(a, b)` is `cmp(a, b) <= 0`. */
  function SortBy<T>(s: seq<T>, le: (T, T) -> bool): (r: seq<T>)
    ensures |r| == |s|
  {
    if |s| == 0 then [] else Insert(s[0], SortBy(s[1..], le), le)
  }

  ghost predicate Sorted<T>(s: seq<T>, le: (T, T) -> bool) {
    forall i, j | 0 <= i < j < |s| :: le(s[i], s[j])
  }

  ghost predicate Among<T>(s: seq<T>, dom: iset<T>) {
    forall i | 0 <= i < |s| :: s[i] in dom
  }

  /** `le` orders `dom` totally; `Strict` adds that distinct members are never tied. */
  ghost predicate TotalOn<T(!new)>(dom: iset<T>, le: (T, T) -> bool) {
    && (forall x, y | x in dom && y in dom :: le(x, y) || le(y, x))
    && (forall x, y, z | x in dom && y in dom && z in dom && le(x, y) && le(y, z) :: le(x, z))
  }

  ghost predicate StrictOn<T(!new)>(dom: iset<T>, le: (T, T) -> bool) {
    forall x, y | x in dom && y in dom && le(x, y) && le(y, x) :: x == y
  }

  ghost function AllStrings(): iset<string> { iset s: string | |s| >= 0 }

  lemma StringsAreOrdered()
    ensures TotalOn(AllStrings(), StrLe) && StrictOn(AllStrings(), StrLe)
  {
    forall x: string, y: string ensures (StrLe(x, y) || StrLe(y, x)) && (StrLe(x, y) && StrLe(y, x) ==> x == y) {
      StrLessTotal(x, y);
    }
    forall x: string, y: string, z: string | StrLe(x, y) && StrLe(y, z) ensures StrLe(x, z) {
      if x != y && y != z {
        StrLessTransitive(x, y, z);
      }
    }
  }

  lemma {:induction false} InsertElements<T>(x: T, s: seq<T>, le: (T, T) -> bool)
    ensures multiset(Insert(x, s, le)) == multiset{x} + multiset(s)
  {
    if |s| > 0 && !le(x, s[0]) {
      InsertElements(x, s[1..], le);
      assert s == [s[0]] + s[1..];
    }
  }

  lemma {:induction false} SortElements<T>(s: seq<T>, le: (T, T) -> bool)
    ensures multiset(SortBy(s, le)) == multiset(s)
  {
    if |s| > 0 {
      SortElements(s[1..], le);
      InsertElements(s[0], SortBy(s[1..], le), le);
      assert s == [s[0]] + s[1..];
    }
  }

  /** Rearrangements have the same members and stay within the same domain. */
  lemma SameMembers<T>(a: seq<T>, b: seq<T>)
    requires multiset(a) == multiset(b)
    ensures |a| == |b|
    ensures forall x :: x in a <==> x in b
    ensures forall dom: iset<T> :: Among(a, dom) ==> Among(b, dom)
  {
    forall x ensures x in a <==> x in b {
      assert x in a <==> x in multiset(a);
      assert x in b <==> x in multiset(b);
    }
    assert |multiset(a)| == |multiset(b)|;
    forall dom: iset<T> | Among(a, dom) ensures Among(b, dom) {
      forall i | 0 <= i < |b| ensures b[i] in dom {
        assert b[i] in a;
      }
    }
  }

  lemma {:induction false} InsertSorted<T(!new)>(x: T, s: seq<T>, le: (T, T) -> bool, dom: iset<T>)
    requires TotalOn(dom, le) && x in dom && Among(s, dom) && Sorted(s, le)
    ensures Sorted(Insert(x, s, le), le) && Among(Insert(x, s, le), dom)
    ensures forall y | y in dom && le(y, x) && (|s| > 0 ==> le(y, s[0])) :: le(y, Insert(x, s, le)[0])
  {
    if |s| > 0 {
      assert s[0] in dom;
      if le(x, s[0]) {
        forall i | 0 <= i < |s| ensures le(x, s[i]) {
          assert s[i] in dom && (i == 0 || le(s[0], s[i]));
        }
      } else {
        var t := s[1..];
        assert Among(t, dom) && Sorted(t, le);
        InsertSorted(x, t, le, dom);
        var r := Insert(x, t, le);
        assert |t| > 0 ==> le(s[0], t[0]);
        forall i | 0 <= i < |r| ensures le(s[0], r[i]) {
          assert r[0] in dom && r[i] in dom && (i == 0 || le(r[0], r[i]));
        }
      }
    }
  }

  lemma {:induction false} SortSorts<T(!new)>(s: seq<T>, le: (T, T) -> bool, dom: iset<T>)
    requires TotalOn(dom, le) && Among(s, dom)
    ensures Sorted(SortBy(s, le), le) && Among(SortBy(s, le), dom)
  {
    if |s| > 0 {
      SortSorts(s[1..], le, dom);
      InsertSorted(s[0], SortBy(s[1..], le), le, dom);
    }
  }

  lemma SameFirst<T(!new)>(a: seq<T>, b: seq<T>, le: (T, T) -> bool, dom: iset<T>)
    requires |a| > 0 && multiset(a) == multiset(b) && Among(a, dom) && StrictOn(dom, le)
    requires Sorted(a, le) && Sorted(b, le)
    ensures |b| > 0 && a[0] == b[0]
  {
    SameMembers(a, b);
    assert a[0] in b && b[0] in a;
    var i :| 0 <= i < |a| && a[i] == b[0];
    var j :| 0 <= j < |b| && b[j] == a[0];
    assert a[0] in dom && a[i] in dom;
    assert i == 0 || le(a[0], a[i]);
    assert j == 0 || le(b[0], b[j]);
  }

  lemma SameRest<T>(a: seq<T>, b: seq<T>)
    requires |a| > 0 && |b| > 0 && a[0] == b[0] && multiset(a) == multiset(b)
    ensures multiset(a[1..]) == multiset(b[1..])
  {
    assert a == [a[0]] + a[1..] && b == [b[0]] + b[1..];
    assert multiset(a[1..]) == multiset(a) - multiset{a[0]};
    assert multiset(b[1..]) == multiset(b) - multiset{b[0]};
  }

  /** Two sorted arrangements of the same elements, with no ties, are the same sequence. */
  lemma {:induction false} SortedUnique<T(!new)>(a: seq<T>, b: seq<T>, le: (T, T) -> bool, dom: iset<T>)
    requires multiset(a) == multiset(b) && Among(a, dom) && StrictOn(dom, le)
    requires Sorted(a, le) && Sorted(b, le)
    ensures a == b
  {
    SameMembers(a, b);
    if |a| > 0 {
      SameFirst(a, b, le, dom);
      SameRest(a, b);
      SortedUnique(a[1..], b[1..], le, dom);
      assert a == [a[0]] + a[1..] && b == [b[0]] + b[1..];
    }
  }

  /** Sorting forgets the order of its input when no two elements tie. */
  lemma SortCanonical<T(!new)>(a: seq<T>, b: seq<T>, le: (T, T) -> bool, dom: iset<T>)
    requires multiset(a) == multiset(b) && Among(a, dom) && TotalOn(dom, le) && StrictOn(dom, le)
    ensures SortBy(a, le) == SortBy(b, le)
  {
    SameMembers(a, b);
    SortElements(a, le);
    SortElements(b, le);
    SortSorts(a, le, dom);
    SortSorts(b, le, dom);
    SortedUnique(SortBy(a, le), SortBy(b, le), le, dom);
  }

  /** A sequence already in order is left alone. */
  lemma {:induction false} SortFixed<T>(s: seq<T>, le: (T, T) -> bool)
    requires Sorted(s, le)
    ensures SortBy(s, le) == s
  {
    if |s| > 0 {
      SortFixed(s[1..], le);
      assert s == [s[0]] + s[1..];
      assert |s| == 1 || le(s[0], s[1]);
    }
  }

  function MapSeq<T, U>(f: T -> U, s: seq<T>): (r: seq<U>)
    ensures |r| == |s| && forall i | 0 <= i < |s| :: r[i] == f(s[i])
  {
    seq(|s|, i requires 0 <= i < |s| => f(s[i]))
  }

  /** Sorting commutes with a map that respects the two orders. */
  lemma {:induction false} SortMap<T(!new), U>(f: T -> U, s: seq<T>, le: (T, T) -> bool, leU: (U, U) -> bool)
    requires forall x, y :: leU(f(x), f(y)) == le(x, y)
    ensures SortBy(MapSeq(f, s), leU) == MapSeq(f, SortBy(s, le))
  {
    if |s| > 0 {
      SortMap(f, s[1..], le, leU);
      assert MapSeq(f, s)[1..] == MapSeq(f, s[1..]);
      InsertMap(f, s[0], SortBy(s[1..], le), le, leU);
    }
  }

  lemma {:induction false} InsertMap<T(!new), U>(f: T -> U, x: T, s: seq<T>, le: (T, T) -> bool, leU: (U, U) -> bool)
    requires forall a, b :: leU(f(a), f(b)) == le(a, b)
    ensures Insert(f(x), MapSeq(f, s), leU) == MapSeq(f, Insert(x, s, le))
  {
    if |s| == 0 {
      assert MapSeq(f, s) == [];
    } else if le(x, s[0]) {
      assert MapSeq(f, [x] + s) == [f(x)] + MapSeq(f, s);
    } else {
      InsertMap(f, x, s[1..], le, leU);
      assert MapSeq(f, s)[1..] == MapSeq(f, s[1..]);
      assert MapSeq(f, [s[0]] + Insert(x, s[1..], le)) == [f(s[0])] + MapSeq(f, Insert(x, s[1..], le));
    }
  }

  ghost predicate Distinct<T>(s: seq<T>) {
    forall i, j | 0 <= i < j < |s| :: s[i] != s[j]
  }

  /** Sequences without repetition that have the same members are rearrangements of each other. */
  lemma DistinctRearrangement<T>(a: seq<T>, b: seq<T>)
    requires Distinct(a) && Distinct(b)
    requires forall x :: x in a <==> x in b
    ensures multiset(a) == multiset(b)
  {
    forall x ensures multiset(a)[x] == multiset(b)[x] {
      DistinctCount(a, x);
      DistinctCount(b, x);
    }
  }

  lemma {:induction false} DistinctCount<T>(a: seq<T>, x: T)
    requires Distinct(a)
    ensures multiset(a)[x] == if x in a then 1 else 0
  {
    if |a| > 0 {
      assert a == [a[0]] + a[1..];
      assert multiset(a) == multiset{a[0]} + multiset(a[1..]);
      DistinctCount(a[1..], x);
    }
  }

  lemma TwiceCounts<T>(b: seq<T>, i: nat, j: nat)
    requires i < j < |b|
    ensures b[i] == b[j] ==> multiset(b)[b[i]] >= 2
  {
    assert b == b[..j] + [b[j]] + b[j + 1..];
    assert b[..j][i] == b[i];
    assert b[i] in multiset(b[..j]);
  }

  lemma DistinctStays<T>(a: seq<T>, b: seq<T>)
    requires Distinct(a) && multiset(a) == multiset(b)
    ensures Distinct(b)
  {
    forall i, j | 0 <= i < j < |b| ensures b[i] != b[j] {
      DistinctCount(a, b[i]);
      TwiceCounts(b, i, j);
    }
  }

  /** Each value once, in order of first mention, as a JavaScript Set or Map keeps its keys. */
  function Once<T(==)>(s: seq<T>): seq<T> {
    if |s| == 0 then []
    else
      var front := Once(s[..|s| - 1]);
      if s[|s| - 1] in front then front else front + [s[|s| - 1]]
  }

  lemma {:induction false} OnceMembers<T>(s: seq<T>)
    ensures Distinct(Once(s)) && forall x :: x in Once(s) <==> x in s
  {
    if |s| > 0 {
      OnceMembers(s[..|s| - 1]);
      assert s == s[..|s| - 1] + [s[|s| - 1]];
    }
  }

  lemma OnceStep<T>(s: seq<T>, x: T)
    ensures Once(s + [x]) == if x in Once(s) then Once(s) else Once(s) + [x]
  {
    assert (s + [x])[..|s|] == s;
  }

  lemma {:induction false} OnceDistinct<T>(s: seq<T>)
    requires Distinct(s)
    ensures Once(s) == s
  {
    if |s| > 0 {
      var front := s[..|s| - 1];
      OnceDistinct(front);
      assert s == front + [s[|s| - 1]];
    }
  }
}

/** Decimal text of integers, as `String(n)` prints it. */
module Decimal {
  predicate IsDigit(c: char) { '0' <= c <= '9' }

  predicate Digits(s: string) { forall i | 0 <= i < |s| :: IsDigit(s[i]) }

  function NatText(n: nat): (r: string)
    ensures |r| > 0 && Digits(r)
  {
    if n < 10 then [('0' as int + n) as char] else NatText(n / 10) + [('0' as int + n % 10) as char]
  }

  function IntText(n: int): string {
    if n < 0 then "-" + NatText(-n) else NatText(n)
  }

  function NatValue(s: string): int
    requires Digits(s)
  {
    if |s| == 0 then 0 else 10 * NatValue(s[..|s| - 1]) + (s[|s| - 1] as int - '0' as int)
  }

  lemma {:induction false} NatValueText(n: nat)
    ensures NatValue(NatText(n)) == n
  {
    if n < 10 {
      assert NatText(n)[..0] == "";
    } else {
      NatValueText(n / 10);
      assert NatText(n)[..|NatText(n)| - 1] == NatText(n / 10);
    }
  }

  lemma IntTextInjective(a: int, b: int)
    requires IntText(a) == IntText(b)
    ensures a == b
  {
    assert IntText(a)[0] == '-' <==> a < 0;
    assert IntText(b)[0] == '-' <==> b < 0;
    if a < 0 {
      assert IntText(a)[1..] == NatText(-a) && IntText(b)[1..] == NatText(-b);
      NatValueText(-a);
      NatValueText(-b);
    } else {
      NatValueText(a);
      NatValueText(b);
    }
  }

  /** No digit continues the number. */
  predicate Stop(x: string) { |x| == 0 || !IsDigit(x[0]) }

  lemma DigitsEnd(a: string, b: string, x: string, y: string)
    requires Digits(a) && Digits(b) && Stop(x) && Stop(y) && a + x == b + y
    ensures a == b && x == y
  {
    var s := a + x;
    assert s[..|a|] == a && s[|a|..] == x && s[..|b|] == b && s[|b|..] == y;
    assert |a| < |s| ==> s[|a|] == x[0];
    assert |b| < |s| ==> s[|b|] == y[0];
  }

  /** A printed integer is determined by any text it starts, once something other than a digit follows. */
  lemma IntTextEnds(a: int, b: int, x: string, y: string)
    requires Stop(x) && Stop(y) && IntText(a) + x == IntText(b) + y
    ensures a == b && x == y
  {
    SignOf(a, x);
    SignOf(b, y);
    if a < 0 {
      DigitsEnd(NatText(-a), NatText(-b), x, y);
    } else {
      DigitsEnd(NatText(a), NatText(b), x, y);
    }
    IntTextInjective(a, b);
  }

  lemma SignOf(a: int, x: string)
    ensures (IntText(a) + x)[0] == '-' <==> a < 0
    ensures a < 0 ==> (IntText(a) + x)[1..] == NatText(-a) + x
  {
    if a < 0 {
      assert "-" + NatText(-a) + x == "-" + (NatText(-a) + x);
    } else {
      assert (NatText(a) + x)[0] == NatText(a)[0];
    }
  }
}
