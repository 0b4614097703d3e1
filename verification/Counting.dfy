/** Counting elements of sequences, and counting the choices of one element per group. */
module Counting {
  import Words

  /** How many elements of `s` satisfy `f`. */
  function Count<T>(s: seq<T>, f: T -> bool): nat {
    if s == [] then 0 else (if f(s[0]) then 1 else 0) + Count(s[1..], f)
  }

  lemma {:induction false} CountConcat<T>(a: seq<T>, b: seq<T>, f: T -> bool)
    ensures Count(a + b, f) == Count(a, f) + Count(b, f)
  {
    if a == [] {
      assert a + b == b;
    } else {
      assert (a + b)[1..] == a[1..] + b;
      CountConcat(a[1..], b, f);
    }
  }

  lemma {:induction false} CountSame<T>(s: seq<T>, f: T -> bool, g: T -> bool)
    requires forall i :: 0 <= i < |s| ==> f(s[i]) == g(s[i])
    ensures Count(s, f) == Count(s, g)
  {
    if s != [] {
      assert forall i :: 0 <= i < |s[1..]| ==> s[1..][i] == s[i + 1];
      CountSame(s[1..], f, g);
    }
  }

  lemma {:induction false} CountNone<T>(s: seq<T>, f: T -> bool)
    requires forall i :: 0 <= i < |s| ==> !f(s[i])
    ensures Count(s, f) == 0
  {
    if s != [] {
      assert forall i :: 0 <= i < |s[1..]| ==> s[1..][i] == s[i + 1];
      CountNone(s[1..], f);
    }
  }

  lemma {:induction false} CountAt<T>(s: seq<T>, i: nat, f: T -> bool)
    requires i < |s|
    ensures Count(s, f) == (if f(s[i]) then 1 else 0) + Count(s[..i] + s[i + 1..], f)
  {
    assert s == s[..i] + ([s[i]] + s[i + 1..]);
    CountConcat(s[..i], [s[i]] + s[i + 1..], f);
    CountConcat([s[i]], s[i + 1..], f);
    CountConcat(s[..i], s[i + 1..], f);
  }

  /** Counting does not depend on the order. */
  lemma TakenOut<T>(a: seq<T>, b: seq<T>, i: nat)
    requires a != [] && i < |b| && b[i] == a[0] && multiset(a) == multiset(b)
    ensures multiset(a[1..]) == multiset(b[..i] + b[i + 1..])
  {
    assert a == [a[0]] + a[1..];
    assert b == b[..i] + [b[i]] + b[i + 1..];
    assert multiset(a[1..]) == multiset(a) - multiset{a[0]};
    assert multiset(b[..i] + b[i + 1..]) == multiset(b) - multiset{b[i]};
  }

  lemma {:induction false} CountPermuted<T>(a: seq<T>, b: seq<T>, f: T -> bool)
    requires multiset(a) == multiset(b)
    ensures Count(a, f) == Count(b, f)
    decreases |a|
  {
    if a != [] {
      assert a[0] in multiset(b);
      var i :| 0 <= i < |b| && b[i] == a[0];
      var b' := b[..i] + b[i + 1..];
      assert a == [a[0]] + a[1..];
      TakenOut(a, b, i);
      CountPermuted(a[1..], b', f);
      CountAt(b, i, f);
    } else {
      assert |multiset(a)| == |multiset(b)|;
    }
  }

  function Is<T(==)>(x: T): T -> bool {
    y => y == x
  }

  /** Multiplicity is a count. */
  lemma {:induction false} CountIs<T>(s: seq<T>, x: T)
    ensures multiset(s)[x] == Count(s, Is(x))
  {
    if s != [] {
      CountIs(s[1..], x);
      assert s == [s[0]] + s[1..];
    }
  }

  function Map<T, U>(s: seq<T>, g: T -> U): (t: seq<U>)
    ensures |t| == |s|
    ensures forall i :: 0 <= i < |s| ==> t[i] == g(s[i])
  {
    seq(|s|, i requires 0 <= i < |s| => g(s[i]))
  }

  lemma {:induction false} CountMap<T, U>(s: seq<T>, g: T -> U, f: U -> bool, h: T -> bool)
    requires forall i :: 0 <= i < |s| ==> f(g(s[i])) == h(s[i])
    ensures Count(Map(s, g), f) == Count(s, h)
  {
    if s != [] {
      assert Map(s, g)[1..] == Map(s[1..], g);
      assert forall i :: 0 <= i < |s[1..]| ==> s[1..][i] == s[i + 1];
      CountMap(s[1..], g, f, h);
    }
  }

  lemma MapConcat<T, U>(a: seq<T>, b: seq<T>, g: T -> U)
    ensures Map(a + b, g) == Map(a, g) + Map(b, g)
  {
  }

  /** Mapping permuted sequences gives permuted sequences. */
  lemma MapPermuted<T, U(!new)>(a: seq<T>, b: seq<T>, g: T -> U)
    requires multiset(a) == multiset(b)
    ensures multiset(Map(a, g)) == multiset(Map(b, g))
  {
    forall y: U ensures Count(Map(a, g), Is(y)) == Count(Map(b, g), Is(y)) {
      var h := x => g(x) == y;
      CountMap(a, g, Is(y), h);
      CountMap(b, g, Is(y), h);
      CountPermuted(a, b, h);
    }
    SameCounts(Map(a, g), Map(b, g));
  }

  /** Equal counts for every element means equal multisets. */
  lemma SameCounts<T(!new)>(a: seq<T>, b: seq<T>)
    requires forall x :: Count(a, Is(x)) == Count(b, Is(x))
    ensures multiset(a) == multiset(b)
  {
    forall x ensures multiset(a)[x] == multiset(b)[x] {
      CountIs(a, x);
      CountIs(b, x);
      assert Count(a, Is(x)) == Count(b, Is(x));
    }
  }

  // ----------------------------------------------------------------------
  // Products and choices

  function Product(ns: seq<nat>): nat {
    if ns == [] then 1 else ns[0] * Product(ns[1..])
  }

  lemma {:induction false} ProductZero(ns: seq<nat>, i: nat)
    requires i < |ns| && ns[i] == 0
    ensures Product(ns) == 0
  {
    if i > 0 {
      ProductZero(ns[1..], i - 1);
    }
  }

  /** m^n */
  function Power(m: nat, n: nat): nat {
    if n == 0 then 1 else m * Power(m, n - 1)
  }

  lemma {:induction false} PowerPositive(m: nat, n: nat)
    requires m > 0
    ensures Power(m, n) > 0
  {
    if n > 0 {
      PowerPositive(m, n - 1);
      assert Power(m, n) == m * Power(m, n - 1);
    }
  }

  function Prepend<T>(first: seq<T>, rest: seq<T>): (s: seq<seq<T>>)
    ensures |s| == |first|
  {
    seq(|first|, d requires 0 <= d < |first| => [first[d]] + rest)
  }

  function Extend<T>(first: seq<T>, rests: seq<seq<T>>): seq<seq<T>> {
    if rests == [] then [] else Prepend(first, rests[0]) + Extend(first, rests[1..])
  }

  /** All ways to take one element of each group; the first group varies fastest. */
  function Choices<T>(groups: seq<seq<T>>): seq<seq<T>> {
    if groups == [] then [[]] else Extend(groups[0], Choices(groups[1..]))
  }

  /** Every element of the choice meets its own condition. */
  function AllOf<T>(qs: seq<T -> bool>): seq<T> -> bool {
    v => |v| == |qs| && forall p :: 0 <= p < |qs| ==> qs[p](v[p])
  }

  lemma AllOfCons<T>(qs: seq<T -> bool>, x: T, rest: seq<T>)
    requires qs != []
    ensures AllOf(qs)([x] + rest) <==> qs[0](x) && AllOf(qs[1..])(rest)
  {
    var v := [x] + rest;
    if AllOf(qs)(v) {
      forall p | 0 <= p < |qs[1..]| ensures qs[1..][p](rest[p]) {
        assert qs[p + 1](v[p + 1]);
      }
    }
    if qs[0](x) && AllOf(qs[1..])(rest) {
      forall p | 0 <= p < |qs| ensures qs[p](v[p]) {
        if p > 0 {
          assert qs[1..][p - 1](rest[p - 1]);
        }
      }
    }
  }

  lemma {:induction false} CountPrepend<T>(first: seq<T>, rest: seq<T>, qs: seq<T -> bool>)
    requires qs != []
    ensures Count(Prepend(first, rest), AllOf(qs)) == if AllOf(qs[1..])(rest) then Count(first, qs[0]) else 0
  {
    if first != [] {
      CountPrepend(first[1..], rest, qs);
      assert Prepend(first, rest)[1..] == Prepend(first[1..], rest);
      AllOfCons(qs, first[0], rest);
    }
  }

  lemma {:induction false} CountExtend<T>(first: seq<T>, rests: seq<seq<T>>, qs: seq<T -> bool>)
    requires qs != []
    ensures Count(Extend(first, rests), AllOf(qs)) == Count(first, qs[0]) * Count(rests, AllOf(qs[1..]))
  {
    hide AllOf, Prepend;
    if rests != [] {
      CountExtend(first, rests[1..], qs);
      CountConcat(Prepend(first, rests[0]), Extend(first, rests[1..]), AllOf(qs));
      CountPrepend(first, rests[0], qs);
      Distribute(Count(first, qs[0]), AllOf(qs[1..])(rests[0]), Count(rests[1..], AllOf(qs[1..])));
    }
  }

  lemma Distribute(a: nat, c: bool, b: nat)
    ensures a * ((if c then 1 else 0) + b) == (if c then a else 0) + a * b
  {
  }

  function CountEach<T>(groups: seq<seq<T>>, qs: seq<T -> bool>): (ns: seq<nat>)
    requires |groups| == |qs|
    ensures |ns| == |qs|
    ensures forall p :: 0 <= p < |qs| ==> ns[p] == Count(groups[p], qs[p])
  {
    seq(|qs|, p requires 0 <= p < |qs| => Count(groups[p], qs[p]))
  }

  /** The number of choices meeting all conditions is the product of the groups' counts. */
  lemma {:induction false} CountChoices<T>(groups: seq<seq<T>>, qs: seq<T -> bool>)
    requires |groups| == |qs|
    ensures Count(Choices(groups), AllOf(qs)) == Product(CountEach(groups, qs))
  {
    if groups == [] {
      assert Choices(groups) == [[]];
      assert AllOf(qs)([]);
    } else {
      CountChoices(groups[1..], qs[1..]);
      CountExtend(groups[0], Choices(groups[1..]), qs);
      assert CountEach(groups, qs)[1..] == CountEach(groups[1..], qs[1..]);
    }
  }

  // ----------------------------------------------------------------------
  // The mixed-radix counter walks through the choices

  /** Bump the first digit, carrying into the next while it overflows. */
  function Successor(ds: seq<nat>, m: nat): (t: seq<nat>)
    ensures |t| == |ds|
  {
    if ds == [] then []
    else if ds[0] + 1 < m then [ds[0] + 1] + ds[1..]
    else [0] + Successor(ds[1..], m)
  }

  /** The counter's `n` digits after `c` bumps. */
  function Digits(c: nat, n: nat, m: nat): (ds: seq<nat>)
    ensures |ds| == n
  {
    if c == 0 then seq(n, _ => 0) else Successor(Digits(c - 1, n, m), m)
  }

  lemma {:induction false} SuccessorInRange(ds: seq<nat>, m: nat)
    requires m > 0 && forall p :: 0 <= p < |ds| ==> ds[p] < m
    ensures forall p :: 0 <= p < |ds| ==> Successor(ds, m)[p] < m
  {
    if ds != [] {
      SuccessorInRange(ds[1..], m);
    }
  }

  lemma {:induction false} DigitsInRange(c: nat, n: nat, m: nat)
    requires m > 0
    ensures forall p :: 0 <= p < n ==> Digits(c, n, m)[p] < m
  {
    if c > 0 {
      DigitsInRange(c - 1, n, m);
      SuccessorInRange(Digits(c - 1, n, m), m);
    }
  }

  /** The first digit counts modulo m and the others count its wraps. */
  lemma Borrow(m: nat, c: nat)
    requires c > 0
    ensures m - 1 + m * (c - 1) == m * c - 1
  {
  }

  lemma {:induction false} DigitsSplit(d: nat, c: nat, n: nat, m: nat)
    requires d < m && n > 0
    ensures Digits(d + m * c, n, m) == [d] + Digits(c, n - 1, m)
    decreases c, d
  {
    hide Digits, Successor;
    NoBumps(n, m);
    if d > 0 {
      DigitsSplit(d - 1, c, n, m);
      OneBump(d - 1 + m * c, n, m);
      Bumped(d - 1, Digits(c, n - 1, m), m);
    } else if c > 0 {
      Borrow(m, c);
      DigitsSplit(m - 1, c - 1, n, m);
      OneBump(m * c - 1, n, m);
      OneBump(c - 1, n - 1, m);
      Bumped(m - 1, Digits(c - 1, n - 1, m), m);
    } else {
      assert m * c == 0;
    }
  }

  lemma NoBumps(n: nat, m: nat)
    requires n > 0
    ensures Digits(0, n, m) == [0] + Digits(0, n - 1, m)
  {
  }

  lemma OneBump(c: nat, n: nat, m: nat)
    ensures Digits(c + 1, n, m) == Successor(Digits(c, n, m), m)
  {
    hide Successor;
  }

  lemma Bumped(d: nat, rest: seq<nat>, m: nat)
    ensures Successor([d] + rest, m) == if d + 1 < m then [d + 1] + rest else [0] + Successor(rest, m)
  {
    assert ([d] + rest)[1..] == rest;
  }

  ghost predicate Groups<T>(groups: seq<seq<T>>, m: nat) {
    forall p :: 0 <= p < |groups| ==> |groups[p]| == m
  }

  function Pick<T>(groups: seq<seq<T>>, ds: seq<nat>): (v: seq<T>)
    requires |ds| == |groups|
    requires forall p :: 0 <= p < |groups| ==> ds[p] < |groups[p]|
    ensures |v| == |groups|
  {
    seq(|groups|, p requires 0 <= p < |groups| => groups[p][ds[p]])
  }

  lemma {:induction false} ExtendSize<T>(first: seq<T>, rests: seq<seq<T>>)
    ensures |Extend(first, rests)| == |first| * |rests|
  {
    if rests != [] {
      ExtendSize(first, rests[1..]);
      assert |first| * |rests| == |first| + |first| * |rests[1..]|;
    }
  }

  lemma {:induction false} ExtendAt<T>(first: seq<T>, rests: seq<seq<T>>, d: nat, c: nat)
    requires d < |first| && c < |rests|
    ensures d + |first| * c < |Extend(first, rests)|
    ensures Extend(first, rests)[d + |first| * c] == [first[d]] + rests[c]
    decreases c
  {
    if c > 0 {
      ExtendAt(first, rests[1..], d, c - 1);
      assert |first| * c == |first| + |first| * (c - 1);
    }
  }

  lemma {:induction false} ChoicesSize<T>(groups: seq<seq<T>>, m: nat)
    requires Groups(groups, m)
    ensures |Choices(groups)| == Power(m, |groups|)
  {
    if groups != [] {
      ChoicesSize(groups[1..], m);
      ExtendSize(groups[0], Choices(groups[1..]));
    }
  }

  /** Choice number c is the one the counter's digits pick. */
  lemma {:induction false} ChoiceAt<T>(groups: seq<seq<T>>, m: nat, c: nat)
    requires m > 0 && Groups(groups, m) && c < |Choices(groups)|
    ensures forall p :: 0 <= p < |groups| ==> Digits(c, |groups|, m)[p] < m
    ensures Choices(groups)[c] == Pick(groups, Digits(c, |groups|, m))
  {
    hide Digits, Extend, Choices, Pick;
    var n := |groups|;
    DigitsInRange(c, n, m);
    ChoicesUnfold(groups);
    if groups != [] {
      var rests := Choices(groups[1..]);
      var d, c' := SplitDigit(c, m);
      ExtendSize(groups[0], rests);
      BelowProduct(d, c', m, |rests|);
      ChoiceAt(groups[1..], m, c');
      ExtendAt(groups[0], rests, d, c');
      DigitsSplit(d, c', n, m);
      PickFirst(groups, d, Digits(c', n - 1, m), m);
    } else {
      PickNone(groups, Digits(c, n, m));
    }
  }

  /** Digit p after c bumps: the counter counts in base m, lowest digit first. */
  lemma {:induction false} DigitAt(c: nat, n: nat, m: nat, p: nat)
    requires m > 0 && p < n
    ensures Power(m, p) > 0 && Digits(c, n, m)[p] == c / Power(m, p) % m
    decreases p
  {
    hide Digits;
    var d, c' := SplitDigit(c, m);
    DigitsSplit(d, c', n, m);
    PowerPositive(m, p);
    if p > 0 {
      DigitAt(c', n - 1, m, p - 1);
      QuotientTwice(c, d, c', m, Power(m, p - 1));
    } else {
      Words.DivModUnique(c, m, c', d);
    }
  }

  lemma QuotientTwice(c: nat, d: nat, c': nat, m: nat, k: nat)
    requires m > 0 && k > 0 && c == d + m * c' && d < m
    ensures m * k > 0 && c / (m * k) == c' / k
  {
    var q, r: nat := c' / k, c' % k;
    assert c' == k * q + r;
    assert m * (k * q + r) == m * k * q + m * r;
    MulMonotone(m, r, k - 1);
    assert m * (k - 1) == m * k - m;
    Words.DivModUnique(c, m * k, q, m * r + d);
  }

  /** c = d + m c' with d a digit. */
  lemma SplitDigit(c: nat, m: nat) returns (d: nat, c': nat)
    requires m > 0
    ensures c == d + m * c' && d < m
  {
    d, c' := c % m, Words.Div(c, m);
  }

  lemma ChoicesUnfold<T>(groups: seq<seq<T>>)
    ensures Choices(groups) == if groups == [] then [[]] else Extend(groups[0], Choices(groups[1..]))
  {
  }

  lemma PickNone<T>(groups: seq<seq<T>>, ds: seq<nat>)
    requires groups == [] && ds == []
    ensures Pick(groups, ds) == []
  {
  }

  lemma PickFirst<T>(groups: seq<seq<T>>, d: nat, ds: seq<nat>, m: nat)
    requires Groups(groups, m) && groups != [] && d < m && |ds| == |groups| - 1
    requires forall p :: 0 <= p < |ds| ==> ds[p] < m
    ensures Pick(groups, [d] + ds) == [groups[0][d]] + Pick(groups[1..], ds)
  {
  }

  lemma BelowProduct(d: nat, c: nat, m: nat, r: nat)
    requires d + m * c < m * r
    ensures c < r
  {
    if c >= r {
      MulMonotone(m, r, c);
    }
  }

  lemma MulMonotone(m: nat, a: nat, b: nat)
    requires a <= b
    ensures m * a <= m * b
  {
  }

  /** The program's increment loop computes the successor. */
  method Increment(digits: seq<nat>, m: nat) returns (next: seq<nat>)
    ensures next == Successor(digits, m)
  {
    hide Successor;
    next := digits;
    var p := 0;
    assert digits[0..] == digits && [] + Successor(digits, m) == Successor(digits, m);
    while p < |digits|
      invariant 0 <= p <= |digits| == |next|
      invariant next[p..] == digits[p..]
      invariant next[..p] + Successor(digits[p..], m) == Successor(digits, m)
      decreases |digits| - p
    {
      BumpedAt(next, digits, p, m);
      next := next[p := next[p] + 1];
      if next[p] < m {
        return;
      }
      next := next[p := 0];
      p := p + 1;
    }
    SuccessorOfNone(m);
    assert next[..p] + [] == next && digits[p..] == [];
  }

  /** One digit is bumped; it is the last one touched, or it wraps and the carry goes on. */
  lemma BumpedAt(next: seq<nat>, digits: seq<nat>, p: nat, m: nat)
    requires p < |digits| == |next| && next[p..] == digits[p..]
    ensures next[p] == digits[p]
    ensures digits[p] + 1 < m ==> next[p := digits[p] + 1] == next[..p] + Successor(digits[p..], m)
    ensures digits[p] + 1 >= m ==>
              var wrapped := next[p := digits[p] + 1][p := 0];
              && wrapped[p + 1..] == digits[p + 1..]
              && wrapped[..p + 1] + Successor(digits[p + 1..], m) == next[..p] + Successor(digits[p..], m)
  {
    hide Successor;
    SuccessorUnfolds(digits, p, m);
    assert next[p] == next[p..][0];
    var wrapped := next[p := digits[p] + 1][p := 0];
    forall i | p < i < |next| ensures next[i] == digits[i] {
      assert next[p..][i - p] == digits[p..][i - p];
    }
    if digits[p] + 1 < m {
      assert next[p := digits[p] + 1] == next[..p] + ([digits[p] + 1] + digits[p + 1..]);
    } else {
      Shift(wrapped[..p + 1], next[..p], 0, Successor(digits[p + 1..], m));
    }
  }

  lemma SuccessorOfNone(m: nat)
    ensures Successor([], m) == []
  {
  }

  lemma Shift<T>(done': seq<T>, done: seq<T>, x: T, tail: seq<T>)
    requires done' == done + [x]
    ensures done' + tail == done + ([x] + tail)
  {
  }

  lemma SuccessorUnfolds(ds: seq<nat>, p: nat, m: nat)
    requires p < |ds|
    ensures Successor(ds[p..], m)
         == if ds[p] + 1 < m then [ds[p] + 1] + ds[p + 1..] else [0] + Successor(ds[p + 1..], m)
  {
    assert ds[p..][1..] == ds[p + 1..];
  }

  // ----------------------------------------------------------------------
  // Selecting

  function Select<T>(s: seq<T>, f: T -> bool): (t: seq<T>) {
    if s == [] then [] else (if f(s[0]) then [s[0]] else []) + Select(s[1..], f)
  }

  lemma {:induction false} SelectCount<T>(s: seq<T>, f: T -> bool)
    ensures |Select(s, f)| == Count(s, f)
    ensures forall i :: 0 <= i < |Select(s, f)| ==> f(Select(s, f)[i]) && Select(s, f)[i] in s
  {
    if s != [] {
      SelectCount(s[1..], f);
    }
  }

  lemma {:induction false} CountSelect<T>(s: seq<T>, f: T -> bool, g: T -> bool, h: T -> bool)
    requires forall i :: 0 <= i < |s| ==> h(s[i]) == (f(s[i]) && g(s[i]))
    ensures Count(Select(s, f), g) == Count(s, h)
  {
    if s != [] {
      assert forall i :: 0 <= i < |s[1..]| ==> s[1..][i] == s[i + 1];
      CountSelect(s[1..], f, g, h);
      CountConcat(if f(s[0]) then [s[0]] else [], Select(s[1..], f), g);
    }
  }

  lemma {:induction false} SelectConcat<T>(a: seq<T>, b: seq<T>, f: T -> bool)
    ensures Select(a + b, f) == Select(a, f) + Select(b, f)
  {
    hide Select;
    SelectUnfolds(a, f);
    if a == [] {
      assert a + b == b;
    } else {
      SelectConcat(a[1..], b, f);
      SelectUnfolds(a + b, f);
      assert (a + b)[1..] == a[1..] + b && (a + b)[0] == a[0];
      var x, y := Select(a[1..], f), Select(b, f);
      assert [a[0]] + (x + y) == [a[0]] + x + y;
    }
  }

  lemma SelectUnfolds<T>(s: seq<T>, f: T -> bool)
    ensures Select(s, f) == if s == [] then [] else (if f(s[0]) then [s[0]] else []) + Select(s[1..], f)
  {
  }

  lemma {:induction false} SelectMultiset<T>(s: seq<T>, f: T -> bool, x: T)
    ensures multiset(Select(s, f))[x] == if f(x) then multiset(s)[x] else 0
  {
    if s != [] {
      SelectMultiset(s[1..], f, x);
      assert s == [s[0]] + s[1..];
    }
  }

  /** Selecting from a rearrangement rearranges the selection. */
  lemma SelectRearranged<T(!new)>(a: seq<T>, b: seq<T>, f: T -> bool)
    requires multiset(a) == multiset(b)
    ensures multiset(Select(a, f)) == multiset(Select(b, f))
  {
    forall x ensures multiset(Select(a, f))[x] == multiset(Select(b, f))[x] {
      SelectMultiset(a, f, x);
      SelectMultiset(b, f, x);
    }
  }
}
