/** Congruences of integers, and sums of shares in a ring of integers modulo m. */
module ModRing {
  import opened Words

  /** a and b are the same element of the ring. */
  ghost predicate Eqv(a: int, b: int, m: nat)
    requires m > 0
  {
    a % m == b % m
  }

  /** Being the same element is an equivalence. */
  lemma Reflexive(a: int, m: nat)
    requires m > 0
    ensures Eqv(a, a, m)
  {
  }

  lemma Symmetric(a: int, b: int, m: nat)
    requires m > 0 && Eqv(a, b, m)
    ensures Eqv(b, a, m)
  {
  }

  lemma Transitive(a: int, b: int, c: int, m: nat)
    requires m > 0 && Eqv(a, b, m) && Eqv(b, c, m)
    ensures Eqv(a, c, m)
  {
  }

  lemma Gap(m: nat, a: int, b: int)
    requires a < b
    ensures m * a + m <= m * b
  {
    assert m * (b - a - 1) >= 0;
    assert m * (b - a - 1) == m * b - m * a - m;
  }

  lemma Quotient(a: int, b: int, m: nat) returns (k: int)
    requires m > 0 && Eqv(a, b, m)
    ensures a == b + m * k
  {
    k := a / m - b / m;
    assert a == m * (a / m) + a % m && b == m * (b / m) + b % m;
    assert m * (a / m - b / m) == m * (a / m) - m * (b / m);
  }

  lemma FromQuotient(a: int, b: int, k: int, m: nat)
    requires m > 0 && a == b + m * k
    ensures Eqv(a, b, m)
  {
    var q, r := b / m, b % m;
    assert b == m * q + r;
    assert m * (q + k) == m * q + m * k;
    DivModUnique(a, m, q + k, r);
  }

  lemma Reduce(a: int, m: nat)
    requires m > 0
    ensures Eqv(a % m, a, m) && Eqv(a, a % m, m)
  {
    var q, r := a / m, a % m;
    assert a == m * q + r;
    FromQuotient(a, r, q, m);
  }

  lemma Add(a: int, a': int, b: int, b': int, m: nat)
    requires m > 0 && Eqv(a, a', m) && Eqv(b, b', m)
    ensures Eqv(a + b, a' + b', m) && Eqv(a - b, a' - b', m)
  {
    var j := Quotient(a, a', m);
    var k := Quotient(b, b', m);
    assert m * (j + k) == m * j + m * k && m * (j - k) == m * j - m * k;
    FromQuotient(a + b, a' + b', j + k, m);
    FromQuotient(a - b, a' - b', j - k, m);
  }

  lemma Scale(c: int, a: int, a': int, m: nat)
    requires m > 0 && Eqv(a, a', m)
    ensures Eqv(c * a, c * a', m)
  {
    var k := Quotient(a, a', m);
    assert c * a == c * a' + m * (c * k);
    FromQuotient(c * a, c * a', c * k, m);
  }

  lemma Times(a: int, a': int, b: int, b': int, m: nat)
    requires m > 0 && Eqv(a, a', m) && Eqv(b, b', m)
    ensures Eqv(a * b, a' * b', m)
  {
    Scale(a, b, b', m);
    Scale(b', a, a', m);
    assert b' * a == a * b' && b' * a' == a' * b';
  }

  /** The small ring is a quotient of the big one. */
  lemma Coarser(a: int, b: int, big: nat, small: nat)
    requires small > 0 && big > 0 && big % small == 0 && Eqv(a, b, big)
    ensures Eqv(a, b, small)
  {
    var k := Quotient(a, b, big);
    var c := big / small;
    assert big == small * c;
    assert big * k == small * (c * k);
    FromQuotient(a, b, c * k, small);
  }

  /** Residues below m are equal exactly when they are congruent. */
  lemma Canonical(a: int, m: nat)
    requires m > 0 && 0 <= a < m
    ensures a % m == a
  {
    DivModUnique(a, m, 0, a);
  }

  // ----------------------------------------------------------------------
  // Sums of shares

  function Sum(s: seq<int>): int {
    if s == [] then 0 else s[0] + Sum(s[1..])
  }

  lemma {:induction false} SumAdd(a: seq<int>, b: seq<int>, c: seq<int>, m: nat)
    requires m > 0 && |a| == |b| == |c| && forall i :: 0 <= i < |c| ==> Eqv(c[i], a[i] + b[i], m)
    ensures Eqv(Sum(c), Sum(a) + Sum(b), m)
  {
    if c != [] {
      assert forall i :: 0 <= i < |c[1..]| ==> c[1..][i] == c[i + 1] && a[1..][i] == a[i + 1] && b[1..][i] == b[i + 1];
      SumAdd(a[1..], b[1..], c[1..], m);
      Add(c[0], a[0] + b[0], Sum(c[1..]), Sum(a[1..]) + Sum(b[1..]), m);
    }
  }

  lemma {:induction false} SumSub(a: seq<int>, b: seq<int>, c: seq<int>, m: nat)
    requires m > 0 && |a| == |b| == |c| && forall i :: 0 <= i < |c| ==> Eqv(c[i], a[i] - b[i], m)
    ensures Eqv(Sum(c), Sum(a) - Sum(b), m)
  {
    if c != [] {
      assert forall i :: 0 <= i < |c[1..]| ==> c[1..][i] == c[i + 1] && a[1..][i] == a[i + 1] && b[1..][i] == b[i + 1];
      SumSub(a[1..], b[1..], c[1..], m);
      Add(c[0], a[0] - b[0], Sum(c[1..]), Sum(a[1..]) - Sum(b[1..]), m);
    }
  }

  lemma {:induction false} SumScale(k: int, a: seq<int>, c: seq<int>, m: nat)
    requires m > 0 && |a| == |c| && forall i :: 0 <= i < |c| ==> Eqv(c[i], k * a[i], m)
    ensures Eqv(Sum(c), k * Sum(a), m)
  {
    if c != [] {
      assert forall i :: 0 <= i < |c[1..]| ==> c[1..][i] == c[i + 1] && a[1..][i] == a[i + 1];
      SumScale(k, a[1..], c[1..], m);
      Add(c[0], k * a[0], Sum(c[1..]), k * Sum(a[1..]), m);
      assert k * (a[0] + Sum(a[1..])) == k * a[0] + k * Sum(a[1..]);
    }
  }

  lemma SumTwo(s: seq<int>)
    requires |s| == 2
    ensures Sum(s) == s[0] + s[1]
  {
    assert s[1..][0] == s[1] && s[1..][1..] == [];
    assert Sum(s[1..]) == s[1] + Sum([]);
  }

  /** Bumping one share bumps the sum. */
  lemma {:induction false} SumBump(s: seq<int>, i: nat, t: seq<int>, d: int, m: nat)
    requires m > 0 && i < |s| == |t| && Eqv(t[i], s[i] + d, m)
    requires forall j :: 0 <= j < |s| && j != i ==> t[j] == s[j]
    ensures Eqv(Sum(t), Sum(s) + d, m)
  {
    if i == 0 {
      assert t[1..] == s[1..];
      Add(t[0], s[0] + d, Sum(t[1..]), Sum(s[1..]), m);
    } else {
      assert forall j :: 0 <= j < |s[1..]| ==> s[1..][j] == s[j + 1] && t[1..][j] == t[j + 1];
      SumBump(s[1..], i - 1, t[1..], d, m);
      Add(t[0], s[0], Sum(t[1..]), Sum(s[1..]) + d, m);
    }
  }
}
