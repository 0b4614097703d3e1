/** What random generators return, as arbitrary streams. */
module Draws {

  type BitTape = nat -> bool
  type Tape = nat -> nat
}

/** Permutations of positions, and routing a vector through one. */
module Permutations {
  import opened Draws

  /** All of `p` are positions of a vector of length n. */
  predicate Positions(p: seq<int>, n: nat) {
    |p| == n && forall i :: 0 <= i < n ==> 0 <= p[i] < n
  }

  ghost predicate IsPermutation(p: seq<int>, n: nat) {
    Positions(p, n) && forall i, j :: 0 <= i < j < n ==> p[i] != p[j]
  }

  /** out[i] = in[p[i]] */
  function Route<T>(p: seq<int>, s: seq<T>): (t: seq<T>)
    requires Positions(p, |s|)
    ensures |t| == |s|
  {
    seq(|s|, i requires 0 <= i < |s| => s[p[i]])
  }

  function Identity(n: nat): (p: seq<int>)
    ensures IsPermutation(p, n)
  {
    seq(n, i requires 0 <= i < n => i)
  }

  lemma RouteIdentity<T>(s: seq<T>)
    ensures Route(Identity(|s|), s) == s
  {
  }

  /** First p, then q. */
  function Compose(q: seq<int>, p: seq<int>): (r: seq<int>)
    requires Positions(p, |p|) && Positions(q, |p|)
    ensures Positions(r, |p|)
  {
    seq(|p|, i requires 0 <= i < |p| => p[q[i]])
  }

  lemma RouteCompose<T>(q: seq<int>, p: seq<int>, s: seq<T>)
    requires Positions(p, |s|) && Positions(q, |s|)
    ensures Route(q, Route(p, s)) == Route(Compose(q, p), s)
  {
  }

  lemma ComposeIsPermutation(q: seq<int>, p: seq<int>)
    requires IsPermutation(p, |p|) && IsPermutation(q, |p|)
    ensures IsPermutation(Compose(q, p), |p|)
  {
    var r := Compose(q, p);
    forall i, j | 0 <= i < j < |p| ensures r[i] != r[j] {
      assert q[i] != q[j];
      assert q[i] < q[j] ==> p[q[i]] != p[q[j]];
      assert q[j] < q[i] ==> p[q[j]] != p[q[i]];
    }
  }

  /** Where the element at place i after the first k routings was at the start: back through them, the last one first. */
  function Origin(routings: seq<seq<int>>, n: nat, k: nat, i: int): (o: int)
    requires k <= |routings| && 0 <= i < n && forall j :: 0 <= j < k ==> Positions(routings[j], n)
    ensures 0 <= o < n
  {
    if k == 0 then i
    else
      assert Positions(routings[k - 1], n);
      Origin(routings, n, k - 1, routings[k - 1][i])
  }

  /** Through permutations no two places share an origin, so none is lost. */
  lemma {:induction false} OriginsDiffer(routings: seq<seq<int>>, n: nat, k: nat, i: int, j: int)
    requires k <= |routings| && 0 <= i < n && 0 <= j < n && i != j
    requires forall m :: 0 <= m < k ==> Positions(routings[m], n) && IsPermutation(routings[m], n)
    ensures Origin(routings, n, k, i) != Origin(routings, n, k, j)
    decreases k
  {
    if k > 0 {
      var p := routings[k - 1];
      assert p[if i < j then i else j] != p[if i < j then j else i];
      OriginsDiffer(routings, n, k - 1, p[i], p[j]);
    }
  }

  lemma RouteAt<T>(p: seq<int>, s: seq<T>)
    requires Positions(p, |s|)
    ensures forall i :: 0 <= i < |s| ==> Route(p, s)[i] == s[p[i]]
  {
  }

  lemma ComposeAt(q: seq<int>, p: seq<int>)
    requires Positions(p, |p|) && Positions(q, |p|)
    ensures |Compose(q, p)| == |p| && forall i :: 0 <= i < |p| ==> Compose(q, p)[i] == p[q[i]]
  {
  }

  /** Fisher-Yates: whatever is drawn, the result is a permutation. */
  method RandomPermutation(n: nat, tape: Tape) returns (p: seq<int>)
    ensures IsPermutation(p, n)
  {
    p := Identity(n);
    var i := n;
    while i > 1
      invariant i <= n && IsPermutation(p, n)
    {
      var j := tape(i) % i;
      p := p[i - 1 := p[j]][j := p[i - 1]];
      i := i - 1;
    }
  }

  /** Indexing through a permutation rearranges. */
  lemma {:induction false} IndexedPermutes<T>(s: seq<T>, p: seq<int>, t: seq<T>)
    requires IsPermutation(p, |s|) && |t| == |s| && forall i :: 0 <= i < |t| ==> t[i] == s[p[i]]
    ensures multiset(t) == multiset(s)
    decreases |s|
  {
    if s != [] {
      var n := |s| - 1;
      var k := PlaceOf(p, n);
      // Swap the last index into the last place, and drop it.
      var p', t' := p[k := p[n]][..n], t[k := t[n]][..n];
      DropLast(p, k, n);
      forall i | 0 <= i < n ensures t'[i] == s[..n][p'[i]] {
        assert t[if i == k then n else i] == s[p[if i == k then n else i]];
      }
      IndexedPermutes(s[..n], p', t');
      assert t[k := t[n]] == t' + [t[n]];
      SwapBack(t, k, n);
      assert s == s[..n] + [s[n]];
    }
  }

  lemma DropLast(p: seq<int>, k: nat, n: nat)
    requires IsPermutation(p, n + 1) && k <= n && p[k] == n
    ensures IsPermutation(p[k := p[n]][..n], n)
  {
    var p' := p[k := p[n]][..n];
    forall i, j | 0 <= i < j < n ensures p'[i] != p'[j] {
      assert p[if i == k then n else i] != p[if j == k then n else j];
    }
    forall i | 0 <= i < n ensures 0 <= p'[i] < n {
      assert p[if i == k then n else i] != p[k] || k == n;
    }
  }

  lemma SwapBack<T>(t: seq<T>, k: nat, n: nat)
    requires k <= n && |t| == n + 1
    ensures multiset(t) == multiset(t[k := t[n]][..n]) + multiset{t[k]}
  {
    if k == n {
      assert t == t[..n] + [t[n]];
    } else {
      var u := t[k := t[n]][n := t[k]];
      assert multiset(u) == multiset(t);
      assert u == t[k := t[n]][..n] + [t[k]];
    }
  }

  /** Some place of the permutation holds the last index. */
  lemma PlaceOf(p: seq<int>, n: nat) returns (k: nat)
    requires IsPermutation(p, n + 1)
    ensures k <= n && p[k] == n
  {
    if k' :| 0 <= k' <= n && p[k'] == n {
      k := k';
    } else {
      Pigeonhole(p, n);
      assert false;
    }
  }

  lemma {:induction false} Pigeonhole(p: seq<int>, n: nat)
    requires |p| == n + 1 && forall i :: 0 <= i <= n ==> 0 <= p[i] < n
    ensures exists i, j :: 0 <= i < j <= n && p[i] == p[j]
    decreases n
  {
    var front := p[..n];
    if j :| 0 <= j < n && front[j] == p[n] {
      assert 0 <= j < n <= n && p[j] == p[n];
    } else if n == 0 {
      assert false;
    } else if j :| 0 <= j < n && front[j] == n - 1 {
      var q := front[j := p[n]];
      if k :| 0 <= k < n && k != j && front[k] == n - 1 {
        assert p[if j < k then j else k] == p[if j < k then k else j];
      } else {
        forall i | 0 <= i < n ensures 0 <= q[i] < n - 1 {
        }
        Pigeonhole(q, n - 1);
        var a, b :| 0 <= a < b <= n - 1 && q[a] == q[b];
        assert a != j && b != j ==> p[a] == p[b];
      }
    } else {
      Pigeonhole(front, n - 1);
      var a, b :| 0 <= a < b <= n - 1 && front[a] == front[b];
      assert p[a] == p[b];
    }
  }
}
