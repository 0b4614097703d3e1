/** Reasoning about two parties' coroutines side by side. */
module WireLogic {
  import opened Wire
  import opened MpcSort

  /** A result together with the party's cursor into its triples. */
  datatype At<T> = At(value: T, idx: nat)

  /**
   * Started at cursor `idx` with `len` triples each, the two sides take `cost`
   * triples and end with the same cursor and results related by `post`, or,
   * when the triples do not suffice, both throw.
   */
  ghost predicate Meets<T>(p: Proc<At<T>>, q: Proc<At<T>>, len: nat, idx: nat, cost: nat, post: (T, T) -> bool) {
    var o := Run(p, q);
    if cost == 0 || idx + cost <= len
    then o.Finished? && o.a.idx == o.b.idx == idx + cost && post(o.a.value, o.b.value)
    else o.BothThrow?
  }

  /** From every pair of results related by `pre`, the continuations meet `post`. */
  ghost predicate Continue<S(!new), T>(f: At<S> -> Proc<At<T>>, g: At<S> -> Proc<At<T>>, len: nat, idx: nat, cost: nat,
                                       pre: (S, S) -> bool, post: (T, T) -> bool)
  {
    forall a: At<S>, b: At<S> :: a.idx == b.idx == idx && pre(a.value, b.value) ==>
      Meets(f(a), g(b), len, idx, cost, post)
  }

  /** Sequencing adds the costs. */
  lemma Then<S(!new), T>(p: Proc<At<S>>, q: Proc<At<S>>, f: At<S> -> Proc<At<T>>, g: At<S> -> Proc<At<T>>,
                         len: nat, idx: nat, c: nat, c': nat, mid: (S, S) -> bool, post: (T, T) -> bool)
    requires Meets(p, q, len, idx, c, mid)
    requires (c == 0 || idx + c <= len) ==> Continue(f, g, len, idx + c, c', mid, post)
    ensures Meets(Bind(p, f), Bind(q, g), len, idx, c + c', post)
  {
    RunBind(p, q, f, g);
    hide Bind;
    if c == 0 || idx + c <= len {
      var a, b := Run(p, q).a, Run(p, q).b;
      assert Meets(f(a), g(b), len, idx + c, c', post);
    }
  }

  lemma Weaken<T(!new)>(p: Proc<At<T>>, q: Proc<At<T>>, len: nat, idx: nat, cost: nat, post: (T, T) -> bool, post': (T, T) -> bool)
    requires Meets(p, q, len, idx, cost, post)
    requires forall a, b :: post(a, b) ==> post'(a, b)
    ensures Meets(p, q, len, idx, cost, post')
  {
    if Run(p, q).Finished? {
      var a, b := Run(p, q).a.value, Run(p, q).b.value;
      assert post(a, b) ==> post'(a, b);
    }
  }

  lemma Returns<T>(a: At<T>, b: At<T>, len: nat, post: (T, T) -> bool)
    requires a.idx == b.idx && post(a.value, b.value)
    ensures Meets(Ret(a), Ret(b), len, a.idx, 0, post)
  {
    var p: Proc<At<T>>, q: Proc<At<T>> := Ret(a), Ret(b);
    assert Run(p, q) == Finished(a, b);
  }

  // ----------------------------------------------------------------------
  // Counting loops

  /** for k := i to n { s := body(k, s) } */
  function Loop<S>(body: (nat, At<S>) -> Proc<At<S>>, i: nat, n: nat, s: At<S>): Proc<At<S>>
    decreases n - i, 0
  {
    if i >= n then Ret(s) else Bind(body(i, s), Again(body, i + 1, n))
  }

  function Again<S>(body: (nat, At<S>) -> Proc<At<S>>, i: nat, n: nat): At<S> -> Proc<At<S>>
    decreases n - i, 1
  {
    (s: At<S>) => Loop(body, i, n, s)
  }

  function When<S>(inv: (nat, S, S) -> bool, i: nat): (S, S) -> bool {
    (a: S, b: S) => inv(i, a, b)
  }

  /** Every round keeps the invariant and takes c triples. */
  ghost predicate RoundsKeep<S(!new)>(f: (nat, At<S>) -> Proc<At<S>>, g: (nat, At<S>) -> Proc<At<S>>, n: nat,
                                      len: nat, c: nat, inv: (nat, S, S) -> bool)
  {
    forall k: nat, a: At<S>, b: At<S> :: k < n && a.idx == b.idx && inv(k, a.value, b.value) ==>
      Meets(f(k, a), g(k, b), len, a.idx, c, When(inv, k + 1))
  }

  lemma WhenIs<S>(inv: (nat, S, S) -> bool, i: nat, a: S, b: S)
    ensures When(inv, i)(a, b) == inv(i, a, b)
  {
  }

  lemma AgainIs<S>(f: (nat, At<S>) -> Proc<At<S>>, g: (nat, At<S>) -> Proc<At<S>>, i: nat, n: nat, a: At<S>, b: At<S>)
    ensures Again(f, i, n)(a) == Loop(f, i, n, a) && Again(g, i, n)(b) == Loop(g, i, n, b)
  {
    hide Loop;
  }

  lemma NoRounds<S(!new)>(f: (nat, At<S>) -> Proc<At<S>>, g: (nat, At<S>) -> Proc<At<S>>, n: nat, a: At<S>, b: At<S>,
                          len: nat, c: nat, inv: (nat, S, S) -> bool)
    requires a.idx == b.idx && inv(n, a.value, b.value)
    ensures Meets(Loop(f, n, n, a), Loop(g, n, n, b), len, a.idx, RowCost(0, c), When(inv, n))
  {
  }

  lemma OneRound<S(!new)>(f: (nat, At<S>) -> Proc<At<S>>, g: (nat, At<S>) -> Proc<At<S>>, i: nat, n: nat,
                          a: At<S>, b: At<S>, len: nat, c: nat, inv: (nat, S, S) -> bool)
    requires i < n && a.idx == b.idx && inv(i, a.value, b.value) && RoundsKeep(f, g, n, len, c, inv)
    ensures Meets(f(i, a), g(i, b), len, a.idx, c, When(inv, i + 1))
    ensures Loop(f, i, n, a) == Bind(f(i, a), Again(f, i + 1, n)) && Loop(g, i, n, b) == Bind(g(i, b), Again(g, i + 1, n))
    ensures RowCost(n - i, c) == c + RowCost(n - i - 1, c)
  {
    hide Meets, Bind;
  }

  lemma {:induction false} LoopMeets<S(!new)>(f: (nat, At<S>) -> Proc<At<S>>, g: (nat, At<S>) -> Proc<At<S>>,
                                              i: nat, n: nat, a: At<S>, b: At<S>, len: nat, c: nat,
                                              inv: (nat, S, S) -> bool)
    requires i <= n && a.idx == b.idx && inv(i, a.value, b.value) && RoundsKeep(f, g, n, len, c, inv)
    ensures Meets(Loop(f, i, n, a), Loop(g, i, n, b), len, a.idx, RowCost(n - i, c), When(inv, n))
    decreases n - i
  {
    hide Meets, Bind, Loop, RowCost, RoundsKeep, When;
    if i == n {
      NoRounds(f, g, n, a, b, len, c, inv);
    } else {
      OneRound(f, g, i, n, a, b, len, c, inv);
      var mid, post := When(inv, i + 1), When(inv, n);
      var rest := RowCost(n - i - 1, c);
      forall a': At<S>, b': At<S> | a'.idx == b'.idx == a.idx + c && mid(a'.value, b'.value)
        ensures Meets(Again(f, i + 1, n)(a'), Again(g, i + 1, n)(b'), len, a.idx + c, rest, post)
      {
        WhenIs(inv, i + 1, a'.value, b'.value);
        AgainIs(f, g, i + 1, n, a', b');
        LoopMeets(f, g, i + 1, n, a', b', len, c, inv);
      }
      Then(f(i, a), g(i, b), Again(f, i + 1, n), Again(g, i + 1, n), len, a.idx, c, rest, mid, post);
    }
  }
}
