/** The wire bitonic sort: each party permutes its own shares under shared selectors. */
module WireSort {
  import opened Words
  import opened Shares
  import opened Compare
  import opened Network
  import opened PaddedSort
  import opened InPlace
  import opened MpcSort
  import opened Wire
  import opened WireLogic
  import opened WireGates

  datatype WireElem = WireElem(key: Bits, payload: Bits)

  type Vec = seq<WireElem>

  /** Both parties hold a share of the same element, with w payload bits. */
  ghost predicate Mates(a: WireElem, b: WireElem, w: nat) {
    |a.key| == |b.key| == 64 && |a.payload| == |b.payload| == w
  }

  /** The element the two shares stand for. */
  function JointElem(a: WireElem, b: WireElem): Elem<Bits>
    requires |a.key| == |b.key| && |a.payload| == |b.payload|
  {
    Elem(ToNat(XorEach(a.key, b.key)), XorEach(a.payload, b.payload))
  }

  ghost predicate AllMates(s: Vec, t: Vec, w: nat) {
    |s| == |t| && forall i :: 0 <= i < |s| ==> Mates(s[i], t[i], w)
  }

  ghost function JointAll(s: Vec, t: Vec, w: nat): (j: seq<Elem<Bits>>)
    requires AllMates(s, t, w)
    ensures |j| == |s|
    ensures forall i :: 0 <= i < |s| ==> j[i] == JointElem(s[i], t[i])
  {
    seq(|s|, i requires 0 <= i < |s| => JointElem(s[i], t[i]))
  }

  // ----------------------------------------------------------------------
  // Less-than over 64 bits

  function LessBody(me: nat, x: Bits, y: Bits, ts: seq<MyTriple>): (nat, At<Verdict>) -> Proc<At<Verdict>> {
    (k: nat, v: At<Verdict>) =>
      if k < |x| && k < |y| then WireLessRound(me, x[|x| - 1 - k], y[|y| - 1 - k], v.value, ts, v.idx) else Throw
  }

  function TakeResult(): At<Verdict> -> Proc<At<bool>> {
    (v: At<Verdict>) => Ret(At(v.value.result, v.idx))
  }

  function WireLess(me: nat, x: Bits, y: Bits, ts: seq<MyTriple>, idx: nat): Proc<At<bool>> {
    Bind(Loop(LessBody(me, x, y, ts), 0, 64, At(Verdict(false, false), idx)), TakeResult())
  }

  /** After k rounds the verdict is the comparison of the top k bits. */
  ghost function DecidesTop(x: Bits, y: Bits): (nat, Verdict, Verdict) -> bool {
    (k: nat, v0: Verdict, v1: Verdict) => k <= |x| == |y| && Decides(Joint(v0, v1), x, y, |x| - k)
  }

  ghost predicate Decides(v: Verdict, x: Bits, y: Bits, i: nat)
    requires i <= |x| == |y|
  {
    (v.result <==> ToNat(x[i..]) < ToNat(y[i..])) && (v.decided <==> x[i..] != y[i..])
  }

  lemma DecidesStep(v: Verdict, v': Verdict, x: Bits, y: Bits, i: nat)
    requires 0 < i <= |x| == |y| && Decides(v, x, y, i)
    requires var first := x[i - 1] != y[i - 1] && !v.decided;
             v' == Verdict(v.result || (first && y[i - 1]), v.decided || first)
    ensures Decides(v', x, y, i - 1)
  {
    Compare.LessRound(x, y, i - 1);
  }

  lemma LessRoundKeeps(k: nat, a: At<Verdict>, b: At<Verdict>, x0: Bits, y0: Bits, x1: Bits, y1: Bits,
                       t0: seq<MyTriple>, t1: seq<MyTriple>)
    requires Paired(t0, t1) && |x0| == |y0| == |x1| == |y1| && k < |x0| && a.idx == b.idx
    requires DecidesTop(XorEach(x0, x1), XorEach(y0, y1))(k, a.value, b.value)
    ensures Meets(LessBody(0, x0, y0, t0)(k, a), LessBody(1, x1, y1, t1)(k, b), |t0|, a.idx, 4,
                  When(DecidesTop(XorEach(x0, x1), XorEach(y0, y1)), k + 1))
  {
    hide WireLessRound, Meets, Decides, Paired, Joint;
    var x, y, i := XorEach(x0, x1), XorEach(y0, y1), |x0| - k;
    var v := Joint(a.value, b.value);
    var first := x[i - 1] != y[i - 1] && !v.decided;
    var v' := Verdict(v.result || (first && y[i - 1]), v.decided || first);
    RoundMeets(x0[i - 1], y0[i - 1], a.value, x1[i - 1], y1[i - 1], b.value, t0, t1, a.idx);
    DecidesStep(v, v', x, y, i);
    Weaken(LessBody(0, x0, y0, t0)(k, a), LessBody(1, x1, y1, t1)(k, b), |t0|, a.idx, 4,
           VerdictOf(v'), When(DecidesTop(x, y), k + 1));
  }

  lemma DecidesStarts(x: Bits, y: Bits)
    requires |x| == |y|
    ensures DecidesTop(x, y)(0, Verdict(false, false), Verdict(false, false))
  {
    assert x[|x|..] == [] && y[|x|..] == [];
    assert Decides(Joint(Verdict(false, false), Verdict(false, false)), x, y, |x|);
  }

  lemma DecidesEnds(x: Bits, y: Bits, a: Verdict, b: Verdict)
    requires |x| == |y| && DecidesTop(x, y)(|x|, a, b)
    ensures SharesOf(ToNat(x) < ToNat(y))(a.result, b.result)
  {
    assert Decides(Joint(a, b), x, y, 0);
    assert x[0..] == x && y[0..] == y;
  }

  lemma LessMeets(x0: Bits, y0: Bits, x1: Bits, y1: Bits, t0: seq<MyTriple>, t1: seq<MyTriple>, idx: nat)
    requires Paired(t0, t1) && |x0| == |y0| == |x1| == |y1| == 64
    ensures Meets(WireLess(0, x0, y0, t0, idx), WireLess(1, x1, y1, t1, idx), |t0|, idx, LESS_THAN_COST,
                  SharesOf(ToNat(XorEach(x0, x1)) < ToNat(XorEach(y0, y1))))
  {
    hide LessBody, Loop, Meets, DecidesTop, Bind, Paired, RowCost;
    var x, y := XorEach(x0, x1), XorEach(y0, y1);
    var start, inv := At(Verdict(false, false), idx), DecidesTop(x, y);
    var f, g := LessBody(0, x0, y0, t0), LessBody(1, x1, y1, t1);
    DecidesStarts(x, y);
    forall k: nat, a: At<Verdict>, b: At<Verdict> | k < 64 && a.idx == b.idx && inv(k, a.value, b.value)
      ensures Meets(f(k, a), g(k, b), |t0|, a.idx, 4, When(inv, k + 1))
    {
      LessRoundKeeps(k, a, b, x0, y0, x1, y1, t0, t1);
    }
    LoopMeets(f, g, 0, 64, start, start, |t0|, 4, inv);
    RowCostProduct(64, 4);
    var post := SharesOf(ToNat(x) < ToNat(y));
    forall a: At<Verdict>, b: At<Verdict> | a.idx == b.idx == idx + 256 && When(inv, 64)(a.value, b.value)
      ensures Meets(TakeResult()(a), TakeResult()(b), |t0|, idx + 256, 0, post)
    {
      DecidesEnds(x, y, a.value, b.value);
      Returns(At(a.value.result, a.idx), At(b.value.result, b.idx), |t0|, post);
    }
    Then(Loop(f, 0, 64, start), Loop(g, 0, 64, start), TakeResult(), TakeResult(), |t0|, idx, 256, 0, When(inv, 64), post);
  }

  // ----------------------------------------------------------------------
  // Conditional swap

  datatype Two = Two(a: Bits, b: Bits)

  function Absorb(x: Two, i: nat, diff: bool): Two
    requires i < |x.a| && i < |x.b|
  {
    Two(x.a[i := x.a[i] != diff], x.b[i := x.b[i] != diff])
  }

  /** One bit: maskedDiff = selector AND (a XOR b), and both sides absorb it. */
  function SwapBody(me: nat, selector: bool, ts: seq<MyTriple>): (nat, At<Two>) -> Proc<At<Two>> {
    (i: nat, x: At<Two>) =>
      if i < |x.value.a| && i < |x.value.b|
      then Bind(WireAnd(me, selector, x.value.a[i] != x.value.b[i], ts, x.idx), AbsorbAt(x.value, i))
      else Throw
  }

  function AbsorbAt(x: Two, i: nat): At<bool> -> Proc<At<Two>>
    requires i < |x.a| && i < |x.b|
  {
    (diff: At<bool>) => Ret(At(Absorb(x, i, diff.value), diff.idx))
  }

  ghost predicate Matching(x: Two, y: Two, n: nat) {
    |x.a| == |x.b| == |y.a| == |y.b| == n
  }

  /** `x` and `y` are shares of `s` with the first i positions exchanged when `on`. */
  ghost predicate SwappedTo(s: Two, x: Two, y: Two, i: nat, on: bool)
    requires |s.a| == |s.b|
  {
    Matching(x, y, |s.a|)
    && forall k :: 0 <= k < |s.a| ==>
         && (x.a[k] != y.a[k]) == (if on && k < i then s.b[k] else s.a[k])
         && (x.b[k] != y.b[k]) == (if on && k < i then s.a[k] else s.b[k])
  }

  ghost function SwapInv(s: Two, on: bool): (nat, Two, Two) -> bool
    requires |s.a| == |s.b|
  {
    (i: nat, x: Two, y: Two) => SwappedTo(s, x, y, i, on)
  }

  lemma SwapStep(s: Two, x: Two, y: Two, i: nat, on: bool, d: bool, e: bool)
    requires i < |s.a| == |s.b| && SwappedTo(s, x, y, i, on)
    requires (d != e) == (on && ((x.a[i] != x.b[i]) != (y.a[i] != y.b[i])))
    ensures SwappedTo(s, Absorb(x, i, d), Absorb(y, i, e), i + 1, on)
  {
  }

  lemma AbsorbKeeps(x: Two, y: Two, i: nat, s: Two, on: bool, len: nat, idx: nat)
    requires i < |s.a| == |s.b| && SwappedTo(s, x, y, i, on)
    ensures Continue(AbsorbAt(x, i), AbsorbAt(y, i), len, idx, 0,
                     SharesOf(on && ((x.a[i] != x.b[i]) != (y.a[i] != y.b[i]))), When(SwapInv(s, on), i + 1))
  {
    var v, post := on && ((x.a[i] != x.b[i]) != (y.a[i] != y.b[i])), When(SwapInv(s, on), i + 1);
    assert Matching(x, y, |s.a|);
    hide Meets, SwappedTo, Absorb;
    forall d: At<bool>, e: At<bool> | d.idx == e.idx == idx && SharesOf(v)(d.value, e.value)
      ensures Meets(AbsorbAt(x, i)(d), AbsorbAt(y, i)(e), len, idx, 0, post)
    {
      SwapStep(s, x, y, i, on, d.value, e.value);
      Returns(At(Absorb(x, i, d.value), d.idx), At(Absorb(y, i, e.value), e.idx), len, post);
    }
  }

  lemma SwapBodyKeeps(i: nat, a: At<Two>, b: At<Two>, s: Two, on0: bool, on1: bool, t0: seq<MyTriple>, t1: seq<MyTriple>)
    requires Paired(t0, t1) && i < |s.a| == |s.b| && a.idx == b.idx
    requires SwapInv(s, on0 != on1)(i, a.value, b.value)
    ensures Meets(SwapBody(0, on0, t0)(i, a), SwapBody(1, on1, t1)(i, b), |t0|, a.idx, 1,
                  When(SwapInv(s, on0 != on1), i + 1))
  {
    var x, y, inv := a.value, b.value, SwapInv(s, on0 != on1);
    assert Matching(x, y, |s.a|);
    hide WireAnd, Meets, Paired, Bind, SwappedTo, AbsorbAt, SharesOf, Continue, When;
    var v := (on0 != on1) && ((x.a[i] != x.b[i]) != (y.a[i] != y.b[i]));
    AndMeets(on0, x.a[i] != x.b[i], on1, y.a[i] != y.b[i], t0, t1, a.idx);
    AbsorbKeeps(x, y, i, s, on0 != on1, |t0|, a.idx + 1);
    Then(WireAnd(0, on0, x.a[i] != x.b[i], t0, a.idx), WireAnd(1, on1, y.a[i] != y.b[i], t1, a.idx),
         AbsorbAt(x, i), AbsorbAt(y, i), |t0|, a.idx, 1, 0, SharesOf(v), When(inv, i + 1));
  }

  function WireSwapBits(me: nat, x: At<Two>, selector: bool, ts: seq<MyTriple>): Proc<At<Two>> {
    Loop(SwapBody(me, selector, ts), 0, |x.value.a|, x)
  }

  /** Two words of n bits each, shared between the parties. */
  function JointTwo(x: Two, y: Two): Two
    requires |x.a| == |y.a| && |x.b| == |y.b|
  {
    Two(XorEach(x.a, y.a), XorEach(x.b, y.b))
  }

  /** The results are shares of `s`, exchanged when `on`. */
  ghost function ExchangedIf(s: Two, on: bool): (Two, Two) -> bool {
    (x: Two, y: Two) => Matching(x, y, |s.a|) && JointTwo(x, y) == if on then Two(s.b, s.a) else s
  }

  lemma SwapMeets(x: At<Two>, y: At<Two>, n: nat, on0: bool, on1: bool, t0: seq<MyTriple>, t1: seq<MyTriple>)
    requires Paired(t0, t1) && Matching(x.value, y.value, n) && x.idx == y.idx
    ensures Meets(WireSwapBits(0, x, on0, t0), WireSwapBits(1, y, on1, t1), |t0|, x.idx, n,
                  ExchangedIf(JointTwo(x.value, y.value), on0 != on1))
  {
    var s := JointTwo(x.value, y.value);
    var f, g, inv := SwapBody(0, on0, t0), SwapBody(1, on1, t1), SwapInv(s, on0 != on1);
    assert inv(0, x.value, y.value);
    hide SwapBody, Loop, Meets, Paired, RowCost;
    forall k: nat, a: At<Two>, b: At<Two> | k < n && a.idx == b.idx && inv(k, a.value, b.value)
      ensures Meets(f(k, a), g(k, b), |t0|, a.idx, 1, When(inv, k + 1))
    {
      SwapBodyKeeps(k, a, b, s, on0, on1, t0, t1);
    }
    LoopMeets(f, g, 0, n, x, y, |t0|, 1, inv);
    RowCostProduct(n, 1);
    forall a, b | When(inv, n)(a, b) ensures ExchangedIf(s, on0 != on1)(a, b) {
      AllSwapped(s, a, b, on0 != on1);
    }
    Weaken(Loop(f, 0, n, x), Loop(g, 0, n, y), |t0|, x.idx, n, When(inv, n), ExchangedIf(s, on0 != on1));
  }

  lemma AllSwapped(s: Two, x: Two, y: Two, on: bool)
    requires |s.a| == |s.b| && SwappedTo(s, x, y, |s.a|, on)
    ensures ExchangedIf(s, on)(x, y)
  {
    assert XorEach(x.a, y.a) == if on then s.b else s.a;
    assert XorEach(x.b, y.b) == if on then s.a else s.b;
  }

  datatype Duo = Duo(a: WireElem, b: WireElem)

  function WireConditionalSwap(me: nat, x: Duo, selector: bool, ts: seq<MyTriple>, idx: nat): Proc<At<Duo>> {
    if |x.a.payload| != |x.b.payload| then Throw
    else Bind(WireSwapBits(me, At(Two(x.a.key, x.b.key), idx), selector, ts), AfterKeys(me, x, selector, ts))
  }

  function AfterKeys(me: nat, x: Duo, selector: bool, ts: seq<MyTriple>): At<Two> -> Proc<At<Duo>> {
    (keys: At<Two>) => Bind(WireSwapBits(me, At(Two(x.a.payload, x.b.payload), keys.idx), selector, ts), Rebuild(keys.value))
  }

  function Rebuild(keys: Two): At<Two> -> Proc<At<Duo>> {
    (p: At<Two>) => Ret(At(Duo(WireElem(keys.a, p.value.a), WireElem(keys.b, p.value.b)), p.idx))
  }

  /** Shares of the elements a and b. */
  ghost function DuoOf(a: Elem<Bits>, b: Elem<Bits>, w: nat): (Duo, Duo) -> bool {
    (x: Duo, y: Duo) => && Mates(x.a, y.a, w) && Mates(x.b, y.b, w)
                        && JointElem(x.a, y.a) == a && JointElem(x.b, y.b) == b
  }

  lemma RebuildMeets(k0: Two, k1: Two, p0: At<Two>, p1: At<Two>, keys: Two, payloads: Two, on: bool, w: nat, len: nat)
    requires |keys.a| == |keys.b| == 64 && |payloads.a| == |payloads.b| == w && p0.idx == p1.idx
    requires ExchangedIf(keys, on)(k0, k1) && ExchangedIf(payloads, on)(p0.value, p1.value)
    ensures var a, b := Elem(ToNat(keys.a), payloads.a), Elem(ToNat(keys.b), payloads.b);
            Meets(Rebuild(k0)(p0), Rebuild(k1)(p1), len, p0.idx, 0, if on then DuoOf(b, a, w) else DuoOf(a, b, w))
  {
    hide ToNat, Meets;
    var a, b := Elem(ToNat(keys.a), payloads.a), Elem(ToNat(keys.b), payloads.b);
    var x := Duo(WireElem(k0.a, p0.value.a), WireElem(k0.b, p0.value.b));
    var y := Duo(WireElem(k1.a, p1.value.a), WireElem(k1.b, p1.value.b));
    Returns(At(x, p0.idx), At(y, p1.idx), len, if on then DuoOf(b, a, w) else DuoOf(a, b, w));
  }

  lemma AfterKeysMeets(x: Duo, y: Duo, k0: At<Two>, k1: At<Two>, on0: bool, on1: bool, w: nat,
                       t0: seq<MyTriple>, t1: seq<MyTriple>)
    requires Paired(t0, t1) && Mates(x.a, y.a, w) && Mates(x.b, y.b, w) && k0.idx == k1.idx
    requires ExchangedIf(JointTwo(Two(x.a.key, x.b.key), Two(y.a.key, y.b.key)), on0 != on1)(k0.value, k1.value)
    ensures var a, b := JointElem(x.a, y.a), JointElem(x.b, y.b);
            Meets(AfterKeys(0, x, on0, t0)(k0), AfterKeys(1, y, on1, t1)(k1), |t0|, k0.idx, w,
                  if on0 != on1 then DuoOf(b, a, w) else DuoOf(a, b, w))
  {
    hide Meets, Paired, WireSwapBits, ExchangedIf, DuoOf, ToNat, Bind, Rebuild;
    var keys := JointTwo(Two(x.a.key, x.b.key), Two(y.a.key, y.b.key));
    var p, q := Two(x.a.payload, x.b.payload), Two(y.a.payload, y.b.payload);
    var post := if on0 != on1 then DuoOf(JointElem(x.b, y.b), JointElem(x.a, y.a), w)
                else DuoOf(JointElem(x.a, y.a), JointElem(x.b, y.b), w);
    SwapMeets(At(p, k0.idx), At(q, k1.idx), w, on0, on1, t0, t1);
    forall p0: At<Two>, p1: At<Two> |
      p0.idx == p1.idx == k0.idx + w && ExchangedIf(JointTwo(p, q), on0 != on1)(p0.value, p1.value)
      ensures Meets(Rebuild(k0.value)(p0), Rebuild(k1.value)(p1), |t0|, k0.idx + w, 0, post)
    {
      RebuildMeets(k0.value, k1.value, p0, p1, keys, JointTwo(p, q), on0 != on1, w, |t0|);
    }
    Then(WireSwapBits(0, At(p, k0.idx), on0, t0), WireSwapBits(1, At(q, k1.idx), on1, t1),
         Rebuild(k0.value), Rebuild(k1.value), |t0|, k0.idx, w, 0, ExchangedIf(JointTwo(p, q), on0 != on1), post);
  }

  lemma ConditionalSwapMeets(x: Duo, y: Duo, on0: bool, on1: bool, w: nat,
                             t0: seq<MyTriple>, t1: seq<MyTriple>, idx: nat)
    requires Paired(t0, t1) && Mates(x.a, y.a, w) && Mates(x.b, y.b, w)
    ensures var a, b := JointElem(x.a, y.a), JointElem(x.b, y.b);
            Meets(WireConditionalSwap(0, x, on0, t0, idx), WireConditionalSwap(1, y, on1, t1, idx), |t0|, idx, SwapCost(w),
                  if on0 != on1 then DuoOf(b, a, w) else DuoOf(a, b, w))
  {
    hide Meets, Paired, WireSwapBits, ExchangedIf, DuoOf, ToNat, Bind, AfterKeys;
    var p, q := Two(x.a.key, x.b.key), Two(y.a.key, y.b.key);
    var post := if on0 != on1 then DuoOf(JointElem(x.b, y.b), JointElem(x.a, y.a), w)
                else DuoOf(JointElem(x.a, y.a), JointElem(x.b, y.b), w);
    SwapMeets(At(p, idx), At(q, idx), 64, on0, on1, t0, t1);
    forall k0: At<Two>, k1: At<Two> |
      k0.idx == k1.idx == idx + 64 && ExchangedIf(JointTwo(p, q), on0 != on1)(k0.value, k1.value)
      ensures Meets(AfterKeys(0, x, on0, t0)(k0), AfterKeys(1, y, on1, t1)(k1), |t0|, idx + 64, w, post)
    {
      AfterKeysMeets(x, y, k0, k1, on0, on1, w, t0, t1);
    }
    Then(WireSwapBits(0, At(p, idx), on0, t0), WireSwapBits(1, At(q, idx), on1, t1),
         AfterKeys(0, x, on0, t0), AfterKeys(1, y, on1, t1), |t0|, idx, 64, w,
         ExchangedIf(JointTwo(p, q), on0 != on1), post);
  }

  // ----------------------------------------------------------------------
  // Comparators on a vector

  /** Shares of the vector j. */
  ghost function VecOf(j: seq<Elem<Bits>>, w: nat): (Vec, Vec) -> bool {
    (s: Vec, t: Vec) => AllMates(s, t, w) && JointAll(s, t, w) == j
  }

  function WireCompareAndSwap(me: nat, ascending: bool, s: At<Vec>, i: nat, j: nat, ts: seq<MyTriple>): Proc<At<Vec>> {
    if i >= j || j >= |s.value| then Throw
    else
      var a, b := s.value[i], s.value[j];
      Bind(if ascending then WireLess(me, b.key, a.key, ts, s.idx) else WireLess(me, a.key, b.key, ts, s.idx),
           AfterSelector(me, s.value, i, j, ts))
  }

  function AfterSelector(me: nat, s: Vec, i: nat, j: nat, ts: seq<MyTriple>): At<bool> -> Proc<At<Vec>>
    requires i < j < |s|
  {
    (selector: At<bool>) => Bind(WireConditionalSwap(me, Duo(s[i], s[j]), selector.value, ts, selector.idx), Store(s, i, j))
  }

  function Store(s: Vec, i: nat, j: nat): At<Duo> -> Proc<At<Vec>>
    requires i < j < |s|
  {
    (d: At<Duo>) => Ret(At(s[i := d.value.a][j := d.value.b], d.idx))
  }

  lemma StoreMeets(s: Vec, t: Vec, i: nat, j: nat, d: At<Duo>, e: At<Duo>, js: seq<Elem<Bits>>, w: nat,
                   a: Elem<Bits>, b: Elem<Bits>, len: nat)
    requires i < j < |js| && VecOf(js, w)(s, t) && d.idx == e.idx && DuoOf(a, b, w)(d.value, e.value)
    ensures |s| == |t| == |js|
    ensures Meets(Store(s, i, j)(d), Store(t, i, j)(e), len, d.idx, 0, VecOf(js[i := a][j := b], w))
  {
    hide Meets, JointElem;
    var s', t' := s[i := d.value.a][j := d.value.b], t[i := e.value.a][j := e.value.b];
    assert JointAll(s', t', w) == js[i := a][j := b];
    Returns(At(s', d.idx), At(t', e.idx), len, VecOf(js[i := a][j := b], w));
  }

  lemma StoreContinues(s: Vec, t: Vec, i: nat, j: nat, js: seq<Elem<Bits>>, w: nat, a: Elem<Bits>, b: Elem<Bits>,
                       len: nat, idx: nat)
    requires i < j < |js| && VecOf(js, w)(s, t)
    ensures |s| == |t| == |js|
    ensures Continue(Store(s, i, j), Store(t, i, j), len, idx, 0, DuoOf(a, b, w), VecOf(js[i := a][j := b], w))
  {
    assert |s| == |t| == |js|;
    hide Meets, DuoOf, VecOf, Store;
    forall d: At<Duo>, e: At<Duo> | d.idx == e.idx == idx && DuoOf(a, b, w)(d.value, e.value)
      ensures Meets(Store(s, i, j)(d), Store(t, i, j)(e), len, idx, 0, VecOf(js[i := a][j := b], w))
    {
      StoreMeets(s, t, i, j, d, e, js, w, a, b, len);
    }
  }

  lemma VecAt(s: Vec, t: Vec, i: nat, js: seq<Elem<Bits>>, w: nat)
    requires i < |js| && VecOf(js, w)(s, t)
    ensures |s| == |t| == |js| && Mates(s[i], t[i], w) && js[i] == JointElem(s[i], t[i])
  {
  }

  lemma SelectorMeets(s: Vec, t: Vec, i: nat, j: nat, p: At<bool>, q: At<bool>, js: seq<Elem<Bits>>, w: nat,
                      t0: seq<MyTriple>, t1: seq<MyTriple>)
    requires Paired(t0, t1) && i < j < |js| && VecOf(js, w)(s, t) && p.idx == q.idx
    ensures |s| == |t| == |js|
    ensures Meets(AfterSelector(0, s, i, j, t0)(p), AfterSelector(1, t, i, j, t1)(q), |t0|, p.idx, SwapCost(w),
                  VecOf(if p.value != q.value then js[i := js[j]][j := js[i]] else js, w))
  {
    hide Meets, Paired, WireConditionalSwap, DuoOf, VecOf, JointElem, Bind, Store, Mates, SwapCost, Continue, XorEach;
    var on := p.value != q.value;
    var a, b := if on then js[j] else js[i], if on then js[i] else js[j];
    VecAt(s, t, i, js, w);
    VecAt(s, t, j, js, w);
    ConditionalSwapMeets(Duo(s[i], s[j]), Duo(t[i], t[j]), p.value, q.value, w, t0, t1, p.idx);
    var js' := js[i := a][j := b];
    assert js' == if on then js[i := js[j]][j := js[i]] else js;
    StoreContinues(s, t, i, j, js, w, a, b, |t0|, p.idx + SwapCost(w));
    Then(WireConditionalSwap(0, Duo(s[i], s[j]), p.value, t0, p.idx),
         WireConditionalSwap(1, Duo(t[i], t[j]), q.value, t1, q.idx),
         Store(s, i, j), Store(t, i, j), |t0|, p.idx, SwapCost(w), 0, DuoOf(a, b, w), VecOf(js', w));
  }

  /** Whether the comparator at (i, j) exchanges. */
  ghost function Inverted(js: seq<Elem<Bits>>, ascending: bool, i: nat, j: nat): bool
    requires i < j < |js|
  {
    if ascending then js[j].key < js[i].key else js[i].key < js[j].key
  }

  lemma SelectMeets(s: Vec, t: Vec, i: nat, j: nat, idx: nat, ascending: bool, js: seq<Elem<Bits>>, w: nat,
                    t0: seq<MyTriple>, t1: seq<MyTriple>)
    requires Paired(t0, t1) && i < j < |js| && VecOf(js, w)(s, t)
    ensures |s| == |t| == |js|
    ensures Meets(if ascending then WireLess(0, s[j].key, s[i].key, t0, idx) else WireLess(0, s[i].key, s[j].key, t0, idx),
                  if ascending then WireLess(1, t[j].key, t[i].key, t1, idx) else WireLess(1, t[i].key, t[j].key, t1, idx),
                  |t0|, idx, LESS_THAN_COST, SharesOf(Inverted(js, ascending, i, j)))
  {
    hide Meets, Paired, WireLess, ToNat, VecOf;
    VecAt(s, t, i, js, w);
    VecAt(s, t, j, js, w);
    if ascending {
      LessMeets(s[j].key, s[i].key, t[j].key, t[i].key, t0, t1, idx);
    } else {
      LessMeets(s[i].key, s[j].key, t[i].key, t[j].key, t0, t1, idx);
    }
  }

  lemma CompareMeets(s: At<Vec>, t: At<Vec>, i: nat, j: nat, ascending: bool, js: seq<Elem<Bits>>, w: nat,
                     t0: seq<MyTriple>, t1: seq<MyTriple>)
    requires Paired(t0, t1) && i < j < |js| && VecOf(js, w)(s.value, t.value) && s.idx == t.idx
    ensures Meets(WireCompareAndSwap(0, ascending, s, i, j, t0), WireCompareAndSwap(1, ascending, t, i, j, t1),
                  |t0|, s.idx, StepCost(w), VecOf(CompareAt(false, ascending, js, i, j), w))
  {
    hide Meets, Paired, WireLess, VecOf, Bind, AfterSelector;
    SelectMeets(s.value, t.value, i, j, s.idx, ascending, js, w, t0, t1);
    var on, post := Inverted(js, ascending, i, j), VecOf(CompareAt(false, ascending, js, i, j), w);
    var idx := s.idx + LESS_THAN_COST;
    forall p: At<bool>, q: At<bool> | p.idx == q.idx == idx && SharesOf(on)(p.value, q.value)
      ensures Meets(AfterSelector(0, s.value, i, j, t0)(p), AfterSelector(1, t.value, i, j, t1)(q), |t0|, idx,
                    SwapCost(w), post)
    {
      SelectorMeets(s.value, t.value, i, j, p, q, js, w, t0, t1);
    }
    var a, b, c, d := s.value[i].key, s.value[j].key, t.value[i].key, t.value[j].key;
    Then(if ascending then WireLess(0, b, a, t0, s.idx) else WireLess(0, a, b, t0, s.idx),
         if ascending then WireLess(1, d, c, t1, s.idx) else WireLess(1, c, d, t1, s.idx),
         AfterSelector(0, s.value, i, j, t0), AfterSelector(1, t.value, i, j, t1), |t0|, s.idx, LESS_THAN_COST,
         SwapCost(w), SharesOf(on), post);
  }

  // ----------------------------------------------------------------------
  // The network

  function RowBody(me: nat, ascending: bool, low: nat, k: nat, ts: seq<MyTriple>): (nat, At<Vec>) -> Proc<At<Vec>> {
    (i: nat, s: At<Vec>) => WireCompareAndSwap(me, ascending, s, low + i, low + i + k, ts)
  }

  function WireRow(me: nat, ascending: bool, s: At<Vec>, low: nat, k: nat, ts: seq<MyTriple>): Proc<At<Vec>> {
    Loop(RowBody(me, ascending, low, k, ts), 0, k, s)
  }

  ghost function RowInv(js: seq<Elem<Bits>>, w: nat, ascending: bool, low: nat, k: nat): (nat, Vec, Vec) -> bool
    requires low + 2 * k <= |js|
  {
    (i: nat, s: Vec, t: Vec) => i <= k && VecOf(RowUpTo(false, ascending, js, low, k, i), w)(s, t)
  }

  lemma RowMeets(s: At<Vec>, t: At<Vec>, low: nat, k: nat, ascending: bool, js: seq<Elem<Bits>>, w: nat,
                 t0: seq<MyTriple>, t1: seq<MyTriple>)
    requires Paired(t0, t1) && low + 2 * k <= |js| && VecOf(js, w)(s.value, t.value) && s.idx == t.idx
    ensures Meets(WireRow(0, ascending, s, low, k, t0), WireRow(1, ascending, t, low, k, t1), |t0|, s.idx,
                  RowCost(k, StepCost(w)), VecOf(RowUpTo(false, ascending, js, low, k, k), w))
  {
    hide Meets, Paired, WireCompareAndSwap, VecOf, Loop, StepCost, CompareAt, RowCost;
    var f, g := RowBody(0, ascending, low, k, t0), RowBody(1, ascending, low, k, t1);
    var inv, c := RowInv(js, w, ascending, low, k), StepCost(w);
    forall i: nat, a: At<Vec>, b: At<Vec> | i < k && a.idx == b.idx && inv(i, a.value, b.value)
      ensures Meets(f(i, a), g(i, b), |t0|, a.idx, c, When(inv, i + 1))
    {
      var js' := RowUpTo(false, ascending, js, low, k, i);
      CompareMeets(a, b, low + i, low + i + k, ascending, js', w, t0, t1);
      assert RowUpTo(false, ascending, js, low, k, i + 1) == CompareAt(false, ascending, js', low + i, low + i + k);
      Weaken(f(i, a), g(i, b), |t0|, a.idx, c, VecOf(CompareAt(false, ascending, js', low + i, low + i + k), w),
             When(inv, i + 1));
    }
    assert RowUpTo(false, ascending, js, low, k, 0) == js;
    LoopMeets(f, g, 0, k, s, t, |t0|, c, inv);
    Weaken(Loop(f, 0, k, s), Loop(g, 0, k, t), |t0|, s.idx, RowCost(k, c), When(inv, k),
           VecOf(RowUpTo(false, ascending, js, low, k, k), w));
  }

  function WireMerge(me: nat, ascending: bool, s: At<Vec>, low: nat, cnt: nat, ts: seq<MyTriple>): Proc<At<Vec>>
    decreases cnt, 0
  {
    if cnt <= 1 then Ret(s)
    else Bind(WireRow(me, ascending, s, low, cnt / 2, ts), MergeHalves(me, ascending, low, cnt / 2, ts))
  }

  function MergeHalves(me: nat, ascending: bool, low: nat, k: nat, ts: seq<MyTriple>): At<Vec> -> Proc<At<Vec>>
    decreases k, 2
  {
    (s: At<Vec>) => Bind(WireMerge(me, ascending, s, low, k, ts), MergeHigh(me, ascending, low + k, k, ts))
  }

  function MergeHigh(me: nat, ascending: bool, low: nat, k: nat, ts: seq<MyTriple>): At<Vec> -> Proc<At<Vec>>
    decreases k, 1
  {
    (s: At<Vec>) => WireMerge(me, ascending, s, low, k, ts)
  }

  lemma {:induction false} MergeMeets(s: At<Vec>, t: At<Vec>, low: nat, cnt: nat, ascending: bool,
                                      js: seq<Elem<Bits>>, w: nat, t0: seq<MyTriple>, t1: seq<MyTriple>)
    requires Paired(t0, t1) && PowerOfTwo(cnt) && low + cnt <= |js| && VecOf(js, w)(s.value, t.value) && s.idx == t.idx
    ensures Meets(WireMerge(0, ascending, s, low, cnt, t0), WireMerge(1, ascending, t, low, cnt, t1), |t0|, s.idx,
                  MergeCost(cnt, StepCost(w)), VecOf(MergeAt(false, ascending, js, low, cnt), w))
    decreases cnt, 1
  {
    hide *;
    if cnt > 1 {
      MergeUnfold(s, low, cnt, ascending, 0, t0);
      MergeUnfold(t, low, cnt, ascending, 1, t1);
      MergeAtUnfolds(false, ascending, js, low, cnt);
      MergeCostUnfolds(cnt, StepCost(w));
      var k, c := cnt / 2, StepCost(w);
      var js' := RowUpTo(false, ascending, js, low, k, k);
      var post := VecOf(MergeAt(false, ascending, js, low, cnt), w);
      RowMeets(s, t, low, k, ascending, js, w, t0, t1);
      HalvesContinue(low, k, ascending, js', w, t0, t1, s.idx + RowCost(k, c));
      Then(WireRow(0, ascending, s, low, k, t0), WireRow(1, ascending, t, low, k, t1),
           MergeHalves(0, ascending, low, k, t0), MergeHalves(1, ascending, low, k, t1), |t0|, s.idx,
           RowCost(k, c), MergeCost(k, c) + MergeCost(k, c), VecOf(js', w), post);
    } else {
      MergeOfOneMeets(s, t, low, cnt, ascending, js, w, t0, t1);
    }
  }

  lemma MergeOfOneMeets(s: At<Vec>, t: At<Vec>, low: nat, cnt: nat, ascending: bool, js: seq<Elem<Bits>>, w: nat,
                   t0: seq<MyTriple>, t1: seq<MyTriple>)
    requires cnt <= 1 && PowerOfTwo(cnt) && low + cnt <= |js| && VecOf(js, w)(s.value, t.value) && s.idx == t.idx
    ensures Meets(WireMerge(0, ascending, s, low, cnt, t0), WireMerge(1, ascending, t, low, cnt, t1), |t0|, s.idx,
                  MergeCost(cnt, StepCost(w)), VecOf(MergeAt(false, ascending, js, low, cnt), w))
  {
    hide Meets, VecOf;
    Returns(s, t, |t0|, VecOf(js, w));
  }

  lemma MergeUnfold(s: At<Vec>, low: nat, cnt: nat, ascending: bool, me: nat, ts: seq<MyTriple>)
    requires cnt > 1
    ensures WireMerge(me, ascending, s, low, cnt, ts)
         == Bind(WireRow(me, ascending, s, low, cnt / 2, ts), MergeHalves(me, ascending, low, cnt / 2, ts))
  {
  }

  /** After the row, the low half and then the high half. */
  lemma {:induction false} HalvesContinue(low: nat, k: nat, ascending: bool, js: seq<Elem<Bits>>, w: nat,
                                          t0: seq<MyTriple>, t1: seq<MyTriple>, idx: nat)
    requires Paired(t0, t1) && PowerOfTwo(k) && low + 2 * k <= |js|
    ensures var c := StepCost(w);
            Continue(MergeHalves(0, ascending, low, k, t0), MergeHalves(1, ascending, low, k, t1), |t0|, idx,
                     MergeCost(k, c) + MergeCost(k, c), VecOf(js, w),
                     VecOf(MergeAt(false, ascending, MergeAt(false, ascending, js, low, k), low + k, k), w))
    decreases k, 2
  {
    hide Meets, Paired, VecOf, Bind, MergeAt, MergeCost, WireMerge, StepCost, RowUpTo, PowerOfTwo;
    var c, js' := StepCost(w), MergeAt(false, ascending, js, low, k);
    var mid, post := VecOf(js', w), VecOf(MergeAt(false, ascending, js', low + k, k), w);
    forall a: At<Vec>, b: At<Vec> | a.idx == b.idx == idx && VecOf(js, w)(a.value, b.value)
      ensures Meets(MergeHalves(0, ascending, low, k, t0)(a), MergeHalves(1, ascending, low, k, t1)(b), |t0|, idx,
                    MergeCost(k, c) + MergeCost(k, c), post)
    {
      MergeMeets(a, b, low, k, ascending, js, w, t0, t1);
      forall a': At<Vec>, b': At<Vec> | a'.idx == b'.idx == idx + MergeCost(k, c) && mid(a'.value, b'.value)
        ensures Meets(MergeHigh(0, ascending, low + k, k, t0)(a'), MergeHigh(1, ascending, low + k, k, t1)(b'), |t0|,
                      idx + MergeCost(k, c), MergeCost(k, c), post)
      {
        MergeMeets(a', b', low + k, k, ascending, js', w, t0, t1);
      }
      Then(WireMerge(0, ascending, a, low, k, t0), WireMerge(1, ascending, b, low, k, t1),
           MergeHigh(0, ascending, low + k, k, t0), MergeHigh(1, ascending, low + k, k, t1), |t0|, idx,
           MergeCost(k, c), MergeCost(k, c), mid, post);
    }
  }

  function WireSortHelper(me: nat, ascending: bool, s: At<Vec>, low: nat, cnt: nat, ts: seq<MyTriple>): Proc<At<Vec>>
    decreases cnt, 0
  {
    if cnt <= 1 then Ret(s)
    else Bind(WireSortHelper(me, true, s, low, cnt / 2, ts), SortHigh(me, ascending, low, cnt, ts))
  }

  function SortHigh(me: nat, ascending: bool, low: nat, cnt: nat, ts: seq<MyTriple>): At<Vec> -> Proc<At<Vec>>
    requires cnt > 1
    decreases cnt / 2, 1
  {
    (s: At<Vec>) =>
      Bind(WireSortHelper(me, false, s, low + cnt / 2, cnt / 2, ts), MergeBoth(me, ascending, low, cnt, ts))
  }

  function MergeBoth(me: nat, ascending: bool, low: nat, cnt: nat, ts: seq<MyTriple>): At<Vec> -> Proc<At<Vec>> {
    (s: At<Vec>) => WireMerge(me, ascending, s, low, cnt, ts)
  }

  lemma SortUnfold(s: At<Vec>, low: nat, cnt: nat, ascending: bool, me: nat, ts: seq<MyTriple>)
    requires cnt > 1
    ensures WireSortHelper(me, ascending, s, low, cnt, ts)
         == Bind(WireSortHelper(me, true, s, low, cnt / 2, ts), SortHigh(me, ascending, low, cnt, ts))
  {
  }

  lemma {:induction false} SortMeets(s: At<Vec>, t: At<Vec>, low: nat, cnt: nat, ascending: bool,
                                     js: seq<Elem<Bits>>, w: nat, t0: seq<MyTriple>, t1: seq<MyTriple>)
    requires Paired(t0, t1) && PowerOfTwo(cnt) && low + cnt <= |js| && VecOf(js, w)(s.value, t.value) && s.idx == t.idx
    ensures Meets(WireSortHelper(0, ascending, s, low, cnt, t0), WireSortHelper(1, ascending, t, low, cnt, t1), |t0|, s.idx,
                  SortCost(cnt, StepCost(w)), VecOf(SortAt(false, ascending, js, low, cnt), w))
    decreases cnt, 1
  {
    hide *;
    if cnt > 1 {
      SortUnfold(s, low, cnt, ascending, 0, t0);
      SortUnfold(t, low, cnt, ascending, 1, t1);
      SortAtUnfolds(false, ascending, js, low, cnt);
      SortCostUnfolds(low, cnt, true, StepCost(w));
      var k, c := cnt / 2, StepCost(w);
      var js' := SortAt(false, true, js, low, k);
      var post := VecOf(SortAt(false, ascending, js, low, cnt), w);
      SortMeets(s, t, low, k, true, js, w, t0, t1);
      HighContinues(low, cnt, ascending, js', w, t0, t1, s.idx + SortCost(k, c));
      Then(WireSortHelper(0, true, s, low, k, t0), WireSortHelper(1, true, t, low, k, t1),
           SortHigh(0, ascending, low, cnt, t0), SortHigh(1, ascending, low, cnt, t1), |t0|, s.idx,
           SortCost(k, c), SortCost(k, c) + MergeCost(cnt, c), VecOf(js', w), post);
    } else {
      SortOfOne(s, t, low, cnt, ascending, js, w, t0, t1);
    }
  }

  lemma SortOfOne(s: At<Vec>, t: At<Vec>, low: nat, cnt: nat, ascending: bool, js: seq<Elem<Bits>>, w: nat,
                  t0: seq<MyTriple>, t1: seq<MyTriple>)
    requires cnt <= 1 && PowerOfTwo(cnt) && low + cnt <= |js| && VecOf(js, w)(s.value, t.value) && s.idx == t.idx
    ensures Meets(WireSortHelper(0, ascending, s, low, cnt, t0), WireSortHelper(1, ascending, t, low, cnt, t1), |t0|, s.idx,
                  SortCost(cnt, StepCost(w)), VecOf(SortAt(false, ascending, js, low, cnt), w))
  {
    hide Meets, VecOf;
    Returns(s, t, |t0|, VecOf(js, w));
  }

  lemma {:induction false} HighContinues(low: nat, cnt: nat, ascending: bool, js: seq<Elem<Bits>>, w: nat,
                                         t0: seq<MyTriple>, t1: seq<MyTriple>, idx: nat)
    requires Paired(t0, t1) && PowerOfTwo(cnt) && cnt > 1 && PowerOfTwo(cnt / 2) && cnt == 2 * (cnt / 2)
    requires low + cnt <= |js|
    ensures var c, k := StepCost(w), cnt / 2;
            Continue(SortHigh(0, ascending, low, cnt, t0), SortHigh(1, ascending, low, cnt, t1), |t0|, idx,
                     SortCost(k, c) + MergeCost(cnt, c), VecOf(js, w),
                     VecOf(MergeAt(false, ascending, SortAt(false, false, js, low + k, k), low, cnt), w))
    decreases cnt, 0
  {
    hide Meets, Paired, VecOf, Bind, MergeAt, MergeCost, SortAt, SortCost, WireMerge, WireSortHelper, StepCost, PowerOfTwo;
    var c, k := StepCost(w), cnt / 2;
    var js' := SortAt(false, false, js, low + k, k);
    var mid, post := VecOf(js', w), VecOf(MergeAt(false, ascending, js', low, cnt), w);
    forall a: At<Vec>, b: At<Vec> | a.idx == b.idx == idx && VecOf(js, w)(a.value, b.value)
      ensures Meets(SortHigh(0, ascending, low, cnt, t0)(a), SortHigh(1, ascending, low, cnt, t1)(b), |t0|, idx,
                    SortCost(k, c) + MergeCost(cnt, c), post)
    {
      SortMeets(a, b, low + k, k, false, js, w, t0, t1);
      forall a': At<Vec>, b': At<Vec> | a'.idx == b'.idx == idx + SortCost(k, c) && mid(a'.value, b'.value)
        ensures Meets(MergeBoth(0, ascending, low, cnt, t0)(a'), MergeBoth(1, ascending, low, cnt, t1)(b'), |t0|,
                      idx + SortCost(k, c), MergeCost(cnt, c), post)
      {
        MergeMeets(a', b', low, cnt, ascending, js', w, t0, t1);
      }
      Then(WireSortHelper(0, false, a, low + k, k, t0), WireSortHelper(1, false, b, low + k, k, t1),
           MergeBoth(0, ascending, low, cnt, t0), MergeBoth(1, ascending, low, cnt, t1), |t0|, idx,
           SortCost(k, c), MergeCost(cnt, c), mid, post);
    }
  }

  // ----------------------------------------------------------------------
  // Padding

  /** All-ones key, held by party 0; zero payload. */
  function Sentinel(me: nat, w: nat): WireElem {
    WireElem(Repeat(me == 0, 64), Repeat(false, w))
  }

  function Padded(me: nat, s: Vec): Vec {
    if |s| <= 1 then s else s + Repeat(Sentinel(me, |s[0].payload|), NextPowerOfTwo(|s|) - |s|)
  }

  function Strip(n: nat): At<Vec> -> Proc<At<Vec>> {
    (s: At<Vec>) => Ret(At(if n <= |s.value| then s.value[..n] else s.value, s.idx))
  }

  function WireMpcBitonicSort(me: nat, s: At<Vec>, ts: seq<MyTriple>): Proc<At<Vec>> {
    if |s.value| <= 1 then Ret(s)
    else
      var padded := NextPowerOfTwo(|s.value|);
      Bind(WireSortHelper(me, true, At(Padded(me, s.value), s.idx), 0, padded, ts), Strip(|s.value|))
  }

  lemma SentinelJoins(w: nat)
    ensures Mates(Sentinel(0, w), Sentinel(1, w), w)
    ensures JointElem(Sentinel(0, w), Sentinel(1, w)) == Elem(MAX_KEY, Repeat(false, w))
  {
    assert XorEach(Repeat(true, 64), Repeat(false, 64)) == Repeat(true, 64);
    assert XorEach(Repeat(false, w), Repeat(false, w)) == Repeat(false, w);
    ToNatOnes(64);
    Pow2At64();
  }

  lemma PaddedJoins(s: Vec, t: Vec, js: seq<Elem<Bits>>, w: nat)
    requires VecOf(js, w)(s, t) && |js| > 1
    ensures VecOf(js + Pads(|js|, Repeat(false, w)), w)(Padded(0, s), Padded(1, t))
  {
    VecAt(s, t, 0, js, w);
    SentinelJoins(w);
    hide NextPowerOfTwo, Sentinel, JointElem;
    assert JointAll(Padded(0, s), Padded(1, t), w) == js + Pads(|js|, Repeat(false, w));
  }

  lemma StripMeets(s: At<Vec>, t: At<Vec>, js: seq<Elem<Bits>>, n: nat, w: nat, len: nat)
    requires VecOf(js, w)(s.value, t.value) && s.idx == t.idx && n <= |js|
    ensures Meets(Strip(n)(s), Strip(n)(t), len, s.idx, 0, VecOf(js[..n], w))
  {
    hide Meets, JointElem;
    assert JointAll(s.value[..n], t.value[..n], w) == js[..n];
    Returns(At(s.value[..n], s.idx), At(t.value[..n], t.idx), len, VecOf(js[..n], w));
  }

  /**
   * Each party running on its own shares, the two sides stay in step through
   * the whole sort, spend the declared number of triples, and end with shares
   * of what the in-memory sort computes.
   */
  lemma BitonicSortMeets(s: At<Vec>, t: At<Vec>, js: seq<Elem<Bits>>, w: nat, t0: seq<MyTriple>, t1: seq<MyTriple>)
    requires Paired(t0, t1) && VecOf(js, w)(s.value, t.value) && s.idx == t.idx
    ensures Meets(WireMpcBitonicSort(0, s, t0), WireMpcBitonicSort(1, t, t1), |t0|, s.idx,
                  SortTripleCost(|js|, w), VecOf(SortPadded(false, js, Repeat(false, w)), w))
  {
    hide Meets, Paired, VecOf, SortCost, StepCost, CompareSwapCount, NextPowerOfTwo, Sort, SortAt, WireSortHelper, Padded,
         Strip, Bind;
    var n := |js|;
    SameSize(s.value, t.value, js, w);
    if n <= 1 {
      Returns(s, t, |t0|, VecOf(js, w));
    } else {
      var padded, c := NextPowerOfTwo(n), SortTripleCost(n, w);
      var js' := js + Pads(n, Repeat(false, w));
      var sorted := Sort(false, true, js');
      DeclaredCost(n, w);
      PaddedJoins(s.value, t.value, js, w);
      SortPaddedUnfolds(false, js, Repeat(false, w));
      SortAtWhole(false, js');
      var p, q := At(Padded(0, s.value), s.idx), At(Padded(1, t.value), s.idx);
      SortMeets(p, q, 0, padded, true, js', w, t0, t1);
      var post := VecOf(sorted[..n], w);
      forall a: At<Vec>, b: At<Vec> | a.idx == b.idx == s.idx + c && VecOf(sorted, w)(a.value, b.value)
        ensures Meets(Strip(n)(a), Strip(n)(b), |t0|, s.idx + c, 0, post)
      {
        StripMeets(a, b, sorted, n, w, |t0|);
      }
      Then(WireSortHelper(0, true, p, 0, padded, t0), WireSortHelper(1, true, q, 0, padded, t1), Strip(n), Strip(n),
           |t0|, s.idx, c, 0, VecOf(sorted, w), post);
    }
  }

  lemma SameSize(s: Vec, t: Vec, js: seq<Elem<Bits>>, w: nat)
    requires VecOf(js, w)(s, t)
    ensures |s| == |t| == |js|
  {
  }
}
