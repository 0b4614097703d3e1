/**
 * The cascade shuffle as a protocol: N senders and the service provider (SP),
 * every interleaving of their steps.
 */
module Cascade {
  import opened Outcomes
  import opened JoinModel
  import opened Blocks
  import opened Permutations

  type Columns = seq<Vector>

  /** n columns of C blocks. */
  ghost predicate Sized(cols: Columns, n: nat, C: nat) {
    |cols| == n && forall c :: 0 <= c < n ==> |cols[c]| == C
  }

  // ----------------------------------------------------------------------
  // Column messages

  function Concat(cols: Columns): seq<Block> {
    if cols == [] then [] else cols[0] + Concat(cols[1..])
  }

  function SerializeColumns(cols: Columns, C: nat): Result<seq<Block>> {
    if exists c :: 0 <= c < |cols| && |cols[c]| != C then Failure("serializeColumns: column size mismatch")
    else Success(Concat(cols))
  }

  function DeserializeColumns(data: seq<Block>, n: nat, C: nat): Result<Columns> {
    if |data| != n * C then Failure("deserializeColumns: data size mismatch") else Success(Split(data, n, C))
  }

  lemma {:induction false} ConcatSplits(cols: Columns, n: nat, C: nat)
    requires Sized(cols, n, C)
    ensures |Concat(cols)| == n * C && Split(Concat(cols), n, C) == cols
  {
    hide Split, Concat;
    ConcatUnfolds(cols);
    if n > 0 {
      var data := Concat(cols);
      ConcatSplits(cols[1..], n - 1, C);
      SplitSize(n, C);
      assert data[..C] == cols[0] && data[C..] == Concat(cols[1..]);
      SplitFirst(data, n, C);
      assert cols == [cols[0]] + cols[1..];
    } else {
      SplitNone(C);
    }
  }

  lemma ConcatUnfolds(cols: Columns)
    ensures Concat(cols) == if cols == [] then [] else cols[0] + Concat(cols[1..])
  {
  }

  lemma SplitFirst(data: seq<Block>, n: nat, C: nat)
    requires n > 0 && |data| == n * C && C <= |data| && |data| - C == (n - 1) * C
    ensures Split(data, n, C) == [data[..C]] + Split(data[C..], n - 1, C)
  {
  }

  lemma SplitNone(C: nat)
    ensures 0 * C == 0 && Split<Block>([], 0, C) == []
  {
  }

  /** Block i of column c is block c C + i of the message. */
  lemma SerializedAt(cols: Columns, n: nat, C: nat, c: nat, i: nat)
    requires Sized(cols, n, C) && c < n && i < C
    ensures var r := SerializeColumns(cols, C);
            r.Success? && |r.value| == n * C && c * C + i < |r.value| && r.value[c * C + i] == cols[c][i]
  {
    ConcatAt(cols, n, C, c, i);
  }

  lemma {:induction false} ConcatAt(cols: Columns, n: nat, C: nat, c: nat, i: nat)
    requires Sized(cols, n, C) && c < n && i < C
    ensures |Concat(cols)| == n * C && c * C + i < n * C && Concat(cols)[c * C + i] == cols[c][i]
    decreases c
  {
    hide Concat;
    ConcatUnfolds(cols);
    ConcatSplits(cols, n, C);
    SplitSize(n, C);
    if c > 0 {
      SplitSize(c, C);
      ConcatAt(cols[1..], n - 1, C, c - 1, i);
    }
  }

  /** Deserializing inverts serializing. */
  lemma ColumnsRoundTrip(cols: Columns, n: nat, C: nat)
    requires Sized(cols, n, C)
    ensures SerializeColumns(cols, C).Success?
    ensures DeserializeColumns(SerializeColumns(cols, C).value, n, C) == Success(cols)
  {
    ConcatSplits(cols, n, C);
  }

  // ----------------------------------------------------------------------
  // What the cascade computes

  /** N senders, columns of C blocks, and sender k's private routing. */
  datatype Session = Session(N: nat, cols: nat, C: nat, dests: seq<seq<int>>) {
    ghost predicate Ok() {
      N >= 2 && cols > 0 && |dests| == N - 1 && forall k :: 0 <= k < N - 1 ==> IsPermutation(dests[k], C)
    }
  }

  /** The composition of the first k routings. */
  function Composed(s: Session, k: nat): (p: seq<int>)
    requires s.Ok() && k < s.N
    ensures IsPermutation(p, s.C)
  {
    if k == 0 then Identity(s.C)
    else
      ComposeIsPermutation(s.dests[k - 1], Composed(s, k - 1));
      Compose(s.dests[k - 1], Composed(s, k - 1))
  }

  /** Every pair of shares is a column of the input after k routings. */
  ghost predicate Carries(s: Session, m: Columns, r: Columns, input: Columns, k: nat, n: nat)
    requires s.Ok() && k < s.N && n <= s.cols && Sized(input, s.cols, s.C)
  {
    && Sized(m, n, s.C) && Sized(r, n, s.C)
    && forall c :: 0 <= c < n ==> XorVec(m[c], r[c]) == Route(Composed(s, k), input[c])
  }

  // ----------------------------------------------------------------------
  // States and steps

  /** A sender waits, or holds R and has produced the first |next| columns of its successor. */
  datatype Sender = Idle | Holds(R: Columns, next: Columns)

  datatype Sys = Sys(round: nat, M: Columns, mNext: Columns, senders: seq<Sender>, mesh: seq<Option<seq<Block>>>,
                     shipped: Option<seq<Block>>, table: Option<Columns>)

  function Start(s: Session, masked: Columns, masks: Columns): Sys
    requires s.Ok()
  {
    Sys(0, masked, [], [Holds(masks, [])] + seq(s.N - 1, _ => Idle), seq(s.N - 1, _ => None), None, None)
  }

  /**
   * One OSN call in round k: the SP gives its next column, sender k routes
   * it; each gets a share of the routed column, and the sender folds in its
   * own column routed locally.
   */
  ghost predicate OsnStep(s: Session, x: Sys, y: Sys, k: nat, share: Vector)
    requires s.Ok()
  {
    && k < s.N - 1 && x.round == k && |x.senders| == s.N && x.senders[k].Holds? && |share| == s.C
    && var c := |x.mNext|;
    var h := x.senders[k];
    && c == |h.next| && c < s.cols && c < |x.M| && c < |h.R| && |x.M[c]| == |h.R[c]| == s.C
    && var received := XorVec(share, Route(s.dests[k], x.M[c]));
    y == x.(mNext := x.mNext + [share],
            senders := x.senders[k := Holds(h.R, h.next + [XorVec(received, Route(s.dests[k], h.R[c]))])])
  }

  /** The SP has every column of the round and moves on. */
  ghost predicate SpStep(s: Session, x: Sys, y: Sys) {
    && x.round + 1 < s.N && |x.mNext| == s.cols
    && y == x.(round := x.round + 1, M := x.mNext, mNext := [])
  }

  /** Sender k sends its successor's columns and forgets its own. */
  ghost predicate HandoffStep(s: Session, x: Sys, y: Sys, k: nat) {
    && k + 1 < s.N && |x.senders| == s.N && |x.mesh| == s.N - 1 && x.senders[k].Holds? && |x.senders[k].next| == s.cols
    && x.mesh[k].None? && SerializeColumns(x.senders[k].next, s.C).Success?
    && y == x.(senders := x.senders[k := Idle], mesh := x.mesh[k := Some(SerializeColumns(x.senders[k].next, s.C).value)])
  }

  ghost predicate ReceiveStep(s: Session, x: Sys, y: Sys, k: nat) {
    && k + 1 < s.N && |x.senders| == s.N && |x.mesh| == s.N - 1 && x.mesh[k].Some? && x.senders[k + 1].Idle?
    && DeserializeColumns(x.mesh[k].value, s.cols, s.C).Success?
    && y == x.(mesh := x.mesh[k := None],
               senders := x.senders[k + 1 := Holds(DeserializeColumns(x.mesh[k].value, s.cols, s.C).value, [])])
  }

  /** The last sender ships its columns to the SP. */
  ghost predicate RevealStep(s: Session, x: Sys, y: Sys) {
    && s.N >= 2 && |x.senders| == s.N && x.senders[s.N - 1].Holds? && x.shipped.None? && x.table.None?
    && SerializeColumns(x.senders[s.N - 1].R, s.C).Success?
    && y == x.(shipped := Some(SerializeColumns(x.senders[s.N - 1].R, s.C).value))
  }

  /** After its last round the SP adds the revealed columns. */
  ghost predicate FinishStep(s: Session, x: Sys, y: Sys) {
    && x.round + 1 == s.N && x.shipped.Some? && x.table.None?
    && DeserializeColumns(x.shipped.value, s.cols, s.C).Success?
    && var r := DeserializeColumns(x.shipped.value, s.cols, s.C).value;
    && |x.M| == |r| == s.cols && (forall c :: 0 <= c < s.cols ==> |x.M[c]| == |r[c]|)
    && y == x.(table := Some(seq(s.cols, c requires 0 <= c < s.cols => XorVec(x.M[c], r[c]))))
  }

  ghost predicate Step(s: Session, x: Sys, y: Sys)
    requires s.Ok()
  {
    || (exists k: nat, share :: OsnStep(s, x, y, k, share))
    || SpStep(s, x, y)
    || (exists k: nat :: HandoffStep(s, x, y, k))
    || (exists k: nat :: ReceiveStep(s, x, y, k))
    || RevealStep(s, x, y)
    || FinishStep(s, x, y)
  }

  // ----------------------------------------------------------------------
  // The invariant

  /** R is at sender h alone: the others idle, nothing in transit. */
  ghost predicate AtSender(s: Session, x: Sys, h: nat) {
    && h < s.N && |x.senders| == s.N && |x.mesh| == s.N - 1 && x.senders[h].Holds?
    && (forall k :: 0 <= k < s.N && k != h ==> x.senders[k].Idle?)
    && forall k :: 0 <= k < s.N - 1 ==> x.mesh[k].None?
  }

  /** R is on its way from sender h to sender h + 1. */
  ghost predicate InTransit(s: Session, x: Sys, h: nat, r: Columns) {
    && h + 1 < s.N && |x.senders| == s.N && |x.mesh| == s.N - 1 && Sized(r, s.cols, s.C)
    && SerializeColumns(r, s.C).Success? && x.mesh[h] == Some(SerializeColumns(r, s.C).value)
    && (forall k :: 0 <= k < s.N ==> x.senders[k].Idle?)
    && forall k :: 0 <= k < s.N - 1 && k != h ==> x.mesh[k].None?
  }

  /** Sender h is in round h: R and M belong together, and so do the columns already routed. */
  ghost predicate MidRound(s: Session, x: Sys, input: Columns, h: nat)
    requires s.Ok() && Sized(input, s.cols, s.C)
  {
    && AtSender(s, x, h) && h + 1 < s.N && x.shipped.None? && x.table.None?
    && x.round == h && |x.mNext| == |x.senders[h].next| <= s.cols
    && Carries(s, x.M, x.senders[h].R, input, h, s.cols)
    && Carries(s, x.mNext, x.senders[h].next, input, h + 1, |x.mNext|)
  }

  /** The SP has closed round h, sender h has not sent yet. */
  ghost predicate SpAhead(s: Session, x: Sys, input: Columns, h: nat)
    requires s.Ok() && Sized(input, s.cols, s.C)
  {
    && AtSender(s, x, h) && h + 1 < s.N && x.shipped.None? && x.table.None?
    && x.round == h + 1 && x.mNext == [] && Carries(s, x.M, x.senders[h].next, input, h + 1, s.cols)
  }

  /** The SP's half after h routings, before or after it closes the round. */
  ghost predicate SpHolds(s: Session, x: Sys, r: Columns, input: Columns, h: nat)
    requires s.Ok() && h < s.N && Sized(input, s.cols, s.C)
  {
    || (x.round == h && x.mNext == [] && Carries(s, x.M, r, input, h, s.cols))
    || (x.round + 1 == h && Carries(s, x.mNext, r, input, h, s.cols))
  }

  ghost predicate OnTheWay(s: Session, x: Sys, input: Columns, h: nat, r: Columns)
    requires s.Ok() && Sized(input, s.cols, s.C)
  {
    InTransit(s, x, h, r) && x.shipped.None? && x.table.None? && SpHolds(s, x, r, input, h + 1)
  }

  /** Sender h has received, the SP has not closed the round before. */
  ghost predicate SpBehind(s: Session, x: Sys, input: Columns, h: nat)
    requires s.Ok() && Sized(input, s.cols, s.C)
  {
    && AtSender(s, x, h) && h + 1 < s.N && x.shipped.None? && x.table.None?
    && x.round + 1 == h && x.senders[h].next == [] && Carries(s, x.mNext, x.senders[h].R, input, h, s.cols)
  }

  /** The last sender holds R. */
  ghost predicate AtLast(s: Session, x: Sys, input: Columns, h: nat)
    requires s.Ok() && Sized(input, s.cols, s.C)
  {
    && AtSender(s, x, h) && h + 1 == s.N && x.senders[h].next == [] && SpHolds(s, x, x.senders[h].R, input, h)
    && (x.shipped.Some? ==> x.shipped == Some(Concat(x.senders[h].R)))
    && (x.table.Some? ==> x.shipped.Some? && x.round == h && x.table == Some(Routed(s, input)))
  }

  /** The composed routing of every column. */
  function Routed(s: Session, input: Columns): Columns
    requires s.Ok() && forall c :: 0 <= c < |input| ==> |input[c]| == s.C
  {
    seq(|input|, c requires 0 <= c < |input| => Route(Composed(s, s.N - 1), input[c]))
  }

  /** Where the run is: R's single place, and what the two halves add up to. */
  ghost predicate Phase(s: Session, x: Sys, input: Columns, h: nat, r: Columns)
    requires s.Ok() && Sized(input, s.cols, s.C)
  {
    MidRound(s, x, input, h) || SpAhead(s, x, input, h) || OnTheWay(s, x, input, h, r) || SpBehind(s, x, input, h)
    || AtLast(s, x, input, h)
  }

  /** Steps still to come. */
  ghost function Left(s: Session, x: Sys, h: nat): int {
    (s.N - 1 - x.round) * (s.cols + 1) - |x.mNext|
    + 2 * (s.N - 1 - h) - (if h < |x.senders| && x.senders[h].Idle? then 1 else 0)
    + (if x.shipped.None? then 1 else 0) + (if x.table.None? then 1 else 0)
  }

  ghost predicate Inv(s: Session, x: Sys, input: Columns, left: int)
    requires s.Ok() && Sized(input, s.cols, s.C)
  {
    exists h: nat, r: Columns :: Phase(s, x, input, h, r) && left == Left(s, x, h)
  }

  // ----------------------------------------------------------------------
  // Each step keeps the invariant

  /** share + (share + dest(M) + dest(R)) = dest(M + R) */
  lemma ShareCancels(d: seq<int>, m: Vector, r: Vector, share: Vector)
    requires |m| == |r| == |share| && Positions(d, |m|)
    ensures XorVec(share, XorVec(XorVec(share, Route(d, m)), Route(d, r))) == Route(d, XorVec(m, r))
  {
    var a, b := Route(d, m), Route(d, r);
    RouteXor(d, m, r);
    forall i | 0 <= i < |m| ensures Xor(share[i], Xor(Xor(share[i], a[i]), b[i])) == Xor(a[i], b[i]) {
    }
  }

  /** A routed column carries the next composition. */
  lemma ColumnCarries(s: Session, k: nat, m: Vector, r: Vector, share: Vector, column: Vector)
    requires s.Ok() && k < s.N - 1 && |m| == |r| == |share| == |column| == s.C
    requires XorVec(m, r) == Route(Composed(s, k), column)
    ensures XorVec(share, XorVec(XorVec(share, Route(s.dests[k], m)), Route(s.dests[k], r)))
         == Route(Composed(s, k + 1), column)
  {
    ShareCancels(s.dests[k], m, r, share);
    RouteCompose(s.dests[k], Composed(s, k), column);
  }

  lemma OsnKeeps(s: Session, x: Sys, y: Sys, input: Columns, h: nat, r: Columns, k: nat, share: Vector)
    requires s.Ok() && Sized(input, s.cols, s.C) && Phase(s, x, input, h, r) && OsnStep(s, x, y, k, share)
    ensures MidRound(s, y, input, h) && k == h && MidRound(s, x, input, h)
  {
    hide Composed, Session.Ok, XorVec, Route;
    assert k == h && MidRound(s, x, input, h);
    var c := |x.mNext|;
    assert s.Ok();
    ColumnCarries(s, k, x.M[c], x.senders[k].R[c], share, input[c]);
  }

  lemma RoundArithmetic(n: int, round: int, c: int)
    ensures (n - (round + 1)) * c == (n - round) * c - c
  {
  }

  lemma SpKeeps(s: Session, x: Sys, y: Sys, input: Columns, h: nat, r: Columns)
    requires s.Ok() && Sized(input, s.cols, s.C) && Phase(s, x, input, h, r) && SpStep(s, x, y)
    ensures Phase(s, y, input, h, r) && Left(s, y, h) == Left(s, x, h) - 1
  {
    RoundArithmetic(s.N - 1, x.round, s.cols + 1);
    assert x.mNext != [];
    hide Composed, Session.Ok, XorVec, Route, Routed;
    if MidRound(s, x, input, h) {
      assert SpAhead(s, y, input, h);
    } else if SpBehind(s, x, input, h) {
      NoColumnsYet(s, input, h + 1);
      assert MidRound(s, y, input, h);
    } else if OnTheWay(s, x, input, h, r) {
      assert OnTheWay(s, y, input, h, r);
    } else if AtLast(s, x, input, h) {
      assert AtLast(s, y, input, h);
    }
  }

  lemma SerializedIs(cols: Columns, n: nat, C: nat)
    requires Sized(cols, n, C)
    ensures SerializeColumns(cols, C) == Success(Concat(cols))
  {
  }

  lemma HandoffKeeps(s: Session, x: Sys, y: Sys, input: Columns, h: nat, r: Columns, k: nat)
    requires s.Ok() && Sized(input, s.cols, s.C) && Phase(s, x, input, h, r) && HandoffStep(s, x, y, k)
    ensures k == h && h < |x.senders| && x.senders[h].Holds?
    ensures OnTheWay(s, y, input, h, x.senders[h].next) && Left(s, y, h) == Left(s, x, h) - 1
  {
    hide Composed, XorVec, Route, SerializeColumns, Routed;
    assert s.cols > 0;
    hide Session.Ok;
    assert k == h;
  }

  lemma ReceiveKeeps(s: Session, x: Sys, y: Sys, input: Columns, h: nat, r: Columns, k: nat)
    requires s.Ok() && Sized(input, s.cols, s.C) && Phase(s, x, input, h, r) && ReceiveStep(s, x, y, k)
    ensures k == h && Phase(s, y, input, h + 1, r) && Left(s, y, h + 1) == Left(s, x, h) - 1
  {
    hide Composed, Session.Ok, XorVec, Route, SerializeColumns, DeserializeColumns, Routed;
    assert k == h;
    ColumnsRoundTrip(r, s.cols, s.C);
    if h + 2 == s.N {
      assert AtLast(s, y, input, h + 1);
    } else if x.round == h + 1 {
      NoColumnsYet(s, input, h + 2);
      assert MidRound(s, y, input, h + 1);
    } else {
      assert SpBehind(s, y, input, h + 1);
    }
  }

  lemma NoColumnsYet(s: Session, input: Columns, k: nat)
    requires s.Ok() && k < s.N && Sized(input, s.cols, s.C)
    ensures Carries(s, [], [], input, k, 0)
  {
  }

  lemma RevealKeeps(s: Session, x: Sys, y: Sys, input: Columns, h: nat, r: Columns)
    requires s.Ok() && Sized(input, s.cols, s.C) && Phase(s, x, input, h, r) && RevealStep(s, x, y)
    ensures AtLast(s, y, input, h) && Left(s, y, h) == Left(s, x, h) - 1
  {
    hide Composed, Session.Ok, XorVec, Route, SerializeColumns, Routed;
    assert h == s.N - 1;
    assert Sized(x.senders[h].R, s.cols, s.C);
    SerializedIs(x.senders[h].R, s.cols, s.C);
  }

  lemma FinishKeeps(s: Session, x: Sys, y: Sys, input: Columns, h: nat, r: Columns)
    requires s.Ok() && Sized(input, s.cols, s.C) && Phase(s, x, input, h, r) && FinishStep(s, x, y)
    ensures AtLast(s, y, input, h) && Left(s, y, h) == Left(s, x, h) - 1
  {
    hide Composed, Session.Ok, XorVec, Route, SerializeColumns, DeserializeColumns;
    assert h == s.N - 1 && Carries(s, x.M, x.senders[h].R, input, h, s.cols);
    ColumnsRoundTrip(x.senders[h].R, s.cols, s.C);
    SerializedIs(x.senders[h].R, s.cols, s.C);
    var rr := x.senders[h].R;
    assert seq(s.cols, c requires 0 <= c < s.cols => XorVec(x.M[c], rr[c])) == Routed(s, input);
  }

  /** Every step uses up one of the steps left, and R stays in one place. */
  lemma StepKeeps(s: Session, x: Sys, y: Sys, input: Columns, left: int)
    requires s.Ok() && Sized(input, s.cols, s.C) && Inv(s, x, input, left) && Step(s, x, y)
    ensures Inv(s, y, input, left - 1)
  {
    hide Session.Ok, MidRound, OnTheWay, AtLast, OsnStep, HandoffStep, ReceiveStep, SpStep, RevealStep, FinishStep, Left, Phase;
    var h: nat, r: Columns :| Phase(s, x, input, h, r) && left == Left(s, x, h);
    if k: nat, share :| OsnStep(s, x, y, k, share) {
      OsnKeeps(s, x, y, input, h, r, k, share);
      OsnCounts(s, x, y, h, share);
      OnePhase(s, y, input, h, r);
    } else if SpStep(s, x, y) {
      SpKeeps(s, x, y, input, h, r);
    } else if k: nat :| HandoffStep(s, x, y, k) {
      HandoffKeeps(s, x, y, input, h, r, k);
      OnePhase(s, y, input, h, x.senders[h].next);
    } else if k: nat :| ReceiveStep(s, x, y, k) {
      ReceiveKeeps(s, x, y, input, h, r, k);
    } else if RevealStep(s, x, y) {
      RevealKeeps(s, x, y, input, h, r);
      OnePhase(s, y, input, h, r);
    } else {
      FinishKeeps(s, x, y, input, h, r);
      OnePhase(s, y, input, h, r);
    }
  }

  lemma OsnCounts(s: Session, x: Sys, y: Sys, h: nat, share: Vector)
    requires s.Ok() && OsnStep(s, x, y, h, share)
    ensures Left(s, y, h) == Left(s, x, h) - 1
  {
  }

  lemma OnePhase(s: Session, x: Sys, input: Columns, h: nat, r: Columns)
    requires s.Ok() && Sized(input, s.cols, s.C)
    ensures MidRound(s, x, input, h) || OnTheWay(s, x, input, h, r) || AtLast(s, x, input, h) ==> Phase(s, x, input, h, r)
  {
    hide MidRound, OnTheWay, AtLast, SpAhead, SpBehind;
  }

  // ----------------------------------------------------------------------
  // Progress

  ghost predicate CanStep(s: Session, x: Sys)
    requires s.Ok()
  {
    exists y :: Step(s, x, y)
  }

  lemma GoesOn(s: Session, x: Sys, y: Sys)
    requires s.Ok() && Step(s, x, y)
    ensures CanStep(s, x)
  {
  }

  lemma MidRoundGoesOn(s: Session, x: Sys, input: Columns, h: nat)
    requires s.Ok() && Sized(input, s.cols, s.C) && MidRound(s, x, input, h)
    ensures CanStep(s, x) && Left(s, x, h) > 0
  {
    LeftMid(s, x, h);
    hide Composed, XorVec, Route, SerializeColumns, Left, CanStep;
    if |x.mNext| == s.cols {
      var y := x.(round := x.round + 1, M := x.mNext, mNext := []);
      assert SpStep(s, x, y);
      GoesOn(s, x, y);
    } else {
      var c, hh, share: Vector := |x.mNext|, x.senders[h], Identities(s.C);
      var received := XorVec(share, Route(s.dests[h], x.M[c]));
      var y := x.(mNext := x.mNext + [share],
                  senders := x.senders[h := Holds(hh.R, hh.next + [XorVec(received, Route(s.dests[h], hh.R[c]))])]);
      assert OsnStep(s, x, y, h, share);
      GoesOn(s, x, y);
    }
  }

  function Identities(n: nat): (v: Vector)
    ensures |v| == n
  {
    seq(n, _ => Zero())
  }

  lemma LeftMid(s: Session, x: Sys, h: nat)
    requires h < s.N - 1 && x.round == h && |x.mNext| <= s.cols
    ensures Left(s, x, h) > 0
  {
    var d := s.N - 1 - h;
    assert d * (s.cols + 1) >= 1 * (s.cols + 1) by {
      assert (d - 1) * (s.cols + 1) >= 0;
    }
  }

  lemma LeftLater(s: Session, x: Sys, h: nat)
    requires h < s.N && x.round < s.N && |x.mNext| <= s.cols && (x.round < s.N - 1 || x.mNext == []) && x.table.None?
    requires x.shipped.None? || h == s.N - 1
    requires h == s.N - 1 && h < |x.senders| ==> x.senders[h].Holds?
    ensures Left(s, x, h) > 0
  {
    var d := s.N - 1 - x.round;
    if d > 0 {
      assert (d - 1) * (s.cols + 1) >= 0;
      assert d * (s.cols + 1) == (d - 1) * (s.cols + 1) + s.cols + 1;
    }
  }

  lemma OthersGoOn(s: Session, x: Sys, input: Columns, h: nat, r: Columns)
    requires s.Ok() && Sized(input, s.cols, s.C)
    requires SpAhead(s, x, input, h) || OnTheWay(s, x, input, h, r) || SpBehind(s, x, input, h)
    ensures CanStep(s, x) && Left(s, x, h) > 0
  {
    assert s.cols > 0 && s.N >= 2;
    hide Composed, XorVec, Route, SerializeColumns, DeserializeColumns, Routed, Session.Ok, CanStep;
    LeftLater(s, x, h);
    hide Left;
    var y: Sys;
    if SpAhead(s, x, input, h) {
      var n := x.senders[h].next;
      SerializedIs(n, s.cols, s.C);
      y := x.(senders := x.senders[h := Idle], mesh := x.mesh[h := Some(SerializeColumns(n, s.C).value)]);
      assert HandoffStep(s, x, y, h);
    } else if OnTheWay(s, x, input, h, r) {
      ColumnsRoundTrip(r, s.cols, s.C);
      var received := DeserializeColumns(x.mesh[h].value, s.cols, s.C).value;
      y := x.(mesh := x.mesh[h := None], senders := x.senders[h + 1 := Holds(received, [])]);
      assert ReceiveStep(s, x, y, h);
    } else {
      y := x.(round := x.round + 1, M := x.mNext, mNext := []);
      assert SpStep(s, x, y);
    }
    GoesOn(s, x, y);
  }

  lemma RevealGoesOn(s: Session, x: Sys, input: Columns, h: nat)
    requires s.Ok() && Sized(input, s.cols, s.C) && AtLast(s, x, input, h) && x.shipped.None?
    ensures CanStep(s, x)
  {
    hide Composed, XorVec, Route, SerializeColumns, Routed, CanStep;
    var rr := x.senders[h].R;
    assert Sized(rr, s.cols, s.C);
    SerializedIs(rr, s.cols, s.C);
    var y := x.(shipped := Some(SerializeColumns(rr, s.C).value));
    assert RevealStep(s, x, y);
    GoesOn(s, x, y);
  }

  lemma FinishGoesOn(s: Session, x: Sys, input: Columns, h: nat)
    requires s.Ok() && Sized(input, s.cols, s.C) && AtLast(s, x, input, h) && x.shipped.Some? && x.table.None?
    requires x.round == h
    ensures CanStep(s, x)
  {
    assert s.cols > 0;
    hide Composed, XorVec, Route, SerializeColumns, DeserializeColumns, Routed, CanStep, Session.Ok;
    var rr := x.senders[h].R;
    assert Sized(rr, s.cols, s.C) && Sized(x.M, s.cols, s.C);
    SerializedIs(rr, s.cols, s.C);
    ColumnsRoundTrip(rr, s.cols, s.C);
    var y := x.(table := Some(seq(s.cols, c requires 0 <= c < s.cols => XorVec(x.M[c], rr[c]))));
    assert FinishStep(s, x, y);
    GoesOn(s, x, y);
  }

  lemma SpGoesOn(s: Session, x: Sys, input: Columns, h: nat)
    requires s.Ok() && Sized(input, s.cols, s.C) && AtLast(s, x, input, h) && x.round != h
    ensures CanStep(s, x)
  {
    hide Composed, XorVec, Route, CanStep, Routed;
    var y := x.(round := x.round + 1, M := x.mNext, mNext := []);
    assert SpStep(s, x, y);
    GoesOn(s, x, y);
  }

  lemma LastGoesOn(s: Session, x: Sys, input: Columns, h: nat)
    requires s.Ok() && Sized(input, s.cols, s.C) && AtLast(s, x, input, h)
    ensures x.table.None? ==> CanStep(s, x) && Left(s, x, h) > 0
    ensures x.table.Some? ==> Left(s, x, h) == 0 && x.table == Some(Routed(s, input))
  {
    assert s.cols > 0 && s.N >= 2;
    hide Composed, XorVec, Route, Routed, Session.Ok, CanStep;
    if x.table.None? {
      LeftLater(s, x, h);
      if x.shipped.None? {
        RevealGoesOn(s, x, input, h);
      } else if x.round != h {
        SpGoesOn(s, x, input, h);
      } else {
        FinishGoesOn(s, x, input, h);
      }
    }
  }

  /** With steps left a step is possible; with none left the table is the composed routing of the input. */
  lemma Progresses(s: Session, x: Sys, input: Columns, left: int)
    requires s.Ok() && Sized(input, s.cols, s.C) && Inv(s, x, input, left)
    ensures left >= 0
    ensures left > 0 ==> CanStep(s, x)
    ensures left == 0 ==> x.table == Some(Routed(s, input))
  {
    hide Session.Ok, MidRound, OnTheWay, AtLast, SpAhead, SpBehind, Left, Step;
    var h: nat, r: Columns :| Phase(s, x, input, h, r) && left == Left(s, x, h);
    if MidRound(s, x, input, h) {
      MidRoundGoesOn(s, x, input, h);
    } else if AtLast(s, x, input, h) {
      LastGoesOn(s, x, input, h);
    } else {
      OthersGoOn(s, x, input, h, r);
    }
  }

  /** R is never in two places: one sender holds it, or one message carries it. */
  lemma OnlyOnePlace(s: Session, x: Sys, input: Columns, left: int)
    requires s.Ok() && Sized(input, s.cols, s.C) && Inv(s, x, input, left)
    ensures (exists h: nat :: AtSender(s, x, h)) || (exists h: nat, r: Columns :: InTransit(s, x, h, r))
  {
    var h: nat, r: Columns :| Phase(s, x, input, h, r) && left == Left(s, x, h);
    assert AtSender(s, x, h) || InTransit(s, x, h, r);
  }

  // ----------------------------------------------------------------------
  // Whole runs

  ghost predicate IsRun(s: Session, trace: seq<Sys>, masked: Columns, masks: Columns)
    requires s.Ok()
  {
    && trace != [] && trace[0] == Start(s, masked, masks)
    && forall i :: 0 <= i < |trace| - 1 ==> Step(s, trace[i], trace[i + 1])
  }

  /** What the masked columns hide. */
  function Unmasked(masked: Columns, masks: Columns, C: nat): Columns
    requires |masked| == |masks| && forall c :: 0 <= c < |masked| ==> |masked[c]| == |masks[c]|
  {
    seq(|masked|, c requires 0 <= c < |masked| => XorVec(masked[c], masks[c]))
  }

  /**
   * All steps of a full run: per round one OSN call a column, the SP's move, a
   * handoff and its receipt; then the last columns and their sum.
   */
  function RunLength(s: Session): int {
    (s.N - 1) * (s.cols + 1) + 2 * (s.N - 1) + 2
  }

  lemma StartHolds(s: Session, masked: Columns, masks: Columns)
    requires s.Ok() && Sized(masked, s.cols, s.C) && Sized(masks, s.cols, s.C)
    ensures Inv(s, Start(s, masked, masks), Unmasked(masked, masks, s.C), RunLength(s))
  {
    var x, input := Start(s, masked, masks), Unmasked(masked, masks, s.C);
    NoColumnsYet(s, input, 1);
    forall c | 0 <= c < s.cols ensures XorVec(masked[c], masks[c]) == Route(Composed(s, 0), input[c]) {
      RouteIdentity(input[c]);
    }
    hide Session.Ok, XorVec, Route, Composed;
    assert MidRound(s, x, input, 0);
    assert Phase(s, x, input, 0, []);
  }

  lemma {:induction false} ComposedIsOrigin(s: Session, k: nat, i: int)
    requires s.Ok() && k < s.N && 0 <= i < s.C
    ensures Composed(s, k)[i] == Origin(s.dests, s.C, k, i)
    decreases k
  {
    if k > 0 {
      ComposedUnfolds(s, k);
      ComposeAt(s.dests[k - 1], Composed(s, k - 1));
      ComposedIsOrigin(s, k - 1, s.dests[k - 1][i]);
    }
  }

  lemma ComposedUnfolds(s: Session, k: nat)
    requires s.Ok() && 0 < k < s.N
    ensures Composed(s, k) == Compose(s.dests[k - 1], Composed(s, k - 1))
  {
  }

  /** Block i of every column is the unmasked block at the place that i comes from. */
  ghost predicate Shuffled(s: Session, table: Columns, masked: Columns, masks: Columns)
    requires s.Ok() && Sized(masked, s.cols, s.C) && Sized(masks, s.cols, s.C)
  {
    && Sized(table, s.cols, s.C)
    && forall c, i :: 0 <= c < s.cols && 0 <= i < s.C ==>
         var o := Origin(s.dests, s.C, s.N - 1, i);
         table[c][i] == Xor(masked[c][o], masks[c][o])
  }

  lemma RoutedIsShuffled(s: Session, masked: Columns, masks: Columns)
    requires s.Ok() && Sized(masked, s.cols, s.C) && Sized(masks, s.cols, s.C)
    ensures Shuffled(s, Routed(s, Unmasked(masked, masks, s.C)), masked, masks)
  {
    hide Xor, Composed;
    var input := Unmasked(masked, masks, s.C);
    forall c, i | 0 <= c < s.cols && 0 <= i < s.C
      ensures Routed(s, input)[c][i] == input[c][Origin(s.dests, s.C, s.N - 1, i)]
    {
      RouteAt(Composed(s, s.N - 1), input[c]);
      ComposedIsOrigin(s, s.N - 1, i);
    }
  }

  /**
   * Whatever the interleaving and the OSN shares: a run of the cascade takes
   * exactly RunLength steps, never stops short of them, and ends with every
   * column of the unmasked input under the same composed routing.
   */
  lemma {:induction false} EveryCascadeRun(s: Session, trace: seq<Sys>, masked: Columns, masks: Columns)
    requires s.Ok() && Sized(masked, s.cols, s.C) && Sized(masks, s.cols, s.C) && IsRun(s, trace, masked, masks)
    ensures var input, last, done := Unmasked(masked, masks, s.C), trace[|trace| - 1], |trace| - 1;
            && Inv(s, last, input, RunLength(s) - done) && done <= RunLength(s)
            && (done < RunLength(s) ==> CanStep(s, last))
            && (done == RunLength(s) ==>
                  && last.table == Some(Routed(s, input))
                  && last.table.Some? && Shuffled(s, last.table.value, masked, masks))
    decreases |trace|
  {
    RoutedIsShuffled(s, masked, masks);
    hide Shuffled, Unmasked;
    hide Session.Ok, Inv, Step, CanStep, Routed, Start, RunLength;
    var input := Unmasked(masked, masks, s.C);
    if |trace| == 1 {
      StartHolds(s, masked, masks);
    } else {
      var front := trace[..|trace| - 1];
      assert forall i :: 0 <= i < |front| - 1 ==> Step(s, front[i], front[i + 1]);
      EveryCascadeRun(s, front, masked, masks);
      assert Step(s, trace[|trace| - 2], trace[|trace| - 1]);
      StepKeeps(s, front[|front| - 1], trace[|trace| - 1], input, RunLength(s) - (|front| - 1));
    }
    Progresses(s, trace[|trace| - 1], input, RunLength(s) - (|trace| - 1));
  }
}
