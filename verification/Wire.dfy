/**
 * Two parties, each holding only its own shares, exchanging messages over a
 * FIFO socket.
 *
 * A party's coroutine is a strategy tree: it returns, throws, or exchanges
 * two bits with its peer and continues with one of four subtrees, chosen by
 * the bits it receives.
 */
module Wire {

  datatype Msg = Msg(d: bool, e: bool)

  datatype Proc<T> =
    | Throw
    | Ret(value: T)
    | Exchange(mine: Msg, on00: Proc<T>, on01: Proc<T>, on10: Proc<T>, on11: Proc<T>)
  {
    /** How the party goes on after receiving `m`. */
    function On(m: Msg): (r: Proc<T>)
      requires Exchange?
      ensures r < this
    {
      if m.d then if m.e then on11 else on10 else if m.e then on01 else on00
    }
  }

  /** Run `p`, then whatever `f` makes of its result. */
  function Bind<T, U>(p: Proc<T>, f: T -> Proc<U>): Proc<U>
    decreases p
  {
    match p
    case Throw => Throw
    case Ret(v) => f(v)
    case Exchange(m, a, b, c, d) => Exchange(m, Bind(a, f), Bind(b, f), Bind(c, f), Bind(d, f))
  }

  // ----------------------------------------------------------------------
  // What two parties do in lockstep

  datatype Outcome<S, T> = Finished(a: S, b: T) | BothThrow | OutOfStep

  function Run<S, T>(p: Proc<S>, q: Proc<T>): Outcome<S, T>
    decreases p
  {
    if p.Ret? && q.Ret? then Finished(p.value, q.value)
    else if p.Throw? && q.Throw? then BothThrow
    else if p.Exchange? && q.Exchange? then Run(p.On(q.mine), q.On(p.mine))
    else OutOfStep
  }

  lemma RunExchange<S, T>(p: Proc<S>, q: Proc<T>)
    requires p.Exchange? && q.Exchange?
    ensures Run(p, q) == Run(p.On(q.mine), q.On(p.mine))
  {
  }

  lemma RunReturns<S, T>(a: S, b: T)
    ensures Run(Ret(a), Ret(b)) == Finished(a, b)
  {
  }

  /** The number of exchanges of a lockstep run. */
  function Rounds<S, T>(p: Proc<S>, q: Proc<T>): nat
    decreases p
  {
    if p.Exchange? && q.Exchange? then 1 + Rounds(p.On(q.mine), q.On(p.mine)) else 0
  }

  lemma {:induction false} RunBind<S, T, U, V>(p: Proc<S>, q: Proc<T>, f: S -> Proc<U>, g: T -> Proc<V>)
    ensures Run(p, q).Finished? ==> Run(Bind(p, f), Bind(q, g)) == Run(f(Run(p, q).a), g(Run(p, q).b))
    ensures Run(p, q).BothThrow? ==> Run(Bind(p, f), Bind(q, g)).BothThrow?
    decreases p
  {
    if p.Exchange? && q.Exchange? {
      RunBind(p.On(q.mine), q.On(p.mine), f, g);
      assert Bind(p, f).On(q.mine) == Bind(p.On(q.mine), f);
      assert Bind(q, g).On(p.mine) == Bind(q.On(p.mine), g);
    }
  }

  // ----------------------------------------------------------------------
  // The network: party 0 sends and then receives, party 1 receives and then sends

  datatype Side<T> = Ready(proc: Proc<T>) | Waiting(proc: Proc<T>) | Holding(proc: Proc<T>, got: Msg)

  datatype Net<S, T> = Net(zero: Side<S>, to1: seq<Msg>, to0: seq<Msg>, one: Side<T>)

  ghost predicate Send0<S, T>(n: Net<S, T>, n': Net<S, T>) {
    && n.zero.Ready? && n.zero.proc.Exchange?
    && n' == n.(zero := Waiting(n.zero.proc), to1 := n.to1 + [n.zero.proc.mine])
  }

  ghost predicate Recv1<S, T>(n: Net<S, T>, n': Net<S, T>) {
    && n.one.Ready? && n.one.proc.Exchange? && n.to1 != []
    && n' == n.(one := Holding(n.one.proc, n.to1[0]), to1 := n.to1[1..])
  }

  ghost predicate Send1<S, T>(n: Net<S, T>, n': Net<S, T>) {
    && n.one.Holding? && n.one.proc.Exchange?
    && n' == n.(one := Ready(n.one.proc.On(n.one.got)), to0 := n.to0 + [n.one.proc.mine])
  }

  ghost predicate Recv0<S, T>(n: Net<S, T>, n': Net<S, T>) {
    && n.zero.Waiting? && n.zero.proc.Exchange? && n.to0 != []
    && n' == n.(zero := Ready(n.zero.proc.On(n.to0[0])), to0 := n.to0[1..])
  }

  ghost predicate Step<S, T>(n: Net<S, T>, n': Net<S, T>) {
    Send0(n, n') || Recv1(n, n') || Send1(n, n') || Recv0(n, n')
  }

  ghost predicate CanStep<S(!new), T(!new)>(n: Net<S, T>) {
    exists n' :: Step(n, n')
  }

  function Start<S, T>(p: Proc<S>, q: Proc<T>): Net<S, T> {
    Net(Ready(p), [], [], Ready(q))
  }

  /** Both parties have returned or thrown what the lockstep run says, and no message is left over. */
  ghost predicate Ended<S, T>(n: Net<S, T>, o: Outcome<S, T>) {
    && n.to1 == n.to0 == [] && n.zero.Ready? && n.one.Ready?
    && match o
       case Finished(a, b) => n.zero.proc == Ret(a) && n.one.proc == Ret(b)
       case BothThrow => n.zero.proc.Throw? && n.one.proc.Throw?
       case OutOfStep => false
  }

  /** The four phases of an exchange; `left` counts the steps still to come. */
  ghost predicate OnTrack<S, T>(n: Net<S, T>, o: Outcome<S, T>, left: nat) {
    var p, q := n.zero.proc, n.one.proc;
    match (n.zero, n.one)
    case (Ready(_), Ready(_)) =>
      n.to1 == n.to0 == [] && Run(p, q) == o && left == 4 * Rounds(p, q)
    case (Waiting(_), Ready(_)) =>
      p.Exchange? &&
      ( (n.to1 == [p.mine] && n.to0 == [] && q.Exchange? && Run(p, q) == o && left + 1 == 4 * Rounds(p, q))
      || (n.to1 == [] && |n.to0| == 1 && Run(p.On(n.to0[0]), q) == o && left == 1 + 4 * Rounds(p.On(n.to0[0]), q)))
    case (Waiting(_), Holding(_, m)) =>
      && p.Exchange? && q.Exchange? && n.to1 == n.to0 == [] && m == p.mine
      && Run(p, q) == o && left + 2 == 4 * Rounds(p, q)
    case _ => false
  }

  /** Every step keeps the network on track and uses up exactly one of the steps left. */
  lemma StepKeepsTrack<S, T>(n: Net<S, T>, n': Net<S, T>, o: Outcome<S, T>, left: nat)
    requires !o.OutOfStep? && OnTrack(n, o, left) && Step(n, n')
    ensures left > 0 && OnTrack(n', o, left - 1)
  {
  }

  /** While steps are left, exactly one step is possible; with none left, the run has ended. */
  lemma Progress<S(!new), T(!new)>(n: Net<S, T>, o: Outcome<S, T>, left: nat)
    requires !o.OutOfStep? && OnTrack(n, o, left)
    ensures left > 0 ==> CanStep(n)
    ensures left == 0 ==> Ended(n, o)
    ensures forall n', n'' :: Step(n, n') && Step(n, n'') ==> n' == n''
  {
    if left > 0 {
      if n.zero.Ready? {
        assert Step(n, n.(zero := Waiting(n.zero.proc), to1 := n.to1 + [n.zero.proc.mine]));
      } else if n.one.Holding? {
        assert Step(n, n.(one := Ready(n.one.proc.On(n.one.got)), to0 := n.to0 + [n.one.proc.mine]));
      } else if n.to1 != [] {
        assert Step(n, n.(one := Holding(n.one.proc, n.to1[0]), to1 := n.to1[1..]));
      } else {
        assert Step(n, n.(zero := Ready(n.zero.proc.On(n.to0[0])), to0 := n.to0[1..]));
      }
    }
  }

  /** A run of the network from its start. */
  ghost predicate IsRun<S, T>(trace: seq<Net<S, T>>, p: Proc<S>, q: Proc<T>) {
    && trace != [] && trace[0] == Start(p, q)
    && forall i :: 0 <= i < |trace| - 1 ==> Step(trace[i], trace[i + 1])
  }

  lemma {:induction false} RunStaysOnTrack<S, T>(trace: seq<Net<S, T>>, p: Proc<S>, q: Proc<T>)
    requires IsRun(trace, p, q) && !Run(p, q).OutOfStep?
    ensures |trace| - 1 <= 4 * Rounds(p, q)
    ensures OnTrack(trace[|trace| - 1], Run(p, q), 4 * Rounds(p, q) - (|trace| - 1))
    decreases |trace|
  {
    if |trace| > 1 {
      var front := trace[..|trace| - 1];
      assert forall i :: 0 <= i < |front| - 1 ==> Step(front[i], front[i + 1]);
      RunStaysOnTrack(front, p, q);
      assert Step(trace[|trace| - 2], trace[|trace| - 1]);
      StepKeepsTrack(front[|front| - 1], trace[|trace| - 1], Run(p, q), 4 * Rounds(p, q) - (|front| - 1));
    }
  }

  /**
   * Two parties in lockstep never deadlock, whatever the network does: every
   * run can be continued until it has taken four steps per exchange, and then
   * both parties hold the lockstep result.
   */
  lemma EveryRunFinishes<S(!new), T(!new)>(trace: seq<Net<S, T>>, p: Proc<S>, q: Proc<T>)
    requires IsRun(trace, p, q) && !Run(p, q).OutOfStep?
    ensures |trace| - 1 <= 4 * Rounds(p, q)
    ensures |trace| - 1 < 4 * Rounds(p, q) ==> CanStep(trace[|trace| - 1])
    ensures |trace| - 1 == 4 * Rounds(p, q) ==> Ended(trace[|trace| - 1], Run(p, q))
  {
    RunStaysOnTrack(trace, p, q);
    Progress(trace[|trace| - 1], Run(p, q), 4 * Rounds(p, q) - (|trace| - 1));
  }
}
