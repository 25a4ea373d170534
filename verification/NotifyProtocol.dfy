/** parmci_notify and parmci_notify_wait of armci/src-gemini/armci.c, between any processes in
    any interleaving. What one process puts to another arrives in order. */
module NotifyProtocol {

  /** Traffic from one process to another. */
  datatype Pair = Pair(src: nat, dst: nat)

  /** A put of data, or the put of the sender's counter that a notify makes. */
  datatype Msg = Data(d: int) | Signal(count: int)

  /** `sent` is kept by the source, `received` and `waited` by the destination; `issued` is
      everything put so far, of which the first `delivered` have arrived. */
  datatype Link = Link(sent: int, received: int, waited: int, issued: seq<Msg>, delivered: nat)

  /** `blocked` says which process, if any, each process is waiting for. */
  datatype System = System(links: map<Pair, Link>, blocked: map<nat, nat>)

  datatype Step =
    | Put(pair: Pair, d: int)
    | Notify(pair: Pair)
    | Deliver(pair: Pair)
    | BeginWait(pair: Pair)
    | EndWait(pair: Pair)

  const IDLE := Link(0, 0, 0, [], 0)

  function LinkOf(s: System, c: Pair): Link { if c in s.links then s.links[c] else IDLE }

  /** The process that takes the step; deliveries are the network's. */
  predicate Free(s: System, p: nat) { p !in s.blocked }

  predicate Waits(s: System, c: Pair) { c.dst in s.blocked && s.blocked[c.dst] == c.src }

  predicate Enabled(s: System, t: Step) {
    var l := LinkOf(s, t.pair);
    match t
    case Put(c, d) => Free(s, c.src)
    case Notify(c) => Free(s, c.src)
    case Deliver(c) => l.delivered < |l.issued|
    case BeginWait(c) => Free(s, c.dst)
    case EndWait(c) => Waits(s, c) && l.waited <= l.received
  }

  /** The message at the head of the link takes effect. */
  function Arrive(l: Link): Link
    requires l.delivered < |l.issued|
  {
    match l.issued[l.delivered]
    case Data(_) => l.(delivered := l.delivered + 1)
    case Signal(v) => l.(received := v, delivered := l.delivered + 1)
  }

  function Next(s: System, t: Step): System
    requires Enabled(s, t)
  {
    var l := LinkOf(s, t.pair);
    match t
    case Put(c, d) => s.(links := s.links[c := l.(issued := l.issued + [Data(d)])])
    case Notify(c) => s.(links := s.links[c := l.(sent := l.sent + 1, issued := l.issued + [Signal(l.sent + 1)])])
    case Deliver(c) => s.(links := s.links[c := Arrive(l)])
    case BeginWait(c) => s.(links := s.links[c := l.(waited := l.waited + 1)], blocked := s.blocked[c.dst := c.src])
    case EndWait(c) => s.(blocked := s.blocked - {c.dst})
  }

  const START := System(map[], map[])

  datatype Result = Stuck | Reached(s: System)

  /** The state after the steps, if each of them is possible in its turn. */
  function Run(steps: seq<Step>): Result {
    if steps == [] then Reached(START)
    else
      match Run(steps[..|steps| - 1])
      case Stuck => Stuck
      case Reached(s) => if Enabled(s, steps[|steps| - 1]) then Reached(Next(s, steps[|steps| - 1])) else Stuck
  }

  // ---------- what a run has done ----------

  function Notifies(steps: seq<Step>, c: Pair): nat {
    if steps == [] then 0
    else Notifies(steps[..|steps| - 1], c) + if steps[|steps| - 1] == Notify(c) then 1 else 0
  }

  function CompletedWaits(steps: seq<Step>, c: Pair): nat {
    if steps == [] then 0
    else CompletedWaits(steps[..|steps| - 1], c) + if steps[|steps| - 1] == EndWait(c) then 1 else 0
  }

  /** The data put on pair c, in order. */
  function PutData(steps: seq<Step>, c: Pair): seq<int> {
    if steps == [] then []
    else
      var t := steps[|steps| - 1];
      PutData(steps[..|steps| - 1], c) + if t.Put? && t.pair == c then [t.d] else []
  }

  function Signals(m: seq<Msg>): nat {
    if m == [] then 0 else Signals(m[..|m| - 1]) + if m[|m| - 1].Signal? then 1 else 0
  }

  function DataOf(m: seq<Msg>): seq<int> {
    if m == [] then [] else DataOf(m[..|m| - 1]) + if m[|m| - 1].Data? then [m[|m| - 1].d] else []
  }

  /** The data that has arrived on pair c. */
  function Arrived(s: System, c: Pair): seq<int>
    requires LinkOk(LinkOf(s, c))
  {
    DataOf(LinkOf(s, c).issued[..LinkOf(s, c).delivered])
  }

  // ---------- invariants ----------

  /** The k-th signal carries k, and `received` is the last that has arrived. */
  predicate LinkOk(l: Link) {
    && l.delivered <= |l.issued|
    && l.sent == Signals(l.issued) && l.received == Signals(l.issued[..l.delivered])
    && forall i :: 0 <= i < |l.issued| && l.issued[i].Signal? ==> l.issued[i].count == Signals(l.issued[..i + 1])
  }

  /** Link c after the steps that led to s. */
  predicate LinkFits(s: System, steps: seq<Step>, c: Pair) {
    var l := LinkOf(s, c);
    && LinkOk(l)
    && l.sent == Notifies(steps, c) && DataOf(l.issued) == PutData(steps, c)
    && l.waited == CompletedWaits(steps, c) + (if Waits(s, c) then 1 else 0)
    && CompletedWaits(steps, c) <= l.received
  }

  lemma SignalsSnoc(m: seq<Msg>, x: Msg)
    ensures Signals(m + [x]) == Signals(m) + if x.Signal? then 1 else 0
    ensures DataOf(m + [x]) == DataOf(m) + if x.Data? then [x.d] else []
  {
    assert (m + [x])[..|m|] == m;
  }

  lemma IssueOk(l: Link, x: Msg)
    requires LinkOk(l) && (x.Signal? ==> x.count == l.sent + 1)
    ensures LinkOk(l.(issued := l.issued + [x], sent := l.sent + if x.Signal? then 1 else 0))
  {
    var m := l.issued + [x];
    SignalsSnoc(l.issued, x);
    assert m[..l.delivered] == l.issued[..l.delivered] && m[..|m|] == m;
    forall i | 0 <= i < |m| && m[i].Signal?
      ensures m[i].count == Signals(m[..i + 1])
    {
      if i < |l.issued| { assert m[..i + 1] == l.issued[..i + 1]; } else { assert m[..i + 1] == m; }
    }
  }

  lemma ArriveOk(l: Link)
    requires LinkOk(l) && l.delivered < |l.issued|
    ensures LinkOk(Arrive(l)) && Arrive(l).received >= l.received
  {
    var d := l.delivered;
    assert l.issued[..d + 1] == l.issued[..d] + [l.issued[d]];
    SignalsSnoc(l.issued[..d], l.issued[d]);
  }

  lemma TraceSnoc(steps: seq<Step>, t: Step, c: Pair)
    ensures Notifies(steps + [t], c) == Notifies(steps, c) + if t == Notify(c) then 1 else 0
    ensures CompletedWaits(steps + [t], c) == CompletedWaits(steps, c) + if t == EndWait(c) then 1 else 0
    ensures PutData(steps + [t], c) == PutData(steps, c) + if t.Put? && t.pair == c then [t.d] else []
  {
    assert (steps + [t])[..|steps|] == steps;
  }

  /** Every step keeps every link in order. */
  lemma StepKeeps(s: System, steps: seq<Step>, t: Step, c: Pair)
    requires Enabled(s, t) && LinkFits(s, steps, c)
    ensures LinkFits(Next(s, t), steps + [t], c)
  {
    var l := LinkOf(s, c);
    TraceSnoc(steps, t, c);
    hide LinkOk, DataOf, Signals, Notifies, CompletedWaits, PutData;
    if t.pair == c {
      StepLink(l, t);
      SignalsOnly(l);
      match t
      case Put(_, d) =>
      case Notify(_) =>
      case Deliver(_) =>
      case BeginWait(_) =>
      case EndWait(_) =>
    } else {
      Others(s, t, c);
    }
  }

  lemma SignalsOnly(l: Link)
    requires LinkOk(l)
    ensures l.sent >= 0 && l.received >= 0
  {}

  /** What the steps that change the messages of a link do to it. */
  lemma StepLink(l: Link, t: Step)
    requires LinkOk(l)
    ensures t.Put? ==> var l' := l.(issued := l.issued + [Data(t.d)]); LinkOk(l') && DataOf(l'.issued) == DataOf(l.issued) + [t.d]
    ensures t.Notify? ==>
      var l' := l.(sent := l.sent + 1, issued := l.issued + [Signal(l.sent + 1)]); LinkOk(l') && DataOf(l'.issued) == DataOf(l.issued) + []
    ensures t.Deliver? && l.delivered < |l.issued| ==>
      LinkOk(Arrive(l)) && Arrive(l).received >= l.received && Arrive(l).issued == l.issued
    ensures LinkOk(l.(waited := l.waited + 1))
  {
    match t
    case Put(_, d) => IssueOk(l, Data(d)); SignalsSnoc(l.issued, Data(d));
    case Notify(_) => IssueOk(l, Signal(l.sent + 1)); SignalsSnoc(l.issued, Signal(l.sent + 1));
    case Deliver(_) => if l.delivered < |l.issued| { ArriveOk(l); }
    case BeginWait(_) =>
    case EndWait(_) =>
  }

  /** No step on another pair begins or ends a wait on c. */
  lemma Others(s: System, t: Step, c: Pair)
    requires Enabled(s, t) && t.pair != c
    ensures Waits(Next(s, t), c) == Waits(s, c) && LinkOf(Next(s, t), c) == LinkOf(s, c)
  {}

  lemma {:induction false} RunFits(steps: seq<Step>, c: Pair)
    requires Run(steps).Reached?
    ensures LinkFits(Run(steps).s, steps, c)
  {
    if steps != [] {
      var before := steps[..|steps| - 1];
      RunFits(before, c);
      StepKeeps(Run(before).s, before, steps[|steps| - 1], c);
      assert before + [steps[|steps| - 1]] == steps;
    }
  }

  // ---------- results ----------

  lemma {:induction false} SignalsMonotone(m: seq<Msg>, i: nat)
    requires i <= |m|
    ensures Signals(m[..i]) <= Signals(m)
  {
    if i < |m| {
      assert m[..|m| - 1][..i] == m[..i];
      SignalsMonotone(m[..|m| - 1], i);
    } else {
      assert m[..i] == m;
    }
  }

  /** In every run, `received` never exceeds `sent`, and no wait completes before its notify:
      by then at least as many notifies as waits have been made on the pair. */
  lemma WaitAfterNotify(steps: seq<Step>, c: Pair)
    requires Run(steps).Reached?
    ensures var l := LinkOf(Run(steps).s, c);
      CompletedWaits(steps, c) <= l.received <= l.sent == Notifies(steps, c)
  {
    RunFits(steps, c);
    var l := LinkOf(Run(steps).s, c);
    SignalsMonotone(l.issued, l.delivered);
  }

  /** Nothing put is ever taken back. */
  lemma {:induction false} IssuedGrows(steps: seq<Step>, j: nat, c: Pair)
    requires Run(steps).Reached? && j <= |steps|
    ensures Run(steps[..j]).Reached? && LinkOf(Run(steps[..j]).s, c).issued <= LinkOf(Run(steps).s, c).issued
  {
    if j < |steps| {
      var before := steps[..|steps| - 1];
      assert before[..j] == steps[..j];
      IssuedGrows(before, j, c);
    } else {
      assert steps[..j] == steps;
    }
  }

  /** Once k waits on a pair have completed, all data put before the k-th notify on it, step j
      of the run, has arrived. */
  lemma DataBeforeWait(steps: seq<Step>, j: nat, c: Pair)
    requires Run(steps).Reached? && j < |steps| && steps[j] == Notify(c)
    requires Notifies(steps[..j + 1], c) <= CompletedWaits(steps, c)
    ensures LinkOk(LinkOf(Run(steps).s, c))
    ensures PutData(steps[..j], c) <= Arrived(Run(steps).s, c)
  {
    hide Run, DataOf, Signals, PutData, Notifies, CompletedWaits, LinkOk, LinkOf, Waits;
    RunFits(steps, c);
    NotifyPoint(steps, j, c);
    var l, l0 := LinkOf(Run(steps).s, c), LinkOf(Run(steps[..j]).s, c);
    DataArrived(l, l0.issued, l0.sent + 1);
  }

  lemma DataArrived(l: Link, m0: seq<Msg>, v: int)
    requires LinkOk(l) && m0 + [Signal(v)] <= l.issued
    requires l.received >= Signals(m0) + 1
    ensures l.delivered <= |l.issued| && DataOf(m0) <= DataOf(l.issued[..l.delivered])
  {
    hide Signals, DataOf;
    SignalArrived(l, m0, v);
    DataPrefix(l.issued[..l.delivered], |m0|);
  }

  /** The messages before the notify at step j, and the signal it adds. */
  lemma NotifyPoint(steps: seq<Step>, j: nat, c: Pair)
    requires Run(steps).Reached? && j < |steps| && steps[j] == Notify(c)
    ensures Run(steps[..j]).Reached?
    ensures var l := LinkOf(Run(steps[..j]).s, c);
      && l.issued + [Signal(l.sent + 1)] <= LinkOf(Run(steps).s, c).issued
      && Signals(l.issued) + 1 == Notifies(steps[..j + 1], c) && DataOf(l.issued) == PutData(steps[..j], c)
  {
    hide Run, DataOf, Signals, PutData, Notifies, CompletedWaits, Waits, LinkOk, LinkOf;
    IssuedGrows(steps, j + 1, c);
    NotifyIssues(steps, j, c);
    RunFits(steps[..j], c);
    assert steps[..j + 1] == steps[..j] + [steps[j]];
    TraceSnoc(steps[..j], steps[j], c);
    LinkBounds(LinkOf(Run(steps[..j]).s, c));
  }

  lemma LinkBounds(l: Link)
    requires LinkOk(l)
    ensures l.delivered <= |l.issued| && l.sent == Signals(l.issued)
  {}

  lemma NotifyIssues(steps: seq<Step>, j: nat, c: Pair)
    requires j < |steps| && steps[j] == Notify(c) && Run(steps[..j + 1]).Reached?
    ensures Run(steps[..j]).Reached?
    ensures var l := LinkOf(Run(steps[..j]).s, c);
      LinkOf(Run(steps[..j + 1]).s, c).issued == l.issued + [Signal(l.sent + 1)]
  {
    assert steps[..j + 1][..j] == steps[..j];
  }

  /** If as many signals have arrived as m0 and the signal after it hold, all of m0 has. */
  lemma SignalArrived(l: Link, m0: seq<Msg>, v: int)
    requires LinkOk(l) && m0 + [Signal(v)] <= l.issued
    requires l.received >= Signals(m0) + 1
    ensures |m0| <= l.delivered && l.issued[..l.delivered][..|m0|] == m0
  {
    hide Signals;
    assert |m0| <= |l.issued| && l.issued[..|m0|] == m0;
    if l.delivered < |m0| {
      assert l.issued[..l.delivered] == m0[..l.delivered];
      SignalsMonotone(m0, l.delivered);
    }
  }

  lemma {:induction false} DataPrefix(m: seq<Msg>, i: nat)
    requires i <= |m|
    ensures DataOf(m[..i]) <= DataOf(m)
  {
    if i < |m| {
      assert m[..|m| - 1][..i] == m[..i];
      DataPrefix(m[..|m| - 1], i);
    } else {
      assert m[..i] == m;
    }
  }

  /** With everything delivered, a wait is held up exactly when there have been fewer notifies
      than waits begun. */
  lemma BlocksIff(steps: seq<Step>, c: Pair)
    requires Run(steps).Reached? && Waits(Run(steps).s, c)
    requires var l := LinkOf(Run(steps).s, c); l.delivered == |l.issued|
    ensures Enabled(Run(steps).s, EndWait(c)) <==> CompletedWaits(steps, c) + 1 <= Notifies(steps, c)
  {
    RunFits(steps, c);
    var l := LinkOf(Run(steps).s, c);
    assert l.issued[..l.delivered] == l.issued;
  }

  function Deliveries(c: Pair, n: nat): seq<Step> { seq(n, i => Deliver(c)) }

  /** A wait whose notify has been made is only ever held up by deliveries: from any reached
      state the network alone can let it complete. */
  lemma {:induction false} WaitCanEnd(steps: seq<Step>, c: Pair) returns (n: nat)
    requires Run(steps).Reached? && Waits(Run(steps).s, c) && CompletedWaits(steps, c) + 1 <= Notifies(steps, c)
    ensures Run(steps + Deliveries(c, n) + [EndWait(c)]).Reached?
    decreases var l := LinkOf(Run(steps).s, c); |l.issued| - l.delivered
  {
    RunFits(steps, c);
    var l := LinkOf(Run(steps).s, c);
    if l.delivered == |l.issued| {
      BlocksIff(steps, c);
      n := 0;
      assert steps + Deliveries(c, 0) + [EndWait(c)] == steps + [EndWait(c)];
      assert (steps + [EndWait(c)])[..|steps|] == steps;
    } else {
      var more := steps + [Deliver(c)];
      assert more[..|steps|] == steps;
      n := WaitCanEnd(more, c);
      assert steps + Deliveries(c, n + 1) + [EndWait(c)] == more + Deliveries(c, n) + [EndWait(c)];
      n := n + 1;
    }
  }
}
