/** The notify counters of armci/src-gemini/armci.c as the processes keep them, one array entry
    per process and partner, with the puts on their way; every call is a step of NotifyProtocol. */
module NotifyArrays {
  import opened NotifyProtocol

  class Processes {
    const nproc: nat
    /** sent[me, proc], received[me, proc] and waited[me, proc] are process me's. */
    const sent: array2<int>
    const received: array2<int>
    const waited: array2<int>
    /** onWay[p, q]: what p has put to q and has not arrived. */
    const onWay: array2<seq<Msg>>
    /** Who each process waits for, -1 if it does not. */
    const waitsFor: array<int>
    ghost var sys: System

    ghost predicate Valid()
      reads this, sent, received, waited, onWay, waitsFor
    {
      && sent.Length0 == sent.Length1 == received.Length0 == received.Length1 == nproc
      && waited.Length0 == waited.Length1 == onWay.Length0 == onWay.Length1 == waitsFor.Length == nproc
      && sent != received && sent != waited && received != waited
      && (forall p, q :: 0 <= p < nproc && 0 <= q < nproc ==> LinkHeld(p, q))
      && (forall p :: 0 <= p < nproc ==> waitsFor[p] == if p in sys.blocked then sys.blocked[p] else -1)
    }

    ghost predicate LinkHeld(p: nat, q: nat)
      requires p < sent.Length0 && q < sent.Length1 && q < received.Length0 && p < received.Length1
      requires q < waited.Length0 && p < waited.Length1 && p < onWay.Length0 && q < onWay.Length1
      reads this`sys, sent, received, waited, onWay
    {
      var l := LinkOf(sys, Pair(p, q));
      && sent[p, q] == l.sent && received[q, p] == l.received && waited[q, p] == l.waited
      && l.delivered <= |l.issued| && onWay[p, q] == l.issued[l.delivered..]
    }

    constructor (nproc: nat)
      ensures Valid() && sys == START && this.nproc == nproc
      ensures fresh(sent) && fresh(received) && fresh(waited) && fresh(onWay) && fresh(waitsFor)
    {
      this.nproc := nproc;
      sent := new int[nproc, nproc]((i, j) => 0);
      received := new int[nproc, nproc]((i, j) => 0);
      waited := new int[nproc, nproc]((i, j) => 0);
      onWay := new seq<Msg>[nproc, nproc]((i, j) => []);
      waitsFor := new int[nproc](i => -1);
      sys := START;
    }

    /** Any put of data by process me. */
    method PutData(me: nat, proc: nat, d: int)
      requires Valid() && me < nproc && proc < nproc && waitsFor[me] < 0
      modifies this`sys, onWay
      ensures Valid() && Enabled(old(sys), Put(Pair(me, proc), d)) && sys == Next(old(sys), Put(Pair(me, proc), d))
    {
      assert LinkHeld(me, proc);
      onWay[me, proc] := onWay[me, proc] + [Data(d)];
      sys := Next(sys, Put(Pair(me, proc), d));
      forall p, q | 0 <= p < nproc && 0 <= q < nproc
        ensures LinkHeld(p, q)
      {
        assert old(LinkHeld(p, q));
      }
    }

    /** parmci_notify by process me. */
    method NotifyProc(me: nat, proc: nat) returns (r: int)
      requires Valid() && me < nproc && proc < nproc && waitsFor[me] < 0
      modifies this`sys, sent, onWay
      ensures Valid() && Enabled(old(sys), Notify(Pair(me, proc))) && sys == Next(old(sys), Notify(Pair(me, proc)))
      ensures r == LinkOf(sys, Pair(me, proc)).sent
    {
      assert LinkHeld(me, proc);
      sent[me, proc] := sent[me, proc] + 1;
      onWay[me, proc] := onWay[me, proc] + [Signal(sent[me, proc])];
      sys := Next(sys, Notify(Pair(me, proc)));
      forall p, q | 0 <= p < nproc && 0 <= q < nproc
        ensures LinkHeld(p, q)
      {
        assert old(LinkHeld(p, q));
      }
      return sent[me, proc];
    }

    /** The network completes the oldest put from p to q. */
    method Arrival(p: nat, q: nat)
      requires Valid() && p < nproc && q < nproc && onWay[p, q] != []
      modifies this`sys, received, onWay
      ensures Valid() && Enabled(old(sys), Deliver(Pair(p, q))) && sys == Next(old(sys), Deliver(Pair(p, q)))
    {
      assert LinkHeld(p, q);
      ghost var l := LinkOf(sys, Pair(p, q));
      assert l.issued[l.delivered..][0] == l.issued[l.delivered];
      match onWay[p, q][0] {
        case Data(_) =>
        case Signal(v) => received[q, p] := v;
      }
      onWay[p, q] := onWay[p, q][1..];
      assert l.issued[l.delivered + 1..] == l.issued[l.delivered..][1..];
      sys := Next(sys, Deliver(Pair(p, q)));
      forall p', q' | 0 <= p' < nproc && 0 <= q' < nproc
        ensures LinkHeld(p', q')
      {
        assert old(LinkHeld(p', q'));
      }
    }

    /** parmci_notify_wait by process me, up to its loop. */
    method EnterWait(me: nat, proc: nat)
      requires Valid() && me < nproc && proc < nproc && waitsFor[me] < 0
      modifies this`sys, waited, waitsFor
      ensures Valid() && Enabled(old(sys), BeginWait(Pair(proc, me)))
      ensures sys == Next(old(sys), BeginWait(Pair(proc, me)))
    {
      assert LinkHeld(proc, me);
      waited[me, proc] := waited[me, proc] + 1;
      waitsFor[me] := proc;
      sys := Next(sys, BeginWait(Pair(proc, me)));
      forall p, q | 0 <= p < nproc && 0 <= q < nproc
        ensures LinkHeld(p, q)
      {
        assert old(LinkHeld(p, q));
      }
    }

    /** One test of its loop: either the wait goes on, or it returns the received count and
        stores the waited count in pval. */
    method PollWait(me: nat, proc: nat) returns (done: bool, r: int, pval: int)
      requires Valid() && me < nproc && proc < nproc && waitsFor[me] == proc
      modifies this`sys, waitsFor
      ensures Valid() && done == Enabled(old(sys), EndWait(Pair(proc, me)))
      ensures sys == if done then Next(old(sys), EndWait(Pair(proc, me))) else old(sys)
      ensures done ==> r == LinkOf(sys, Pair(proc, me)).received && pval == LinkOf(sys, Pair(proc, me)).waited
    {
      assert LinkHeld(proc, me);
      if waited[me, proc] > received[me, proc] { return false, 0, 0; }
      waitsFor[me] := -1;
      pval := waited[me, proc];
      r := received[me, proc];
      sys := Next(sys, EndWait(Pair(proc, me)));
      forall p, q | 0 <= p < nproc && 0 <= q < nproc
        ensures LinkHeld(p, q)
      {
        assert old(LinkHeld(p, q));
      }
      done := true;
    }
  }
}
