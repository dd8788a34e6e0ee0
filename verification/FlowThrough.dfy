/** A packet gets through: from a lane at rest, the steps of its receive thread
    and of the transmit thread bring it to the NIC. */
module FlowThrough {
  import opened MpmcMachine
  import opened MpmcRuns
  import opened MpmcQueue
  import opened MpmcUse
  import opened MpmcAlone
  import opened FlowOrder

  /** Some run leads from one lane to the other. */
  ghost predicate LeadsTo(l: Lane, r: Lane)
    requires Shaped(l)
  {
    exists xs :: Possible(l, xs) && End(l, xs) == r
  }

  lemma {:induction false} OneMoreStep(l: Lane, xs: seq<Step>, x: Step)
    requires Shaped(l) && Possible(l, xs) && Can(End(l, xs), x)
    ensures Possible(l, xs + [x]) && End(l, xs + [x]) == Do(End(l, xs), x)
    decreases |xs|
  {
    if xs == [] {
      assert ([] + [x])[1..] == [];
    } else {
      assert (xs + [x])[1..] == xs[1..] + [x];
      OneMoreStep(Do(l, xs[0]), xs[1..], x);
    }
  }

  lemma Onward(l: Lane, m: Lane, x: Step, r: Lane)
    requires Shaped(l) && Shaped(m) && LeadsTo(l, m) && Can(m, x) && Do(m, x) == r
    ensures LeadsTo(l, r)
  {
    var xs :| Possible(l, xs) && End(l, xs) == m;
    OneMoreStep(l, xs, x);
  }

  lemma Here(l: Lane)
    requires Shaped(l)
    ensures LeadsTo(l, l)
  {
    assert Possible(l, []) && End(l, []) == l;
  }

  /** What a run keeps besides the queue and the logs. */
  ghost predicate Elsewhere(l: Lane, r: Lane, bursts: seq<seq<Ptr>>, collector: seq<Ptr>) {
    Shaped(r) && r.bursts == bursts && r.collector == collector && r.sent == l.sent
  }

  /** A receive thread offers its packet and makes k accesses. */
  lemma {:induction false} PushRun(l: Lane, m: Lane, t: nat, v: Ptr, k: nat) returns (r: Lane)
    requires Shaped(l) && Shaped(m) && LeadsTo(l, m)
    requires Receiver(m, t) && m.s.threads[t].Idle? && m.bursts[t] == [v]
    requires Busy(m.s.queue, CallPush(v), k)
    ensures LeadsTo(l, r) && Elsewhere(m, r, m.bursts[t := []], m.collector)
    ensures r.s == MpmcAlone.Moved(m.s, t, CallPush(v), k)
  {
    if k == 0 {
      r := Do(m, Start(t));
      Onward(l, m, Start(t), r);
      assert m.bursts[t][1..] == [];
    } else {
      var b := PushRun(l, m, t, v, k - 1);
      MovedOn(m.s, t, CallPush(v), k);
      r := Do(b, Push(t, Advance));
      Onward(l, b, Push(t, Advance), r);
    }
  }

  /** The values that pulls have returned. */
  function Returned(es: seq<Event>): seq<Ptr> {
    if es == [] then []
    else
      var e := es[|es| - 1];
      Returned(es[..|es| - 1]) + if e.Pulled? then [e.got] else []
  }

  lemma ReturnedOne(es: seq<Event>, e: Event)
    ensures Returned(es + [e]) == Returned(es) + if e.Pulled? then [e.got] else []
  {
    assert (es + [e])[..|es|] == es;
  }

  /** The transmit thread looks, pulls and makes k accesses. */
  lemma {:induction false} PullRun(l: Lane, m: Lane, k: nat) returns (r: Lane)
    requires Shaped(l) && Shaped(m) && LeadsTo(l, m)
    requires m.s.threads[0].Idle? && |m.collector| < MAX_BURST && Busy(m.s.queue, CallPull, k)
    ensures LeadsTo(l, r) && r.s == MpmcAlone.Moved(m.s, 0, CallPull, k)
    ensures Elsewhere(m, r, m.bursts, m.collector + Returned(Alone(m.s.queue, CallPull, k).2))
  {
    if k == 0 {
      r := Do(m, Look);
      Onward(l, m, Look, r);
      ReturnedOne([], Silent);
      assert [] + [Silent] == [Silent];
    } else {
      var b := PullRun(l, m, k - 1);
      MovedOn(m.s, 0, CallPull, k);
      r := Do(b, Pull(Advance));
      Onward(l, b, Pull(Advance), r);
      ReturnedOne(Alone(m.s.queue, CallPull, k - 1).2, EventOf(b.s, Move(0, Advance)));
    }
  }

  /** Every thread is idle, and nothing is under way. */
  ghost predicate Resting(l: Lane)
    requires Shaped(l)
  {
    && (forall t :: 0 <= t < |l.s.threads| ==> l.s.threads[t].Idle? && l.bursts[t] == [])
    && l.collector == [] && l.s.queue.head == l.s.queue.tail
  }

  lemma RestingHolds(l: Lane)
    requires LaneInv(l) && Resting(l)
    ensures Holds(l.s.queue, [])
  {
    assert Quiescent(l.s);
    QuiescentIsFifo(l.s, l.h);
    assert l.h.pushes[l.s.queue.head..] == [];
  }

  lemma PulledOne(pos: nat, v: Ptr)
    ensures Returned(PullLog(pos, v)) == [v]
  {
    var es := [Silent];
    ReturnedOne([], Silent);
    assert [] + [Silent] == es;
    ReturnedOne(es, Silent);
    ReturnedOne(es + [Silent], Silent);
    ReturnedOne(es + [Silent] + [Silent], PullClaimed);
    ReturnedOne(es + [Silent] + [Silent] + [PullClaimed], Took(pos, v));
    ReturnedOne(es + [Silent] + [Silent] + [PullClaimed] + [Took(pos, v)], Pulled(v));
  }

  /** The packet reaches the queue. */
  lemma GetsQueued(l: Lane, t: nat, v: Ptr) returns (r: Lane)
    requires LaneInv(l) && Resting(l) && Receiver(l, t)
    ensures LeadsTo(l, r) && Elsewhere(l, r, l.bursts, [])
    ensures r.s.threads == l.s.threads && Holds(r.s.queue, [v]) && r.s.queue.head == l.s.queue.head
  {
    var a := Do(l, Receive(t, [v]));
    Here(l);
    Onward(l, l, Receive(t, [v]), a);
    RestingHolds(l);
    var k: nat :| k == 5;
    var pushed := PushAlone(l.s.queue, [], v, k);
    r := PushRun(l, a, t, v, k);
    assert r.s.threads == l.s.threads && r.s.queue == pushed;
    assert r.bursts == l.bursts;
  }

  /** The queued packet reaches the collector. */
  lemma GetsCollected(l: Lane, b: Lane, v: Ptr) returns (r: Lane)
    requires Shaped(l) && Shaped(b) && LeadsTo(l, b)
    requires b.s.threads[0].Idle? && b.collector == [] && Holds(b.s.queue, [v])
    ensures LeadsTo(l, r) && Elsewhere(b, r, b.bursts, [v])
    ensures r.s.threads == b.s.threads && r.s.queue.head == r.s.queue.tail
  {
    var k: nat :| k == 5;
    var pulled := PullAlone(b.s.queue, [v], k);
    r := PullRun(l, b, k);
    PulledOne(b.s.queue.head, v);
    assert r.s.threads == b.s.threads && r.s.queue == pulled;
  }

  /** From any reachable lane at rest, an arriving packet can be sent: it is the
      next to leave, and the lane is at rest again. */
  lemma PacketGetsThrough(l: Lane, t: nat, v: Ptr) returns (r: Lane)
    requires LaneInv(l) && Resting(l) && Receiver(l, t)
    ensures LeadsTo(l, r) && r.sent == l.sent + [v] && Shaped(r) && Resting(r)
  {
    var b := GetsQueued(l, t, v);
    var c := GetsCollected(l, b, v);
    r := Do(c, Transmit);
    Onward(l, c, Transmit, r);
  }
}
