/** The way of a packet from a veth's receive thread, through the queue of its
    destination, to the NIC. Thread 0 of the queue is the transmit thread that
    drains it; every other thread is the receive thread of one veth. */
module FlowOrder {
  import opened MpmcMachine
  import opened MpmcInvariant
  import opened MpmcRuns
  import opened MpmcUse
  import opened MpmcQueue
  import Frames

  /** The most packets a receive or a transmit burst holds. */
  const MAX_BURST: nat := Frames.MAX_BURST

  /** What became of a packet offered to the queue: claimed a cell, or dropped on overflow. */
  datatype Offer = Offer(v: Ptr, queued: bool)

  /** The queue of one destination with everything that feeds and drains it, and
      logs of the packets by thread: `arrived` in order of arrival, `offers` in
      order of their outcome, `source` by position in the queue. */
  datatype Lane = Lane(
    s: State, h: History,
    bursts: seq<seq<Ptr>>, collector: seq<Ptr>, sent: seq<Ptr>,
    arrived: seq<seq<Ptr>>, offers: seq<seq<Offer>>, source: seq<nat>)

  /** `ps` are the packets for this destination in a received burst; those for
      others are handled between the steps of this lane. The transmit thread's
      estimate of the fill, two loads at any times, only decides whether it pulls
      or transmits next; here it may do either. */
  datatype Step =
    | Receive(t: nat, ps: seq<Ptr>)
    | Start(t: nat)
    | Push(t: nat, a: Action)
    | Look
    | Pull(a: Action)
    | Transmit

  ghost predicate Shaped(l: Lane) {
    && |l.s.queue.cells| >= 2 && |l.s.threads| > 0
    && |l.bursts| == |l.arrived| == |l.offers| == |l.s.threads|
  }

  ghost predicate Receiver(l: Lane, t: nat) {
    0 < t < |l.s.threads|
  }

  ghost predicate Can(l: Lane, x: Step)
    requires Shaped(l)
  {
    match x
    case Receive(t, ps) => Receiver(l, t) && l.s.threads[t].Idle? && l.bursts[t] == [] && |ps| <= MAX_BURST
    case Start(t) => Receiver(l, t) && l.s.threads[t].Idle? && l.bursts[t] != []
    case Push(t, a) => Receiver(l, t) && !l.s.threads[t].Idle? && Enabled(l.s, Move(t, a))
    case Look => l.s.threads[0].Idle? && |l.collector| < MAX_BURST
    case Pull(a) => !l.s.threads[0].Idle? && Enabled(l.s, Move(0, a))
    case Transmit => l.s.threads[0].Idle? && l.collector != []
  }

  function Outcome(pc: Pc, e: Event): seq<Offer> {
    match e
    case PushClaimed(v) => [Offer(v, true)]
    case PushRefused(_) => if pc.PushCheck? then [Offer(pc.v, false)] else []
    case _ => []
  }

  ghost function Do(l: Lane, x: Step): (r: Lane)
    requires Shaped(l) && Can(l, x)
    ensures Shaped(r)
  {
    match x
    case Receive(t, ps) => l.(bursts := l.bursts[t := ps], arrived := l.arrived[t := l.arrived[t] + ps])
    case Start(t) =>
      l.(s := Next(l.s, Move(t, CallPush(l.bursts[t][0]))), bursts := l.bursts[t := l.bursts[t][1..]])
    case Push(t, a) =>
      var e := EventOf(l.s, Move(t, a));
      l.(s := Next(l.s, Move(t, a)), h := Observe(l.h, e),
         offers := l.offers[t := l.offers[t] + Outcome(l.s.threads[t], e)],
         source := if e.PushClaimed? then l.source + [t] else l.source)
    case Look => l.(s := Next(l.s, Move(0, CallPull)))
    case Pull(a) =>
      var e := EventOf(l.s, Move(0, a));
      l.(s := Next(l.s, Move(0, a)), h := Observe(l.h, e),
         collector := if e.Pulled? then l.collector + [e.got] else l.collector)
    case Transmit => l.(sent := l.sent + l.collector, collector := [])
  }

  // ----- logs by thread -----

  /** The offered packets that got into the queue. */
  function Kept(offers: seq<Offer>): seq<Ptr> {
    if offers == [] then []
    else
      var o := offers[|offers| - 1];
      Kept(offers[..|offers| - 1]) + if o.queued then [o.v] else []
  }

  function Offered(offers: seq<Offer>): seq<Ptr> {
    seq(|offers|, i requires 0 <= i < |offers| => offers[i].v)
  }

  /** The entries of `vs` that thread `t` put in. */
  function From(vs: seq<Ptr>, source: seq<nat>, t: nat): seq<Ptr>
    requires |vs| <= |source|
  {
    if vs == [] then []
    else
      var n := |vs| - 1;
      From(vs[..n], source, t) + if source[n] == t then [vs[n]] else []
  }

  lemma {:induction false} FromStands(vs: seq<Ptr>, source: seq<nat>, more: seq<nat>, t: nat)
    requires |vs| <= |source|
    ensures From(vs, source + more, t) == From(vs, source, t)
    decreases |vs|
  {
    if vs != [] {
      FromStands(vs[..|vs| - 1], source, more, t);
    }
  }

  lemma {:induction false} FromSplit(vs: seq<Ptr>, source: seq<nat>, t: nat, m: nat)
    requires m <= |vs| <= |source|
    ensures From(vs, source, t) == From(vs[..m], source, t) + From(vs[m..], source[m..], t)
    decreases |vs|
  {
    if m < |vs| {
      var n := |vs| - 1;
      FromSplit(vs[..n], source, t, m);
      assert vs[..n][..m] == vs[..m];
      assert vs[..n][m..] == vs[m..][..n - m];
    } else {
      assert vs[..m] == vs && vs[m..] == [];
    }
  }

  /** A packet that the thread is still trying to push. */
  function Pending(pc: Pc): seq<Ptr> {
    match pc
    case PushLoad(v) => [v]
    case PushCheck(v, _) => [v]
    case PushReload(v, _) => [v]
    case PushClaim(v, _) => [v]
    case _ => []
  }

  // ----- what every step keeps -----

  /** The transmit thread only pulls; the receive threads only push. */
  ghost predicate Roles(l: Lane)
    requires Shaped(l)
  {
    && (l.s.threads[0].Idle? || InPull(l.s.threads[0]))
    && forall t :: 0 < t < |l.s.threads| ==> !InPull(l.s.threads[t])
  }

  /** Each thread's packets are accounted for, in order. */
  ghost predicate Accounted(l: Lane, t: nat)
    requires Shaped(l) && t < |l.s.threads| && |l.source| == |l.h.pushes|
  {
    && Kept(l.offers[t]) == From(l.h.pushes, l.source, t)
    && l.arrived[t] == Offered(l.offers[t]) + Pending(l.s.threads[t]) + l.bursts[t]
  }

  /** The transmit thread holds the position after those it has moved. */
  function Moved(l: Lane): nat {
    |l.sent| + |l.collector|
  }

  predicate HoldsNext(pc: Pc, m: nat) {
    (pc.PullRead? || pc.PullRelease?) && pc.pos == m
  }

  ghost predicate Drained(l: Lane)
    requires Shaped(l)
  {
    && |l.collector| <= MAX_BURST
    && (InPull(l.s.threads[0]) ==> |l.collector| < MAX_BURST)
    && Moved(l) <= |l.h.pushes|
    && l.sent + l.collector == l.h.pushes[..Moved(l)]
    && (if HoldsNext(l.s.threads[0], Moved(l)) then l.s.queue.head == Moved(l) + 1
        else !Critical(l.s.threads[0]) && l.s.queue.head == Moved(l))
  }

  ghost predicate LaneInv(l: Lane) {
    && Shaped(l) && Inv(l.s, l.h) && Roles(l)
    && |l.source| == |l.h.pushes|
    && (forall t :: 0 <= t < |l.s.threads| ==> Accounted(l, t))
    && Drained(l)
  }

  function InitLane(size: nat, veths: nat): Lane {
    var none := seq(veths + 1, _ => []);
    Lane(Init(size, veths + 1), History([], []), none, [], [], none, seq(veths + 1, _ => []), [])
  }

  lemma InitLaneInv(size: nat, veths: nat)
    requires size >= 2
    ensures LaneInv(InitLane(size, veths))
  {
    InitInv(size, veths + 1);
  }

  lemma QueueStep(l: Lane, x: Step)
    requires LaneInv(l) && Can(l, x)
    ensures Inv(Do(l, x).s, Do(l, x).h)
  {
    match x
    case Receive(t, ps) =>
    case Start(t) => StepInv(l.s, l.h, Move(t, CallPush(l.bursts[t][0])));
    case Push(t, a) => StepInv(l.s, l.h, Move(t, a));
    case Look => StepInv(l.s, l.h, Move(0, CallPull));
    case Pull(a) => StepInv(l.s, l.h, Move(0, a));
    case Transmit =>
  }

  lemma RolesStep(l: Lane, x: Step)
    requires Shaped(l) && Roles(l) && Can(l, x)
    ensures Roles(Do(l, x))
  {
  }

  lemma SourceStep(l: Lane, x: Step)
    requires Shaped(l) && Roles(l) && Can(l, x) && |l.source| == |l.h.pushes|
    ensures |Do(l, x).source| == |Do(l, x).h.pushes|
  {
  }

  lemma KeptOne(offers: seq<Offer>, o: Offer)
    ensures Kept(offers + [o]) == Kept(offers) + if o.queued then [o.v] else []
    ensures Offered(offers + [o]) == Offered(offers) + [o.v]
  {
    assert (offers + [o])[..|offers|] == offers;
  }

  lemma FromOne(vs: seq<Ptr>, source: seq<nat>, v: Ptr, u: nat, t: nat)
    requires |vs| == |source|
    ensures From(vs + [v], source + [u], t) == From(vs, source, t) + if u == t then [v] else []
  {
    assert (vs + [v])[..|vs|] == vs;
    FromStands(vs, source, [u], t);
  }

  lemma AccountedStep(l: Lane, x: Step, t: nat)
    requires Shaped(l) && Roles(l) && Can(l, x) && |l.source| == |l.h.pushes|
    requires t < |l.s.threads| && Accounted(l, t)
    ensures |Do(l, x).source| == |Do(l, x).h.pushes| && Accounted(Do(l, x), t)
  {
    SourceStep(l, x);
    match x
    case Receive(u, ps) =>
    case Start(u) => StartAccounted(l, u, t);
    case Push(u, a) => PushAccounted(l, u, a, t);
    case Look => DrainAccounted(l, x, t);
    case Pull(a) => DrainAccounted(l, x, t);
    case Transmit =>
  }

  /** The first packet of the burst becomes the pending one. */
  lemma StartAccounted(l: Lane, u: nat, t: nat)
    requires Shaped(l) && Can(l, Start(u)) && |l.source| == |l.h.pushes|
    requires t < |l.s.threads| && Accounted(l, t)
    ensures Accounted(Do(l, Start(u)), t)
  {
    var burst := l.bursts[u];
    assert burst == [burst[0]] + burst[1..];
  }

  /** A step of the transmit thread changes nothing that is accounted. */
  lemma DrainAccounted(l: Lane, x: Step, t: nat)
    requires Shaped(l) && Roles(l) && Can(l, x) && (x.Look? || x.Pull?) && |l.source| == |l.h.pushes|
    requires t < |l.s.threads| && Accounted(l, t)
    ensures |Do(l, x).source| == |Do(l, x).h.pushes| && Accounted(Do(l, x), t)
  {
    var r := Do(l, x);
    assert r.h.pushes == l.h.pushes;
    assert Pending(r.s.threads[t]) == Pending(l.s.threads[t]);
  }

  lemma PushAccounted(l: Lane, u: nat, a: Action, t: nat)
    requires Shaped(l) && Roles(l) && Can(l, Push(u, a)) && |l.source| == |l.h.pushes|
    requires t < |l.s.threads| && Accounted(l, t)
    ensures var r := Do(l, Push(u, a)); |r.source| == |r.h.pushes| && Accounted(r, t)
  {
    SourceStep(l, Push(u, a));
    var e := EventOf(l.s, Move(u, a));
    if e.PushClaimed? {
      PushWon(l, u, a, t);
    } else if e.PushRefused? {
      PushDropped(l, u, a, t);
    } else {
      PushGoesOn(l, u, a, t);
    }
  }

  lemma PushWon(l: Lane, u: nat, a: Action, t: nat)
    requires Shaped(l) && Roles(l) && Can(l, Push(u, a)) && |l.source| == |l.h.pushes|
    requires t < |l.s.threads| && Accounted(l, t) && EventOf(l.s, Move(u, a)).PushClaimed?
    ensures Accounted(Do(l, Push(u, a)), t)
  {
    var v := EventOf(l.s, Move(u, a)).v;
    FromOne(l.h.pushes, l.source, v, u, t);
    KeptOne(l.offers[u], Offer(v, true));
  }

  lemma PushDropped(l: Lane, u: nat, a: Action, t: nat)
    requires Shaped(l) && Roles(l) && Can(l, Push(u, a)) && |l.source| == |l.h.pushes|
    requires t < |l.s.threads| && Accounted(l, t) && EventOf(l.s, Move(u, a)).PushRefused?
    ensures Accounted(Do(l, Push(u, a)), t)
  {
    var r, v := Do(l, Push(u, a)), l.s.threads[u].v;
    RefusedStep(l, u, a);
    if t == u {
      KeptOne(l.offers[u], Offer(v, false));
    }
  }

  /** What a refusal changes. */
  lemma RefusedStep(l: Lane, u: nat, a: Action)
    requires Shaped(l) && Can(l, Push(u, a)) && EventOf(l.s, Move(u, a)).PushRefused?
    ensures l.s.threads[u].PushCheck?
    ensures var r, v := Do(l, Push(u, a)), l.s.threads[u].v;
            && r.h == l.h && r.source == l.source && r.arrived == l.arrived && r.bursts == l.bursts
            && r.offers == l.offers[u := l.offers[u] + [Offer(v, false)]]
            && r.s.threads == l.s.threads[u := Idle]
            && Pending(l.s.threads[u]) == [v] && Pending(r.s.threads[u]) == []
  {
  }

  lemma PushGoesOn(l: Lane, u: nat, a: Action, t: nat)
    requires Shaped(l) && Roles(l) && Can(l, Push(u, a)) && |l.source| == |l.h.pushes|
    requires t < |l.s.threads| && Accounted(l, t)
    requires !EventOf(l.s, Move(u, a)).PushClaimed? && !EventOf(l.s, Move(u, a)).PushRefused?
    ensures Accounted(Do(l, Push(u, a)), t)
  {
    var r := Do(l, Push(u, a));
    assert r.offers[t] == l.offers[t] && r.h.pushes == l.h.pushes && r.source == l.source;
    assert Pending(r.s.threads[t]) == Pending(l.s.threads[t]);
  }

  lemma PullDrains(l: Lane, a: Action)
    requires LaneInv(l) && Can(l, Pull(a))
    ensures Drained(Do(l, Pull(a)))
  {
    assert ThreadOk(l.s, l.h, l.s.threads[0]);
    assert Do(l, Pull(a)).h.pushes == l.h.pushes;
  }

  lemma DrainedStep(l: Lane, x: Step)
    requires LaneInv(l) && Can(l, x)
    ensures Drained(Do(l, x))
  {
    match x
    case Receive(u, ps) =>
    case Start(u) =>
    case Push(u, a) => PushLeavesDrained(l, u, a);
    case Look =>
    case Pull(a) => PullDrains(l, a);
    case Transmit =>
  }

  lemma PushLeavesDrained(l: Lane, u: nat, a: Action)
    requires LaneInv(l) && Can(l, Push(u, a))
    ensures Drained(Do(l, Push(u, a)))
  {
    var r := Do(l, Push(u, a));
    assert !InPull(l.s.threads[u]);
    assert r.s.threads[0] == l.s.threads[0] && r.s.queue.head == l.s.queue.head;
    assert l.h.pushes <= r.h.pushes;
  }

  lemma LaneStep(l: Lane, x: Step)
    requires LaneInv(l) && Can(l, x)
    ensures LaneInv(Do(l, x))
  {
    QueueStep(l, x);
    RolesStep(l, x);
    SourceStep(l, x);
    DrainedStep(l, x);
    forall t | 0 <= t < |l.s.threads|
      ensures Accounted(Do(l, x), t)
    {
      AccountedStep(l, x, t);
    }
  }

  // ----- over whole runs -----

  ghost predicate Possible(l: Lane, xs: seq<Step>)
    requires Shaped(l)
    decreases |xs|
  {
    xs == [] || (Can(l, xs[0]) && Possible(Do(l, xs[0]), xs[1..]))
  }

  ghost function End(l: Lane, xs: seq<Step>): (r: Lane)
    requires Shaped(l) && Possible(l, xs)
    ensures Shaped(r)
    decreases |xs|
  {
    if xs == [] then l else End(Do(l, xs[0]), xs[1..])
  }

  lemma {:induction false} LaneRun(l: Lane, xs: seq<Step>)
    requires LaneInv(l) && Possible(l, xs)
    ensures LaneInv(End(l, xs))
    decreases |xs|
  {
    if xs != [] {
      LaneStep(l, xs[0]);
      LaneRun(Do(l, xs[0]), xs[1..]);
    }
  }

  /** What one thread's packets look like: those that left, those collected and
      those still queued are, in order, the arrived ones without the overflow drops. */
  ghost predicate InOrder(l: Lane, t: nat)
    requires Shaped(l) && t < |l.s.threads|
  {
    var m := Moved(l);
    && |l.source| == |l.h.pushes| >= m
    && From(l.sent + l.collector, l.source[..m], t) + From(l.h.pushes[m..], l.source[m..], t) == Kept(l.offers[t])
    && l.arrived[t] == Offered(l.offers[t]) + Pending(l.s.threads[t]) + l.bursts[t]
  }

  lemma OrderHolds(l: Lane, t: nat)
    requires LaneInv(l) && t < |l.s.threads|
    ensures InOrder(l, t)
  {
    var m := Moved(l);
    assert Accounted(l, t);
    FromSplit(l.h.pushes, l.source, t, m);
    FromStands(l.h.pushes[..m], l.source[..m], l.source[m..], t);
    assert l.source == l.source[..m] + l.source[m..];
  }

  /** In every run, the packets of one veth to one destination leave in the order
      of their arrival, and overflow drops are the only gaps; the collector never
      holds more than 20. */
  lemma LeavesInArrivalOrder(size: nat, veths: nat, xs: seq<Step>, t: nat)
    requires size >= 2 && 0 < t <= veths && Possible(InitLane(size, veths), xs)
    ensures var l := End(InitLane(size, veths), xs);
            t < |l.s.threads| && InOrder(l, t) && |l.collector| <= MAX_BURST
  {
    InitLaneInv(size, veths);
    LaneRun(InitLane(size, veths), xs);
    EndThreads(InitLane(size, veths), xs);
    OrderHolds(End(InitLane(size, veths), xs), t);
  }

  lemma {:induction false} EndThreads(l: Lane, xs: seq<Step>)
    requires Shaped(l) && Possible(l, xs)
    ensures |End(l, xs).s.threads| == |l.s.threads| && |End(l, xs).s.queue.cells| == |l.s.queue.cells|
    decreases |xs|
  {
    if xs != [] {
      EndThreads(Do(l, xs[0]), xs[1..]);
    }
  }

  /** Nothing of thread `t` is under way. */
  ghost predicate AtRest(l: Lane, t: nat)
    requires Shaped(l) && t < |l.s.threads|
  {
    && l.s.threads[t].Idle? && l.bursts[t] == []
    && l.s.threads[0].Idle? && l.collector == [] && l.s.queue.head == l.s.queue.tail
  }

  /** Once all is drained, exactly the packets that were not dropped have left. */
  lemma AllHaveLeft(l: Lane, t: nat)
    requires LaneInv(l) && t < |l.s.threads| && AtRest(l, t)
    ensures |l.source| == |l.sent|
    ensures From(l.sent, l.source, t) == Kept(l.offers[t])
    ensures l.arrived[t] == Offered(l.offers[t])
  {
    assert Accounted(l, t);
    assert l.sent + l.collector == l.sent;
    assert l.h.pushes[..|l.h.pushes|] == l.h.pushes;
  }

  /** A packet is dropped only when the cell for it is still taken: the queue is
      full, or it was until the transmit thread's unfinished pull. */
  lemma DroppedOnlyWhenFull(l: Lane, t: nat, a: Action)
    requires LaneInv(l) && Can(l, Push(t, a)) && EventOf(l.s, Move(t, a)).PushRefused?
    ensures l.s.queue.tail + (if Critical(l.s.threads[0]) then 1 else 0) >= l.s.queue.head + |l.s.queue.cells|
  {
    PushRefusedIff(l.s, l.h, Move(t, a));
    var q := l.s.queue;
    if q.tail != q.head + |q.cells| {
      var u: nat :| ReaderAt(l.s, u, q.tail - |q.cells|);
      OnlyTransmitReads(l, u, q.tail - |q.cells|);
    }
  }

  lemma OnlyTransmitReads(l: Lane, u: nat, p: nat)
    requires Shaped(l) && Roles(l) && ReaderAt(l.s, u, p)
    ensures u == 0
  {
    assert InPull(l.s.threads[u]);
  }

  /** The transmit thread's inner loop while no other thread is at the queue: it
      moves the oldest packets, up to the collector's 20, in order. */
  method Collect(queue: MpmcQueue, collector: array<Ptr>, spurious: seq<nat>) returns (n: nat)
    requires queue.Valid() && collector.Length == MAX_BURST == |spurious|
    modifies queue, queue.buffer, collector
    ensures queue.Valid() && queue.buffer == old(queue.buffer)
    ensures n == if |old(queue.contents)| < MAX_BURST then |old(queue.contents)| else MAX_BURST
    ensures collector[..n] == old(queue.contents)[..n] && collector[n..] == old(collector[n..])
    ensures queue.contents == old(queue.contents)[n..]
  {
    n := 0;
    var available := queue.Available();
    while available != 0 && n < MAX_BURST
      invariant queue.Valid() && queue.buffer == old(queue.buffer)
      invariant n <= MAX_BURST && n <= |old(queue.contents)| && available == |queue.contents|
      invariant collector[..n] == old(queue.contents)[..n] && collector[n..] == old(collector[n..])
      invariant queue.contents == old(queue.contents)[n..]
      decreases MAX_BURST - n
    {
      var ok, ptr := queue.Pull(spurious[n]);
      // Only another consumer could have emptied the queue since the check.
      assert ok;
      collector[n] := ptr;
      n := n + 1;
      available := queue.Available();
    }
  }
}
