/** Following the routes of one slot from node to node, and the analyser that
    counts the hops. Nodes and slots are numbered from 1. */
module Topology {

  /** table[v-1][d-1][s-1] is the node that node v sends to in slot s for destination d. */
  type Tables = seq<seq<seq<nat>>>

  const SLOTS: nat := 32

  predicate IsNode(t: Tables, v: int) {
    1 <= v <= |t|
  }

  predicate IsSlot(s: int) {
    1 <= s <= SLOTS
  }

  /** Square tables whose entries name nodes, but on the diagonal, where the files hold 0. */
  predicate Routed(t: Tables) {
    && (forall v :: 0 <= v < |t| ==> |t[v]| == |t|)
    && (forall v, d :: 0 <= v < |t| && 0 <= d < |t| ==> |t[v][d]| == SLOTS)
    && (forall v, d, s :: 0 <= v < |t| && 0 <= d < |t| && 0 <= s < SLOTS && v != d ==> IsNode(t, t[v][d][s]))
  }

  /** A destination and a slot: what fixes the next hop of every node. */
  datatype Route = Route(t: Tables, dst: nat, slot: nat)

  ghost predicate Valid(r: Route) {
    Routed(r.t) && IsNode(r.t, r.dst) && IsSlot(r.slot)
  }

  function Hop(r: Route, v: nat): nat
    requires Valid(r) && IsNode(r.t, v)
  {
    r.t[v - 1][r.dst - 1][r.slot - 1]
  }

  /** The k-th node on the way from `src`; the destination keeps what it gets. */
  ghost function NodeAt(r: Route, src: nat, k: nat): (v: nat)
    requires Valid(r) && IsNode(r.t, src)
    ensures IsNode(r.t, v)
  {
    if k == 0 then src
    else
      var b := NodeAt(r, src, k - 1);
      if b == r.dst then b else Hop(r, b)
  }

  ghost predicate ArrivesIn(r: Route, src: nat, k: nat)
    requires Valid(r) && IsNode(r.t, src)
  {
    NodeAt(r, src, k) == r.dst && forall j :: 0 <= j < k ==> NodeAt(r, src, j) != r.dst
  }

  ghost predicate Arrives(r: Route, src: nat)
    requires Valid(r) && IsNode(r.t, src)
  {
    exists k: nat :: NodeAt(r, src, k) == r.dst
  }

  /** The number of hops of a route that arrives. */
  ghost function Hops(r: Route, src: nat): (k: nat)
    requires Valid(r) && IsNode(r.t, src) && Arrives(r, src)
    ensures ArrivesIn(r, src, k)
  {
    var k: nat :| NodeAt(r, src, k) == r.dst;
    FirstArrival(r, src, k)
  }

  ghost function FirstArrival(r: Route, src: nat, k: nat): (m: nat)
    requires Valid(r) && IsNode(r.t, src) && NodeAt(r, src, k) == r.dst
    ensures ArrivesIn(r, src, m) && m <= k
  {
    if exists j: nat :: j < k && NodeAt(r, src, j) == r.dst then
      var j: nat :| j < k && NodeAt(r, src, j) == r.dst;
      FirstArrival(r, src, j)
    else k
  }

  lemma ArrivalUnique(r: Route, src: nat, k: nat, m: nat)
    requires Valid(r) && IsNode(r.t, src) && ArrivesIn(r, src, k) && ArrivesIn(r, src, m)
    ensures k == m
  {
  }

  lemma {:induction false} NodeAtSum(r: Route, src: nat, i: nat, m: nat)
    requires Valid(r) && IsNode(r.t, src)
    ensures NodeAt(r, src, i + m) == NodeAt(r, NodeAt(r, src, i), m)
    decreases m
  {
    if m > 0 {
      NodeAtSum(r, src, i, m - 1);
      assert i + m - 1 == i + (m - 1);
    }
  }

  /** A route that arrives meets no node twice on its way. */
  lemma NoRepeat(r: Route, src: nat, k: nat, i: nat, j: nat)
    requires Valid(r) && IsNode(r.t, src) && ArrivesIn(r, src, k) && i < j <= k
    ensures NodeAt(r, src, i) != NodeAt(r, src, j)
  {
    NodeAtSum(r, src, i, k - j);
    NodeAtSum(r, src, j, k - j);
  }

  ghost function Visited(r: Route, src: nat, k: nat): set<nat>
    requires Valid(r) && IsNode(r.t, src)
  {
    set j | 0 <= j < k :: NodeAt(r, src, j)
  }

  lemma {:induction false} VisitedSize(r: Route, src: nat, k: nat, m: nat)
    requires Valid(r) && IsNode(r.t, src) && ArrivesIn(r, src, k) && m <= k + 1
    ensures |Visited(r, src, m)| == m
    decreases m
  {
    if m > 0 {
      VisitedSize(r, src, k, m - 1);
      forall j | 0 <= j < m - 1
        ensures NodeAt(r, src, j) != NodeAt(r, src, m - 1)
      {
        NoRepeat(r, src, k, j, m - 1);
      }
      assert Visited(r, src, m) == Visited(r, src, m - 1) + {NodeAt(r, src, m - 1)};
    }
  }

  function Nodes(n: nat): set<nat> {
    if n == 0 then {} else Nodes(n - 1) + {n}
  }

  lemma {:induction false} NodesSize(n: nat)
    ensures |Nodes(n)| == n
    ensures forall v: nat :: v in Nodes(n) <==> 1 <= v <= n
  {
    if n > 0 {
      NodesSize(n - 1);
    }
  }

  /** Among N nodes, a route that arrives does so in at most N - 1 hops. */
  lemma HopsBound(r: Route, src: nat)
    requires Valid(r) && IsNode(r.t, src) && Arrives(r, src)
    ensures Hops(r, src) <= |r.t| - 1
  {
    var k := Hops(r, src);
    VisitedSize(r, src, k, k + 1);
    NodesSize(|r.t|);
    assert Visited(r, src, k + 1) <= Nodes(|r.t|);
    Smaller(Visited(r, src, k + 1), Nodes(|r.t|));
  }

  lemma Smaller(a: set<nat>, b: set<nat>)
    requires a <= b
    ensures |a| <= |b|
  {
    assert |b - a| == |b| - |a|;
  }

  /** Whether a route arrives can be told from its first N nodes. */
  lemma ArrivesIff(r: Route, src: nat)
    requires Valid(r) && IsNode(r.t, src)
    ensures Arrives(r, src) <==> NodeAt(r, src, |r.t| - 1) == r.dst
  {
    if Arrives(r, src) {
      AtHome(r, src);
    }
  }

  lemma AtHome(r: Route, src: nat)
    requires Valid(r) && IsNode(r.t, src) && Arrives(r, src)
    ensures NodeAt(r, src, |r.t| - 1) == r.dst
  {
    HopsBound(r, src);
    Stays(r, src, Hops(r, src), |r.t| - 1);
  }

  lemma {:induction false} Stays(r: Route, src: nat, k: nat, m: nat)
    requires Valid(r) && IsNode(r.t, src) && NodeAt(r, src, k) == r.dst && k <= m
    ensures NodeAt(r, src, m) == r.dst
    decreases m
  {
    if k < m {
      Stays(r, src, k, m - 1);
    }
  }

  /** One hop on, a route that arrives has one hop less to go. */
  lemma OneHopOn(r: Route, src: nat)
    requires Valid(r) && IsNode(r.t, src) && src != r.dst && Arrives(r, src)
    ensures Arrives(r, Hop(r, src)) && Hops(r, src) == Hops(r, Hop(r, src)) + 1
  {
    var k, next := Hops(r, src), Hop(r, src);
    assert NodeAt(r, src, 0) == src && k > 0;
    forall j: nat
      ensures NodeAt(r, src, j + 1) == NodeAt(r, next, j)
    {
      NodeAtSum(r, src, 1, j);
      assert NodeAt(r, src, 1) == next;
    }
    assert NodeAt(r, next, k - 1) == r.dst;
    assert ArrivesIn(r, next, k - 1) by {
      forall j | 0 <= j < k - 1
        ensures NodeAt(r, next, j) != r.dst
      {
        assert NodeAt(r, src, j + 1) == NodeAt(r, next, j);
      }
    }
    ArrivalUnique(r, next, k - 1, Hops(r, next));
  }

  // ----- when the analyser's recursion returns -----

  /** get_next_node for `src` returns within n nested calls. */
  ghost predicate Returns(r: Route, src: nat, n: nat)
    requires Valid(r) && IsNode(r.t, src) && src != r.dst
    decreases n
  {
    n > 0 && (Hop(r, src) == r.dst || Returns(r, Hop(r, src), n - 1))
  }

  lemma ArrivesFromNext(r: Route, src: nat)
    requires Valid(r) && IsNode(r.t, src) && src != r.dst
    ensures Arrives(r, src) <==> Arrives(r, Hop(r, src))
  {
    if Arrives(r, Hop(r, src)) {
      var k: nat :| NodeAt(r, Hop(r, src), k) == r.dst;
      NodeAtSum(r, src, 1, k);
      assert NodeAt(r, src, 1) == Hop(r, src);
      assert NodeAt(r, src, 1 + k) == r.dst;
    } else if Arrives(r, src) {
      OneHopOn(r, src);
    }
  }

  /** It takes as many calls as there are hops, on a route that arrives. */
  lemma {:induction false} ReturnsWithinIff(r: Route, src: nat, n: nat)
    requires Valid(r) && IsNode(r.t, src) && src != r.dst
    ensures Returns(r, src, n) <==> Arrives(r, src) && Hops(r, src) <= n
    decreases n
  {
    ArrivesFromNext(r, src);
    if Arrives(r, src) {
      OneHopOn(r, src);
    }
    if Hop(r, src) == r.dst {
      AtDestination(r);
    } else if n > 0 {
      ReturnsWithinIff(r, Hop(r, src), n - 1);
    }
  }

  /** It returns if and only if the route is at its destination after N - 1 hops. */
  lemma ReturnsIff(r: Route, src: nat)
    requires Valid(r) && IsNode(r.t, src) && src != r.dst
    ensures (exists n: nat :: Returns(r, src, n)) <==> NodeAt(r, src, |r.t| - 1) == r.dst
  {
    ArrivesIff(r, src);
    if Arrives(r, src) {
      ReturnsWithinIff(r, src, Hops(r, src));
    }
    forall n: nat
      ensures Returns(r, src, n) ==> Arrives(r, src)
    {
      ReturnsWithinIff(r, src, n);
    }
  }

  function Same(v: nat): seq<nat> {
    seq(SLOTS, _ => v)
  }

  /** Three nodes; for the third, the first two send to each other. */
  function LoopTables(): Tables {
    [[Same(0), Same(2), Same(2)], [Same(1), Same(0), Same(1)], [Same(1), Same(2), Same(0)]]
  }

  /** Three nodes in a line: the first and the third reach each other by way of the second. */
  function LineTables(): Tables {
    [[Same(0), Same(2), Same(2)], [Same(1), Same(0), Same(3)], [Same(2), Same(2), Same(0)]]
  }

  /** There the first node is two hops from the third, and the second one hop. */
  lemma LineCounts()
    ensures var r := Route(LineTables(), 3, 1);
            && Valid(r) && NodeAt(r, 1, 1) == 2 && NodeAt(r, 1, 2) == 3
            && Arrives(r, 1) && Hops(r, 1) == 2 && Arrives(r, 2) && Hops(r, 2) == 1
  {
    var r := Route(LineTables(), 3, 1);
    assert NodeAt(r, 1, 0) == 1 && NodeAt(r, 1, 1) == 2 && NodeAt(r, 1, 2) == 3;
    assert NodeAt(r, 2, 0) == 2 && NodeAt(r, 2, 1) == 3;
    ArrivalUnique(r, 1, 2, Hops(r, 1));
    ArrivalUnique(r, 2, 1, Hops(r, 2));
  }

  /** A hop depends on the row of the destination in the table of the node, at the slot. */
  lemma HopIs(r: Route, v: nat, next: nat)
    requires Valid(r) && IsNode(r.t, v)
    ensures r.t[v - 1][r.dst - 1] == Same(next) ==> Hop(r, v) == next
  {
  }

  /** On it the recursion never returns. */
  lemma {:induction false} LoopNeverReturns(n: nat)
    ensures var r := Route(LoopTables(), 3, 1);
            Valid(r) && !Returns(r, 1, n) && !Returns(r, 2, n)
  {
    if n > 0 {
      LoopNeverReturns(n - 1);
    }
  }

  /** The analyser's dictionary of hop counts by slot. */
  class HopCounts {
    const tables: Tables
    var topoHops: map<nat, nat>

    constructor (tables: Tables)
      ensures this.tables == tables && topoHops == map[]
    {
      this.tables := tables;
      topoHops := map[];
    }

    /** get_next_node: counts this node, and the destination once it is next.
        The interpreter gives up when no more than `frames` calls may nest. */
    method GetNextNode(src: nat, dst: nat, topo: nat, numHops: nat, frames: nat) returns (ok: bool)
      requires Valid(Route(tables, dst, topo)) && IsNode(tables, src) && src != dst
      modifies this
      ensures ok <==> Returns(Route(tables, dst, topo), src, frames)
      ensures ok ==> Arrives(Route(tables, dst, topo), src)
                     && topoHops == old(topoHops)[topo := numHops + 1 + Hops(Route(tables, dst, topo), src)]
      ensures !ok ==> topoHops == old(topoHops)
      decreases frames
    {
      if frames == 0 {
        return false;
      }
      ghost var r := Route(tables, dst, topo);
      ReturnsWithinIff(r, src, frames);
      ArrivesFromNext(r, src);
      AtDestination(r);
      var hops := numHops + 1;
      var next := tables[src - 1][dst - 1][topo - 1];
      if next == dst {
        hops := hops + 1;
        topoHops := topoHops[topo := hops];
        ok := true;
      } else {
        ok := GetNextNode(next, dst, topo, hops, frames - 1);
      }
      if ok {
        OneHopOn(r, src);
      }
    }

    /** get_path_per_topo: the hop count from `src` to `dst` in every slot, or in
        the slots before the first one whose recursion is given up. */
    method GetPathPerTopo(src: nat, dst: nat, frames: nat) returns (counted: nat)
      requires Routed(tables) && IsNode(tables, src) && IsNode(tables, dst) && src != dst
      modifies this
      ensures counted <= SLOTS && AllWithin(tables, src, dst, frames, counted)
      ensures counted < SLOTS ==> !Within(Route(tables, dst, counted + 1), src, frames)
      ensures topoHops == Filled(old(topoHops), SlotHops(tables, src, dst, frames, counted))
    {
      var num := 0;
      while num < SLOTS
        invariant 0 <= num <= SLOTS && AllWithin(tables, src, dst, frames, num)
        invariant topoHops == Filled(old(topoHops), SlotHops(tables, src, dst, frames, num))
      {
        var ok := CountSlot(src, dst, num + 1, frames);
        if !ok {
          return num;
        }
        FilledOne(old(topoHops), SlotHops(tables, src, dst, frames, num), Hops(Route(tables, dst, num + 1), src));
        num := num + 1;
      }
      counted := num;
    }

    /** The body of its loop. */
    method CountSlot(src: nat, dst: nat, topo: nat, frames: nat) returns (ok: bool)
      requires Valid(Route(tables, dst, topo)) && IsNode(tables, src) && src != dst
      modifies this
      ensures ok <==> Within(Route(tables, dst, topo), src, frames)
      ensures ok ==> topoHops == old(topoHops)[topo := Hops(Route(tables, dst, topo), src)]
      ensures !ok ==> topoHops == old(topoHops)
    {
      ghost var r := Route(tables, dst, topo);
      ArrivesFromNext(r, src);
      AtDestination(r);
      var next := tables[src - 1][dst - 1][topo - 1];
      if next == dst {
        topoHops := topoHops[topo := 1];
        ok := true;
      } else {
        ReturnsWithinIff(r, next, frames);
        ok := GetNextNode(next, dst, topo, 0, frames);
      }
      if Arrives(r, src) {
        OneHopOn(r, src);
      }
    }
  }

  /** The route arrives within the hops that `frames` nested calls can count. */
  ghost predicate Within(r: Route, src: nat, frames: nat)
    requires Valid(r) && IsNode(r.t, src)
  {
    Arrives(r, src) && Hops(r, src) <= frames + 1
  }

  /** With a frame for every node but two, that is so for every route that arrives. */
  lemma EnoughFrames(r: Route, src: nat, frames: nat)
    requires Valid(r) && IsNode(r.t, src) && |r.t| <= frames + 2
    ensures Within(r, src, frames) <==> Arrives(r, src)
  {
    if Arrives(r, src) {
      HopsBound(r, src);
    }
  }

  ghost predicate AllWithin(t: Tables, src: nat, dst: nat, frames: nat, n: nat) {
    && Routed(t) && IsNode(t, src) && IsNode(t, dst) && n <= SLOTS
    && forall s: nat :: 1 <= s <= n ==> Within(Route(t, dst, s), src, frames)
  }

  /** The hop counts of slots 1 to n. */
  ghost function SlotHops(t: Tables, src: nat, dst: nat, frames: nat, n: nat): (hops: seq<nat>)
    requires AllWithin(t, src, dst, frames, n)
    ensures |hops| == n
  {
    if n == 0 then [] else SlotHops(t, src, dst, frames, n - 1) + [Hops(Route(t, dst, n), src)]
  }

  /** Each place holds the count of its slot. */
  lemma {:induction false} SlotHopsAt(t: Tables, src: nat, dst: nat, frames: nat, n: nat, s: nat)
    requires AllWithin(t, src, dst, frames, n) && 1 <= s <= n
    ensures SlotHops(t, src, dst, frames, n)[s - 1] == Hops(Route(t, dst, s), src)
  {
    if s < n {
      SlotHopsAt(t, src, dst, frames, n - 1, s);
    }
  }

  /** A dictionary with the counts of the first slots put in. */
  function Filled(was: map<nat, nat>, hops: seq<nat>): map<nat, nat> {
    if hops == [] then was else Filled(was, hops[..|hops| - 1])[|hops| := hops[|hops| - 1]]
  }

  lemma FilledOne(was: map<nat, nat>, hops: seq<nat>, h: nat)
    ensures Filled(was, hops + [h]) == Filled(was, hops)[|hops| + 1 := h]
  {
    assert (hops + [h])[..|hops|] == hops;
  }

  /** It gives each slot its own count and keeps what it held for other keys. */
  lemma {:induction false} FilledAt(was: map<nat, nat>, hops: seq<nat>, s: nat)
    ensures var r := Filled(was, hops);
            if 1 <= s <= |hops| then s in r && r[s] == hops[s - 1]
            else (s in r <==> s in was) && (s in r ==> r[s] == was[s])
  {
    if hops != [] {
      FilledAt(was, hops[..|hops| - 1], s);
    }
  }

  lemma AtDestination(r: Route)
    requires Valid(r)
    ensures Arrives(r, r.dst) && Hops(r, r.dst) == 0
  {
    assert NodeAt(r, r.dst, 0) == r.dst;
    ArrivalUnique(r, r.dst, 0, Hops(r, r.dst));
  }
}
