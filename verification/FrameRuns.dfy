/** Whole runs of the emulator's frames, from the set-up of its ports on. */
module FrameRuns {
  import opened Remainders
  import opened Slabs
  import opened FrameCounts
  import opened Frames
  import opened FrameSteps
  import opened FrameTrades
  import opened FrameGives

  // ----- one step -----

  /** A step in range keeps the invariant if its trade, if any, has room. */
  lemma StepKeeps(cfg: Config, s: System, step: Step)
    requires Inv(cfg, s) && Enabled(cfg, s, step) && InRange(cfg, s, step)
    requires Trades(cfg, s, step) ==> s.pool.available < LiveSlots(s)
    ensures Inv(cfg, Next(cfg, s, step))
  {
    if Gives(step) {
      GiveStep(cfg, s, step);
    } else if step.Check? {
      CheckStep(cfg, s, step);
    } else if step.Refill? {
      RefillStep(cfg, s, step);
    } else if step.Forward? {
      ForwardStep(cfg, s, step);
    } else if step.Drain? {
      DrainStep(cfg, s, step);
    } else {
      RingStep(cfg, s, step);
    }
  }

  lemma PortCountKept(cfg: Config, s: System, step: Step)
    requires Sane(cfg) && Enabled(cfg, s, step) && InRange(cfg, s, step)
    ensures |Next(cfg, s, step).ports| == |s.ports|
  {
  }

  /** No step of any thread or of the kernel leaves the allocator's arrays, and
      every step keeps the invariant. */
  lemma StepSafe(cfg: Config, s: System, step: Step)
    requires Inv(cfg, s) && Enabled(cfg, s, step) && EnoughFill(cfg, |s.ports|)
    ensures InRange(cfg, s, step)
    ensures Inv(cfg, Next(cfg, s, step))
    ensures |Next(cfg, s, step).ports| == |s.ports|
  {
    StepInRange(cfg, s, step);
    StepKeeps(cfg, s, step);
    PortCountKept(cfg, s, step);
  }

  lemma StepInRange(cfg: Config, s: System, step: Step)
    requires Inv(cfg, s) && Enabled(cfg, s, step) && EnoughFill(cfg, |s.ports|)
    ensures InRange(cfg, s, step)
    ensures Trades(cfg, s, step) ==> s.pool.available < LiveSlots(s)
  {
    var p := s.ports[step.port];
    assert PortOk(cfg, p) && CacheShaped(s.pool, p.cache, cfg.per);
    if Trades(cfg, s, step) {
      TradeHasRoom(cfg, s, step);
    }
  }

  /** A full-slab trade in bcache_prod takes a slot that cache creation never
      left stale, and the slab in it is neither full in the pool nor in use by
      any cache: none of its addresses is live. */
  lemma TradedSlabIsEmpty(cfg: Config, s: System, step: Step)
    requires Inv(cfg, s) && Enabled(cfg, s, step) && Trades(cfg, s, step) && EnoughFill(cfg, |s.ports|)
    ensures s.pool.available < cfg.slabs - 2 * |s.ports|
    ensures var empty := s.pool.slabs[s.pool.available];
            && (forall j :: 0 <= j < s.pool.available ==> s.pool.slabs[j] != empty)
            && (forall q :: 0 <= q < |s.ports| ==> s.ports[q].cache.cons != empty && s.ports[q].cache.prod != empty)
  {
    TradeHasRoom(cfg, s, step);
    assert IsHolder(s, Slot(s.pool.available));
    OnlyHolder(s, Slot(s.pool.available));
  }

  /** Every frame is in exactly one place. */
  lemma EachFrameOnce(cfg: Config, s: System, f: nat)
    requires Inv(cfg, s)
    ensures Places(s, cfg.bufferSize)[f] == if f < Times(cfg.slabs, cfg.per) then 1 else 0
  {
    AllFramesOnce(Times(cfg.slabs, cfg.per), f);
  }

  // ----- the slabs stay a permutation -----

  function ConsSlabs(ports: seq<Port>): seq<nat> {
    seq(|ports|, p requires 0 <= p < |ports| => ports[p].cache.cons)
  }

  function ProdSlabs(ports: seq<Port>): seq<nat> {
    seq(|ports|, p requires 0 <= p < |ports| => ports[p].cache.prod)
  }

  function HeldSlabs(s: System): seq<nat>
    requires 0 <= LiveSlots(s)
  {
    s.pool.slabs[..LiveSlots(s)] + ConsSlabs(s.ports) + ProdSlabs(s.ports)
  }

  ghost function HolderAt(s: System, i: nat): Holder
    requires 0 <= LiveSlots(s) && i < |s.pool.slabs|
  {
    var live, k := LiveSlots(s), |s.ports|;
    if i < live then Slot(i) else if i < live + k then ConsOf(i - live) else ProdOf(i - live - k)
  }

  lemma HeldAt(cfg: Config, s: System, i: nat)
    requires Layout(cfg, s) && i < cfg.slabs
    ensures |HeldSlabs(s)| == cfg.slabs && HeldSlabs(s)[i] < cfg.slabs
    ensures IsHolder(s, HolderAt(s, i)) && SlabAt(s, HolderAt(s, i)) == HeldSlabs(s)[i]
  {
    var h := HolderAt(s, i);
    if h.ConsOf? || h.ProdOf? {
      assert CacheShaped(s.pool, s.ports[h.p].cache, cfg.per);
    }
  }

  lemma HeldDistinct(cfg: Config, s: System, i: nat, j: nat)
    requires Layout(cfg, s) && i < j < cfg.slabs
    ensures |HeldSlabs(s)| == cfg.slabs && HeldSlabs(s)[i] != HeldSlabs(s)[j]
  {
    HeldAt(cfg, s, i);
    HeldAt(cfg, s, j);
    assert HolderAt(s, i) != HolderAt(s, j);
  }

  lemma HeldIsPermutation(cfg: Config, s: System)
    requires Layout(cfg, s)
    ensures multiset(HeldSlabs(s)) == AllFrames(cfg.slabs)
  {
    var held := HeldSlabs(s);
    forall i | 0 <= i < |held|
      ensures held[i] < cfg.slabs
    {
      HeldAt(cfg, s, i);
    }
    forall i, j | 0 <= i < j < |held|
      ensures held[i] != held[j]
    {
      HeldDistinct(cfg, s, i, j);
    }
    DistinctIsPermutation(held);
  }

  /** The slabs of the live slots and of the caches are the original slabs, each once. */
  lemma SlabsArePermutation(cfg: Config, s: System)
    requires Inv(cfg, s)
    ensures multiset(HeldSlabs(s)) == AllFrames(cfg.slabs)
  {
    HeldIsPermutation(cfg, s);
  }

  function Elements(q: seq<nat>): set<nat> {
    set a | a in q
  }

  lemma DistinctIsPermutation(q: seq<nat>)
    requires forall i, j :: 0 <= i < j < |q| ==> q[i] != q[j]
    requires forall i :: 0 <= i < |q| ==> q[i] < |q|
    ensures multiset(q) == AllFrames(|q|)
  {
    var all := seq(|q|, i => i);
    DistinctSize(q);
    DistinctSize(all);
    forall a | a in Elements(q)
      ensures a in Elements(all)
    {
      assert all[a] == a;
    }
    SubsetOfSameSize(Elements(q), Elements(all));
    forall a: nat
      ensures multiset(q)[a] == multiset(all)[a]
    {
      DistinctOnce(q, a);
      DistinctOnce(all, a);
      assert a in Elements(q) <==> a in Elements(all);
    }
  }

  lemma SubsetOfSameSize(x: set<nat>, y: set<nat>)
    requires x <= y && |x| == |y|
    ensures x == y
  {
    assert |y - x| == |y| - |x|;
  }

  lemma {:induction false} DistinctSize(q: seq<nat>)
    requires forall i, j :: 0 <= i < j < |q| ==> q[i] != q[j]
    ensures |Elements(q)| == |q|
    decreases |q|
  {
    if q != [] {
      var front, last := q[..|q| - 1], q[|q| - 1];
      DistinctSize(front);
      assert Elements(q) == Elements(front) + {last};
      assert last !in Elements(front);
    }
  }

  lemma {:induction false} DistinctOnce(q: seq<nat>, a: nat)
    requires forall i, j :: 0 <= i < j < |q| ==> q[i] != q[j]
    ensures multiset(q)[a] == if a in q then 1 else 0
    decreases |q|
  {
    if q != [] {
      var front, last := q[..|q| - 1], q[|q| - 1];
      DistinctOnce(front, a);
      assert q == front + [last];
    }
  }

  // ----- set-up -----

  /** The pool as created, without ports; the queues are empty. */
  function Boot(cfg: Config, queues: nat): System {
    System(FreshPool(cfg.slabs, cfg.per, cfg.bufferSize), [], seq(queues, _ => []), [])
  }

  /** port_init of one more port: its cache takes two slabs, one of which is
      written off, and its fill ring takes `fill` frames. */
  function AddPort(cfg: Config, s: System): System
    requires Shaped(s.pool, cfg.per) && s.pool.available >= 2 && cfg.fill <= cfg.per
  {
    var (pool, made) := InitPort(s.pool, cfg.fill, cfg.per);
    var (cache, ring) := made.value;
    System(pool, s.ports + [Port(cache, Ready, ring, [], [], [], [], [])], s.queues, s.lost + s.pool.buffers[cache.prod])
  }

  /** All k ports are set up before the threads start. */
  ghost function SetUp(cfg: Config, k: nat, queues: nat): (s: System)
    requires Sane(cfg) && 2 * k <= cfg.slabs
    ensures Shaped(s.pool, cfg.per) && |s.ports| == k && s.pool.available == cfg.slabs - 2 * k
  {
    if k == 0 then Boot(cfg, queues) else AddPort(cfg, SetUp(cfg, k - 1, queues))
  }

  lemma {:induction false} BootParts(cfg: Config, m: nat)
    requires Sane(cfg) && m <= cfg.slabs
    ensures Sum(PoolParts(FreshPool(cfg.slabs, cfg.per, cfg.bufferSize).(available := m), cfg.bufferSize))
         == AllFrames(Times(m, cfg.per))
  {
    var pool := FreshPool(cfg.slabs, cfg.per, cfg.bufferSize);
    var parts := PoolParts(pool.(available := m), cfg.bufferSize);
    if m > 0 {
      BootParts(cfg, m - 1);
      assert parts[..m - 1] == PoolParts(pool.(available := m - 1), cfg.bufferSize);
      BootSlab(cfg, m - 1);
    }
  }

  lemma BootSlab(cfg: Config, m: nat)
    requires Sane(cfg) && m < cfg.slabs
    ensures var pool := FreshPool(cfg.slabs, cfg.per, cfg.bufferSize);
            AllFrames(Times(m, cfg.per)) + Ids(Row(pool.buffers, pool.slabs[m]), cfg.bufferSize) == AllFrames(Times(m + 1, cfg.per))
  {
    var pool := FreshPool(cfg.slabs, cfg.per, cfg.bufferSize);
    var row, base := Row(pool.buffers, m), Times(m, cfg.per);
    forall j | 0 <= j < cfg.per
      ensures FrameOf(row[j], cfg.bufferSize) == base + j
    {
      assert row[j] == FrameAddress(m, j, cfg.per, cfg.bufferSize);
      BootFrame(m, j, cfg.per, cfg.bufferSize);
    }
    RunOfFrames(row, base, cfg.bufferSize);
  }

  lemma RunOfFrames(row: seq<Addr>, base: nat, bs: nat)
    requires bs > 0 && forall j :: 0 <= j < |row| ==> FrameOf(row[j], bs) == base + j
    ensures AllFrames(base) + Ids(row, bs) == AllFrames(base + |row|)
  {
    var mine := seq(|row|, j requires 0 <= j < |row| => FrameOf(row[j], bs));
    assert seq(base + |row|, i => i) == seq(base, i => i) + mine;
  }

  lemma BootFrame(m: nat, j: nat, per: nat, bs: nat)
    requires bs > 0
    ensures FrameOf(FrameAddress(m, j, per, bs), bs) == Times(m, per) + j
  {
    TimesIs(m, per);
    FrameOfAddress(m * per + j, bs);
  }

  lemma FrameOfAddress(f: nat, bs: nat)
    requires bs > 0
    ensures FrameOf(f * bs, bs) == f
  {
    DivUnique(f * bs, bs, f, 0);
  }
}
