/** Giving a frame back to a cache, and why a full producer slab can always be
    traded for an empty one: a count of all frames. */
module FrameGives {
  import opened Slabs
  import opened FrameCounts
  import opened Frames
  import opened FrameSteps
  import opened FrameTrades

  // ----- the count -----

  lemma IdsSize(s: seq<Addr>, bs: nat)
    requires bs > 0
    ensures |Ids(s, bs)| == |s|
  {
  }

  lemma PortSize(p: Port, b: seq<seq<Addr>>, per: nat, bs: nat)
    requires bs > 0 && p.cache.cons < |b| && p.cache.prod < |b|
    requires |b[p.cache.cons]| == per == |b[p.cache.prod]| && p.cache.nCons <= per && p.cache.nProd <= per
    ensures |PortFrames(p, b, bs)| == p.cache.nCons + p.cache.nProd
      + |p.fill| + |p.rx| + |p.tx| + |p.comp| + |p.burst| + |p.collector|
  {
    IdsSize(Prefix(b, p.cache.cons, p.cache.nCons), bs);
    IdsSize(Prefix(b, p.cache.prod, p.cache.nProd), bs);
    IdsSize(p.fill, bs);
    IdsSize(p.rx, bs);
    IdsSize(p.tx, bs);
    IdsSize(p.comp, bs);
    IdsSize(p.burst, bs);
    IdsSize(p.collector, bs);
  }

  lemma PoolSize(pool: Pool, per: nat, bs: nat)
    requires bs > 0 && Shaped(pool, per)
    ensures |Sum(PoolParts(pool, bs))| == Times(pool.available, per)
  {
    var parts := PoolParts(pool, bs);
    forall i | 0 <= i < |parts|
      ensures |parts[i]| == per
    {
      IdsSize(Row(pool.buffers, pool.slabs[i]), bs);
    }
    SumSize(parts, per);
  }

  /** With a full producer slab at port i and one more frame of that port in
      hand, the ports hold at least their fill sides, a slab and a frame. */
  lemma PortsSize(cfg: Config, s: System, i: nat)
    requires Sane(cfg) && Layout(cfg, s) && i < |s.ports|
    requires PortsOk(cfg, s.ports)
    requires s.ports[i].cache.nProd == cfg.per && (s.ports[i].burst != [] || s.ports[i].comp != [])
    ensures |Sum(PortParts(s.ports, s.pool.buffers, cfg.bufferSize))| >= Times(|s.ports|, cfg.fill) + (cfg.per + 1)
  {
    var parts := PortParts(s.ports, s.pool.buffers, cfg.bufferSize);
    forall q | 0 <= q < |parts|
      ensures |parts[q]| >= if q == i then cfg.fill + (cfg.per + 1) else cfg.fill
    {
      assert PortOk(cfg, s.ports[q]);
      PortSize(s.ports[q], s.pool.buffers, cfg.per, cfg.bufferSize);
    }
    SumAtLeast(parts, cfg.fill, i, cfg.per + 1);
  }

  /** The settings under which no trade can reach the stale slots: what the
      caches of k ports hold beside their fill sides fits one producer slab. */
  ghost predicate EnoughFill(cfg: Config, k: nat) {
    cfg.fill <= cfg.per && Times(k, cfg.per - cfg.fill) <= cfg.per
  }

  lemma RoomArithmetic(cfg: Config, available: nat, k: nat, ports: nat)
    requires Times(available, cfg.per) + ports + Times(k, cfg.per) <= Times(cfg.slabs, cfg.per)
    requires ports >= Times(k, cfg.fill) + (cfg.per + 1)
    requires EnoughFill(cfg, k)
    ensures available < cfg.slabs - 2 * k
  {
    TimesDifference(k, cfg.per, cfg.fill);
    Twice(available, k, cfg.per);
    FewerSlabs(cfg.slabs, available + k + k, cfg.per);
  }

  lemma Twice(available: nat, k: nat, per: nat)
    ensures Times(available + k + k, per) == Times(available, per) + Times(k, per) + Times(k, per)
  {
    TimesSum(available, k, per);
    TimesSum(available + k, k, per);
  }

  lemma FewerSlabs(slabs: nat, n: nat, per: nat)
    requires Times(n, per) < Times(slabs, per)
    ensures n < slabs
  {
    TimesMonotone(slabs, n, per);
  }

  lemma PlacesSize(s: System, per: nat, bs: nat)
    requires bs > 0 && Shaped(s.pool, per)
    ensures |Places(s, bs)| >= Times(s.pool.available, per) + |Sum(PortParts(s.ports, s.pool.buffers, bs))| + |s.lost|
  {
    var pool, ports, queues := Sum(PoolParts(s.pool, bs)), Sum(PortParts(s.ports, s.pool.buffers, bs)), Sum(QueueParts(s.queues, bs));
    PoolSize(s.pool, per, bs);
    IdsSize(s.lost, bs);
    assert |pool + ports + queues + Ids(s.lost, bs)| == |pool| + |ports| + |queues| + |Ids(s.lost, bs)|;
  }

  lemma AllFramesSize(n: nat)
    ensures |AllFrames(n)| == n
  {
  }

  /** All frames, counted: those of the full slabs, of the ports, and the lost ones. */
  lemma FrameCount(s: System, per: nat, bs: nat, total: nat)
    requires bs > 0 && Shaped(s.pool, per) && Places(s, bs) == AllFrames(total)
    ensures Times(s.pool.available, per) + |Sum(PortParts(s.ports, s.pool.buffers, bs))| + |s.lost| <= total
  {
    PlacesSize(s, per, bs);
    AllFramesSize(total);
  }

  /** A full producer slab always finds a live slot past the full slabs. */
  lemma TradeHasRoom(cfg: Config, s: System, step: Step)
    requires Inv(cfg, s) && Enabled(cfg, s, step) && Trades(cfg, s, step)
    requires EnoughFill(cfg, |s.ports|)
    ensures s.pool.available < LiveSlots(s)
  {
    RoomAt(cfg, s, step.port);
  }

  lemma InvCount(cfg: Config, s: System)
    requires Inv(cfg, s)
    ensures Times(s.pool.available, cfg.per) + |Sum(PortParts(s.ports, s.pool.buffers, cfg.bufferSize))| + Times(|s.ports|, cfg.per)
         <= Times(cfg.slabs, cfg.per)
  {
    FrameCount(s, cfg.per, cfg.bufferSize, Times(cfg.slabs, cfg.per));
  }

  lemma InvPortsSize(cfg: Config, s: System, i: nat)
    requires Inv(cfg, s) && i < |s.ports|
    requires s.ports[i].cache.nProd >= cfg.per && (s.ports[i].burst != [] || s.ports[i].comp != [])
    ensures |Sum(PortParts(s.ports, s.pool.buffers, cfg.bufferSize))| >= Times(|s.ports|, cfg.fill) + (cfg.per + 1)
  {
    assert CacheShaped(s.pool, s.ports[i].cache, cfg.per);
    PortsSize(cfg, s, i);
  }

  lemma RoomAt(cfg: Config, s: System, i: nat)
    requires Inv(cfg, s) && i < |s.ports| && EnoughFill(cfg, |s.ports|)
    requires s.ports[i].cache.nProd >= cfg.per && (s.ports[i].burst != [] || s.ports[i].comp != [])
    ensures s.pool.available < LiveSlots(s)
  {
    InvCount(cfg, s);
    InvPortsSize(cfg, s, i);
    var ports := |Sum(PortParts(s.ports, s.pool.buffers, cfg.bufferSize))|;
    RoomArithmetic(cfg, s.pool.available, |s.ports|, ports);
  }

  // ----- storing one address -----

  lemma StoreShape(p: Pool, s: nat, i: nat, a: Addr, per: nat)
    requires Shaped(p, per) && s < |p.buffers| && i < per
    ensures Shaped(Store(p, s, i, a), per)
  {
  }

  /** A write to a slab that is not full in the pool leaves the pool's frames alone. */
  lemma PoolUntouched(pool: Pool, b: seq<seq<Addr>>, row: nat, bs: nat)
    requires bs > 0 && pool.available <= |pool.slabs|
    requires |b| == |pool.buffers| && row < |b| && b == pool.buffers[row := b[row]]
    requires forall j :: 0 <= j < pool.available ==> pool.slabs[j] != row
    ensures PoolParts(pool.(buffers := b), bs) == PoolParts(pool, bs)
  {
  }

  lemma OthersUntouched(s: System, i: nat, b: seq<seq<Addr>>, row: nat, bs: nat)
    requires bs > 0 && |b| == |s.pool.buffers| && row < |b| && b == s.pool.buffers[row := b[row]]
    requires forall q :: 0 <= q < |s.ports| && q != i ==> s.ports[q].cache.cons != row && s.ports[q].cache.prod != row
    ensures forall q :: 0 <= q < |s.ports| && q != i ==>
      PortFrames(s.ports[q], b, bs) == PortFrames(s.ports[q], s.pool.buffers, bs)
  {
    forall q | 0 <= q < |s.ports| && q != i
      ensures PortFrames(s.ports[q], b, bs) == PortFrames(s.ports[q], s.pool.buffers, bs)
    {
      CacheUntouched(s.ports[q].cache, s.pool.buffers, b, row, bs);
    }
  }

  /** Port i with one frame less in its lists. */
  ghost predicate GaveUp(p: Port, p1: Port, a: Addr, bs: nat)
    requires bs > 0
  {
    p1.cache == p.cache && RingFrames(p1, bs) + multiset{FrameOf(a, bs)} == RingFrames(p, bs)
  }

  lemma PlainGiveCache(c: Cache, b: seq<seq<Addr>>, b': seq<seq<Addr>>, a: Addr, bs: nat)
    requires bs > 0 && c.cons < |b| && c.prod < |b| && c.cons != c.prod
    requires c.nProd < |b[c.prod]| && b' == StoreIn(b, c.prod, c.nProd, a)
    ensures CacheFrames(c.(nProd := c.nProd + 1), b', bs) == CacheFrames(c, b, bs) + multiset{FrameOf(a, bs)}
  {
    assert Prefix(b', c.prod, c.nProd + 1) == Prefix(b, c.prod, c.nProd) + [a];
    IdsSnoc(Prefix(b, c.prod, c.nProd), a, bs);
  }

  function PlainGivePool(s: System, i: nat, a: Addr): Pool
    requires i < |s.ports| && s.ports[i].cache.prod < |s.pool.buffers|
    requires s.ports[i].cache.nProd < |s.pool.buffers[s.ports[i].cache.prod]|
  {
    Store(s.pool, s.ports[i].cache.prod, s.ports[i].cache.nProd, a)
  }

  function PlainGivePort(p1: Port): Port {
    p1.(cache := p1.cache.(nProd := p1.cache.nProd + 1))
  }

  lemma PlainGivePlaces(cfg: Config, s: System, i: nat, p1: Port, a: Addr)
    requires Sane(cfg) && Layout(cfg, s) && i < |s.ports|
    requires GaveUp(s.ports[i], p1, a, cfg.bufferSize)
    requires CacheShaped(s.pool, s.ports[i].cache, cfg.per) && s.ports[i].cache.nProd < cfg.per
    ensures Places(s.(pool := PlainGivePool(s, i, a), ports := s.ports[i := PlainGivePort(p1)]), cfg.bufferSize)
         == Places(s, cfg.bufferSize)
  {
    var c, bs := s.ports[i].cache, cfg.bufferSize;
    var pool := PlainGivePool(s, i, a);
    assert IsHolder(s, ProdOf(i)) && SlabAt(s, ProdOf(i)) == c.prod;
    OnlyHolder(s, ProdOf(i));
    PlainGiveCache(c, s.pool.buffers, pool.buffers, a, bs);
    GiveFrames(s, i, p1, PlainGivePort(p1), pool, a, bs);
    PoolUntouched(s.pool, pool.buffers, c.prod, bs);
    OthersUntouched(s, i, pool.buffers, c.prod, bs);
    PoolPlacesKept(cfg, s, i, PlainGivePort(p1), pool);
  }

  lemma PlainGivePortOk(cfg: Config, p1: Port)
    requires PortOk(cfg, p1)
    ensures PortOk(cfg, PlainGivePort(p1))
  {
  }

  lemma PlainGiveStep(cfg: Config, s: System, i: nat, p1: Port, a: Addr)
    requires Inv(cfg, s) && i < |s.ports| && PortOk(cfg, p1)
    requires GaveUp(s.ports[i], p1, a, cfg.bufferSize)
    requires CacheShaped(s.pool, s.ports[i].cache, cfg.per) && s.ports[i].cache.nProd < cfg.per
    ensures Inv(cfg, s.(pool := PlainGivePool(s, i, a), ports := s.ports[i := PlainGivePort(p1)]))
  {
    PlainGivePlaces(cfg, s, i, p1, a);
    PlainGiveLayout(cfg, s, i, PlainGivePort(p1), a);
    PlainGivePortOk(cfg, p1);
    InvIntro(cfg, s, i, PlainGivePort(p1), PlainGivePool(s, i, a));
  }

  lemma GiveFrames(s: System, i: nat, p1: Port, p': Port, pool: Pool, a: Addr, bs: nat)
    requires bs > 0 && i < |s.ports| && GaveUp(s.ports[i], p1, a, bs)
    requires p' == p1.(cache := p'.cache)
    requires CacheFrames(p'.cache, pool.buffers, bs) == CacheFrames(p1.cache, s.pool.buffers, bs) + multiset{FrameOf(a, bs)}
    ensures PortFrames(p', pool.buffers, bs) == PortFrames(s.ports[i], s.pool.buffers, bs)
  {
    assert RingFrames(p', bs) == RingFrames(p1, bs);
  }

  /** A slab held by one holder is held by no other. */
  lemma OnlyHolder(s: System, h: Holder)
    requires SlabsDistinct(s) && IsHolder(s, h) && s.pool.available <= LiveSlots(s)
    ensures forall j :: 0 <= j < s.pool.available && h != Slot(j) ==> s.pool.slabs[j] != SlabAt(s, h)
    ensures forall q :: 0 <= q < |s.ports| && h != ConsOf(q) ==> s.ports[q].cache.cons != SlabAt(s, h)
    ensures forall q :: 0 <= q < |s.ports| && h != ProdOf(q) ==> s.ports[q].cache.prod != SlabAt(s, h)
  {
    forall j: nat | j < s.pool.available && h != Slot(j)
      ensures s.pool.slabs[j] != SlabAt(s, h)
    {
      assert IsHolder(s, Slot(j)) && SlabAt(s, Slot(j)) == s.pool.slabs[j];
    }
    forall q: nat | q < |s.ports|
      ensures h != ConsOf(q) ==> s.ports[q].cache.cons != SlabAt(s, h)
      ensures h != ProdOf(q) ==> s.ports[q].cache.prod != SlabAt(s, h)
    {
      assert IsHolder(s, ConsOf(q)) && IsHolder(s, ProdOf(q));
    }
  }

  lemma PlainGiveLayout(cfg: Config, s: System, i: nat, p': Port, a: Addr)
    requires Layout(cfg, s) && i < |s.ports| && s.ports[i].cache.nProd < cfg.per
    requires p'.cache == s.ports[i].cache.(nProd := s.ports[i].cache.nProd + 1)
    ensures var c := s.ports[i].cache;
            c.prod < |s.pool.buffers| && c.nProd < |s.pool.buffers[c.prod]|
            && Layout(cfg, s.(pool := Store(s.pool, c.prod, c.nProd, a), ports := s.ports[i := p']))
  {
    var c := s.ports[i].cache;
    assert CacheShaped(s.pool, c, cfg.per);
    var s' := s.(pool := Store(s.pool, c.prod, c.nProd, a), ports := s.ports[i := p']);
    StoreShape(s.pool, c.prod, c.nProd, a, cfg.per);
    forall h | IsHolder(s', h)
      ensures IsHolder(s, h) && SlabAt(s', h) == SlabAt(s, h)
    {
    }
  }

  // ----- trading a full producer slab for an empty one -----

  /** The pool after the trade and before the frame is stored. */
  function EmptyTradePool(s: System, i: nat): Pool
    requires i < |s.ports| && s.pool.available < |s.pool.slabs|
  {
    s.pool.(slabs := s.pool.slabs[s.pool.available := s.ports[i].cache.prod], available := s.pool.available + 1)
  }

  function EmptyTradePort(s: System, p1: Port): Port
    requires s.pool.available < |s.pool.slabs|
  {
    p1.(cache := p1.cache.(prod := s.pool.slabs[s.pool.available], nProd := 1))
  }

  function TradeGivePool(s: System, i: nat, a: Addr, per: nat): Pool
    requires i < |s.ports| && s.pool.available < |s.pool.slabs| && Shaped(s.pool, per) && per > 0
  {
    Store(EmptyTradePool(s, i), s.pool.slabs[s.pool.available], 0, a)
  }

  lemma TradeGiveLayout(cfg: Config, s: System, i: nat, p1: Port, a: Addr)
    requires Layout(cfg, s) && Sane(cfg) && i < |s.ports| && s.pool.available < LiveSlots(s)
    requires p1.cache == s.ports[i].cache
    ensures Layout(cfg, s.(pool := TradeGivePool(s, i, a, cfg.per), ports := s.ports[i := EmptyTradePort(s, p1)]))
  {
    var s' := s.(pool := TradeGivePool(s, i, a, cfg.per), ports := s.ports[i := EmptyTradePort(s, p1)]);
    assert CacheShaped(s.pool, s.ports[i].cache, cfg.per);
    assert Shaped(EmptyTradePool(s, i), cfg.per);
    StoreShape(EmptyTradePool(s, i), s.pool.slabs[s.pool.available], 0, a, cfg.per);
    assert IsHolder(s, Slot(s.pool.available)) && IsHolder(s, ProdOf(i));
    Swapped(s, s', Slot(s.pool.available), ProdOf(i));
  }

  lemma EmptyTradeParts(s: System, i: nat, b: seq<seq<Addr>>, bs: nat)
    requires bs > 0 && i < |s.ports| && s.pool.available < |s.pool.slabs|
    requires s.ports[i].cache.prod < |s.pool.buffers| == |b|
    requires forall j :: 0 <= j < s.pool.available ==> Row(b, s.pool.slabs[j]) == Row(s.pool.buffers, s.pool.slabs[j])
    requires Row(b, s.ports[i].cache.prod) == Row(s.pool.buffers, s.ports[i].cache.prod)
    ensures Sum(PoolParts(EmptyTradePool(s, i).(buffers := b), bs))
         == Sum(PoolParts(s.pool, bs)) + Ids(Row(s.pool.buffers, s.ports[i].cache.prod), bs)
  {
    var full := Ids(Row(s.pool.buffers, s.ports[i].cache.prod), bs);
    assert PoolParts(EmptyTradePool(s, i).(buffers := b), bs) == PoolParts(s.pool, bs) + [full];
    SumSnoc(PoolParts(s.pool, bs), full);
  }

  /** The full producer slab goes to the pool; the new one holds the frame in hand. */
  lemma TradeGiveCache(c: Cache, c': Cache, b: seq<seq<Addr>>, b': seq<seq<Addr>>, a: Addr, bs: nat)
    requires bs > 0 && c.cons < |b| && c.prod < |b| && c'.prod < |b|
    requires c' == c.(prod := c'.prod, nProd := 1)
    requires c'.prod != c.cons && c.nProd == |b[c.prod]|
    requires |b[c'.prod]| > 0 && b' == StoreIn(b, c'.prod, 0, a)
    ensures CacheFrames(c', b', bs) + Ids(Row(b, c.prod), bs) == CacheFrames(c, b, bs) + multiset{FrameOf(a, bs)}
  {
    assert Prefix(b', c'.prod, 1) == [a];
    IdsOne(a, bs);
    assert Prefix(b, c.prod, c.nProd) == Row(b, c.prod);
  }

  lemma TradeGivePlaces(cfg: Config, s: System, i: nat, p1: Port, a: Addr)
    requires Layout(cfg, s) && Sane(cfg) && i < |s.ports| && s.pool.available < LiveSlots(s)
    requires GaveUp(s.ports[i], p1, a, cfg.bufferSize)
    requires CacheShaped(s.pool, s.ports[i].cache, cfg.per) && s.ports[i].cache.nProd == cfg.per
    ensures Places(s.(pool := TradeGivePool(s, i, a, cfg.per), ports := s.ports[i := EmptyTradePort(s, p1)]), cfg.bufferSize)
         == Places(s, cfg.bufferSize)
  {
    var c, bs := s.ports[i].cache, cfg.bufferSize;
    var pool, p' := TradeGivePool(s, i, a, cfg.per), EmptyTradePort(s, p1);
    var empty := s.pool.slabs[s.pool.available];
    assert IsHolder(s, Slot(s.pool.available)) && SlabAt(s, Slot(s.pool.available)) == empty;
    OnlyHolder(s, Slot(s.pool.available));
    TradeGiveCache(c, p'.cache, s.pool.buffers, pool.buffers, a, bs);
    EmptyTradeParts(s, i, pool.buffers, bs);
    OthersUntouched(s, i, pool.buffers, empty, bs);
    assert RingFrames(p', bs) == RingFrames(p1, bs);
    Handed(Sum(PoolParts(s.pool, bs)), Ids(Row(s.pool.buffers, c.prod), bs),
           CacheFrames(c, s.pool.buffers, bs), CacheFrames(p'.cache, pool.buffers, bs),
           RingFrames(s.ports[i], bs), RingFrames(p', bs), multiset{FrameOf(a, bs)});
    PoolPlacesKept(cfg, s, i, p', pool);
  }

  lemma Handed(pool: multiset<nat>, full: multiset<nat>, c: multiset<nat>, c': multiset<nat>,
               r: multiset<nat>, r': multiset<nat>, a: multiset<nat>)
    requires c' + full == c + a && r' + a == r
    ensures pool + full + (c' + r') == pool + (c + r)
  {
    forall f: nat
      ensures (pool + full + (c' + r'))[f] == (pool + (c + r))[f]
    {
      assert (c' + full)[f] == (c + a)[f];
      assert (r' + a)[f] == r[f];
    }
  }

  lemma TradeGivePortOk(cfg: Config, s: System, p1: Port)
    requires PortOk(cfg, p1) && s.pool.available < |s.pool.slabs|
    ensures PortOk(cfg, EmptyTradePort(s, p1))
  {
  }

  lemma TradeGiveStep(cfg: Config, s: System, i: nat, p1: Port, a: Addr)
    requires Inv(cfg, s) && i < |s.ports| && s.pool.available < LiveSlots(s) && PortOk(cfg, p1)
    requires GaveUp(s.ports[i], p1, a, cfg.bufferSize)
    requires CacheShaped(s.pool, s.ports[i].cache, cfg.per) && s.ports[i].cache.nProd == cfg.per
    ensures Inv(cfg, s.(pool := TradeGivePool(s, i, a, cfg.per), ports := s.ports[i := EmptyTradePort(s, p1)]))
  {
    TradeGivePlaces(cfg, s, i, p1, a);
    TradeGiveLayout(cfg, s, i, p1, a);
    TradeGivePortOk(cfg, s, p1);
    InvIntro(cfg, s, i, EmptyTradePort(s, p1), TradeGivePool(s, i, a, cfg.per));
  }

  // ----- the two steps that give a frame back -----

  /** The frame in hand, and the port once it is out of its list. */
  function InHand(p: Port, step: Step): (Addr, Port)
    requires (step.Drop? && p.burst != []) || (step.Complete? && p.comp != [])
  {
    if step.Drop? then (p.burst[0], p.(burst := p.burst[1..])) else (p.comp[0], p.(comp := p.comp[1..]))
  }

  lemma InHandOk(cfg: Config, p: Port, step: Step)
    requires Sane(cfg) && PortOk(cfg, p)
    requires (step.Drop? && p.burst != []) || (step.Complete? && p.comp != [])
    ensures PortOk(cfg, InHand(p, step).1)
    ensures GaveUp(p, InHand(p, step).1, InHand(p, step).0, cfg.bufferSize)
  {
    if step.Drop? { BurstHead(p, cfg.bufferSize); } else { CompHead(p, cfg.bufferSize); }
  }

  lemma PlainGiveNext(cfg: Config, s: System, step: Step)
    requires Sane(cfg) && Enabled(cfg, s, step) && InRange(cfg, s, step) && Gives(step)
    requires s.ports[step.port].cache.nProd < cfg.per
    ensures var (a, p1) := InHand(s.ports[step.port], step);
            Next(cfg, s, step) == s.(pool := PlainGivePool(s, step.port, a), ports := s.ports[step.port := PlainGivePort(p1)])
  {
  }

  lemma TradeGiveNext(cfg: Config, s: System, step: Step)
    requires Sane(cfg) && Enabled(cfg, s, step) && InRange(cfg, s, step) && Gives(step)
    requires s.ports[step.port].cache.nProd == cfg.per
    ensures var (a, p1) := InHand(s.ports[step.port], step);
            Next(cfg, s, step) ==
            s.(pool := TradeGivePool(s, step.port, a, cfg.per), ports := s.ports[step.port := EmptyTradePort(s, p1)])
  {
  }

  lemma GiveStep(cfg: Config, s: System, step: Step)
    requires Inv(cfg, s) && Enabled(cfg, s, step) && InRange(cfg, s, step) && Gives(step)
    requires Trades(cfg, s, step) ==> s.pool.available < LiveSlots(s)
    ensures Inv(cfg, Next(cfg, s, step))
  {
    var i, p := step.port, s.ports[step.port];
    var (a, p1) := InHand(p, step);
    InHandOk(cfg, p, step);
    if p.cache.nProd < cfg.per {
      PlainGiveStep(cfg, s, i, p1, a);
      PlainGiveNext(cfg, s, step);
    } else {
      TradeGiveStep(cfg, s, i, p1, a);
      TradeGiveNext(cfg, s, step);
    }
  }
}
