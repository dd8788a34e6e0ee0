/** The steps that change the pool: giving a frame back, and trading slabs. */
module FrameTrades {
  import opened Slabs
  import opened FrameCounts
  import opened Frames
  import opened FrameSteps

  /** Port `i` and the pool exchange frames; nobody else's frames move. */
  lemma PoolPlacesKept(cfg: Config, s: System, i: nat, p: Port, pool: Pool)
    requires cfg.bufferSize > 0 && i < |s.ports|
    requires s.pool.available <= |s.pool.slabs| && pool.available <= |pool.slabs|
    requires forall q :: 0 <= q < |s.ports| && q != i ==>
      PortFrames(s.ports[q], pool.buffers, cfg.bufferSize) == PortFrames(s.ports[q], s.pool.buffers, cfg.bufferSize)
    requires Sum(PoolParts(pool, cfg.bufferSize)) + PortFrames(p, pool.buffers, cfg.bufferSize)
          == Sum(PoolParts(s.pool, cfg.bufferSize)) + PortFrames(s.ports[i], s.pool.buffers, cfg.bufferSize)
    ensures Places(s.(pool := pool, ports := s.ports[i := p]), cfg.bufferSize) == Places(s, cfg.bufferSize)
  {
    var bs := cfg.bufferSize;
    var s' := s.(pool := pool, ports := s.ports[i := p]);
    var parts := PortParts(s.ports, s.pool.buffers, bs);
    assert PortParts(s'.ports, pool.buffers, bs) == parts[i := PortFrames(p, pool.buffers, bs)];
    SumUpdate(parts, i, PortFrames(p, pool.buffers, bs));
    var x, x', y, y' := Sum(PoolParts(s.pool, bs)), Sum(PoolParts(pool, bs)), Sum(parts), Sum(PortParts(s'.ports, pool.buffers, bs));
    Exchange(x, x', y, y', PortFrames(s.ports[i], s.pool.buffers, bs), PortFrames(p, pool.buffers, bs));
    assert Places(s', bs) == (x' + y') + Sum(QueueParts(s.queues, bs)) + Ids(s.lost, bs);
  }

  lemma Exchange(x: multiset<nat>, x': multiset<nat>, y: multiset<nat>, y': multiset<nat>, p: multiset<nat>, p': multiset<nat>)
    requires x' + p' == x + p && y' + p == y + p'
    ensures x' + y' == x + y
  {
    forall f: nat
      ensures (x' + y')[f] == (x + y)[f]
    {
      assert (x' + p')[f] == (x + p)[f];
      assert (y' + p)[f] == (y + p')[f];
    }
  }

  /** A cache whose slabs are not written keeps its frames. */
  lemma CacheUntouched(c: Cache, b: seq<seq<Addr>>, b': seq<seq<Addr>>, row: nat, bs: nat)
    requires bs > 0 && |b'| == |b| && row < |b| && b' == b[row := b'[row]]
    requires c.cons != row && c.prod != row
    ensures CacheFrames(c, b', bs) == CacheFrames(c, b, bs)
  {
  }

  /** The invariant after port `i` and the pool changed: what is left to show
      beside the layout and the places is the port itself. */
  lemma InvIntro(cfg: Config, s: System, i: nat, p: Port, pool: Pool)
    requires Inv(cfg, s) && i < |s.ports| && PortOk(cfg, p)
    requires Layout(cfg, s.(pool := pool, ports := s.ports[i := p]))
    requires Places(s.(pool := pool, ports := s.ports[i := p]), cfg.bufferSize) == Places(s, cfg.bufferSize)
    ensures Inv(cfg, s.(pool := pool, ports := s.ports[i := p]))
  {
    PortsOkUpdate(cfg, s.ports, i, p);
  }

  lemma PortsOkUpdate(cfg: Config, ports: seq<Port>, i: nat, p: Port)
    requires PortsOk(cfg, ports) && i < |ports| && PortOk(cfg, p)
    ensures PortsOk(cfg, ports[i := p])
  {
  }

  // ----- trades -----

  /** Two holders swap their slabs. */
  lemma Swapped(s: System, s': System, x: Holder, y: Holder)
    requires SlabsDistinct(s) && IsHolder(s, x) && IsHolder(s, y)
    requires |s'.ports| == |s.ports| && LiveSlots(s') == LiveSlots(s)
    requires SlabAt(s', x) == SlabAt(s, y) && SlabAt(s', y) == SlabAt(s, x)
    requires forall h :: IsHolder(s, h) && h != x && h != y ==> SlabAt(s', h) == SlabAt(s, h)
    ensures SlabsDistinct(s')
  {
    forall h, k | IsHolder(s', h) && IsHolder(s', k) && h != k
      ensures SlabAt(s', h) != SlabAt(s', k)
    {
      var h0 := if h == x then y else if h == y then x else h;
      var k0 := if k == x then y else if k == y then x else k;
      assert IsHolder(s, h0) && IsHolder(s, k0) && h0 != k0;
      assert SlabAt(s', h) == SlabAt(s, h0) && SlabAt(s', k) == SlabAt(s, k0);
    }
  }

  /** The pool and port of a full-slab trade. */
  function FullTradePool(s: System, i: nat): Pool
    requires i < |s.ports| && 0 < s.pool.available <= |s.pool.slabs|
  {
    var a := s.pool.available - 1;
    s.pool.(slabs := s.pool.slabs[a := s.ports[i].cache.cons], available := a)
  }

  function FullTradePort(cfg: Config, s: System, i: nat): Port
    requires i < |s.ports| && 0 < s.pool.available <= |s.pool.slabs|
  {
    var p := s.ports[i];
    p.(cache := p.cache.(cons := s.pool.slabs[s.pool.available - 1], nCons := cfg.per), phase := Taking(MAX_BURST, 0))
  }

  lemma FullTradeLayout(cfg: Config, s: System, i: nat)
    requires Layout(cfg, s) && i < |s.ports| && 0 < s.pool.available
    ensures Layout(cfg, s.(pool := FullTradePool(s, i), ports := s.ports[i := FullTradePort(cfg, s, i)]))
  {
    var a := s.pool.available - 1;
    var s' := s.(pool := FullTradePool(s, i), ports := s.ports[i := FullTradePort(cfg, s, i)]);
    assert IsHolder(s, Slot(a)) && IsHolder(s, ConsOf(i));
    Swapped(s, s', Slot(a), ConsOf(i));
  }

  lemma FullTradePlaces(cfg: Config, s: System, i: nat)
    requires cfg.bufferSize > 0 && Shaped(s.pool, cfg.per) && i < |s.ports| && 0 < s.pool.available
    requires s.ports[i].cache.nCons == 0
    ensures Places(s.(pool := FullTradePool(s, i), ports := s.ports[i := FullTradePort(cfg, s, i)]), cfg.bufferSize)
         == Places(s, cfg.bufferSize)
  {
    var p, p', bs := s.ports[i], FullTradePort(cfg, s, i), cfg.bufferSize;
    var pool := FullTradePool(s, i);
    FullTradeParts(s.pool, pool, bs);
    FullTradeCache(p.cache, p'.cache, s.pool.buffers, bs);
    assert RingFrames(p', bs) == RingFrames(p, bs);
    PoolPlacesKept(cfg, s, i, p', pool);
  }

  lemma FullTradeParts(pool: Pool, pool': Pool, bs: nat)
    requires bs > 0 && 0 < pool.available <= |pool.slabs| == |pool'.slabs|
    requires pool'.available == pool.available - 1 && pool'.buffers == pool.buffers
    requires pool'.slabs[..pool'.available] == pool.slabs[..pool'.available]
    ensures Sum(PoolParts(pool, bs)) == Sum(PoolParts(pool', bs)) + Ids(Row(pool.buffers, pool.slabs[pool.available - 1]), bs)
  {
    var last := Ids(Row(pool.buffers, pool.slabs[pool.available - 1]), bs);
    forall j | 0 <= j < pool'.available
      ensures pool.slabs[j] == pool'.slabs[j]
    {
      assert pool.slabs[..pool'.available][j] == pool'.slabs[..pool'.available][j];
    }
    assert PoolParts(pool, bs) == PoolParts(pool', bs) + [last];
    SumSnoc(PoolParts(pool', bs), last);
  }

  lemma FullTradeCache(c: Cache, c': Cache, b: seq<seq<Addr>>, bs: nat)
    requires bs > 0 && c.nCons == 0 && c'.prod == c.prod && c'.nProd == c.nProd
    requires c'.cons < |b| && c'.nCons == |b[c'.cons]|
    ensures CacheFrames(c', b, bs) == CacheFrames(c, b, bs) + Ids(Row(b, c'.cons), bs)
  {
    assert Prefix(b, c'.cons, c'.nCons) == Row(b, c'.cons);
    assert Prefix(b, c.cons, 0) == [];
    IdsEmpty(bs);
  }

  lemma FullTradePortOk(cfg: Config, s: System, i: nat)
    requires Sane(cfg) && i < |s.ports| && 0 < s.pool.available <= |s.pool.slabs|
    requires PortOk(cfg, s.ports[i]) && s.ports[i].phase.Ready? && s.ports[i].burst == []
    ensures PortOk(cfg, FullTradePort(cfg, s, i))
  {
  }

  lemma FullTradeStep(cfg: Config, s: System, i: nat)
    requires Inv(cfg, s) && i < |s.ports| && 0 < s.pool.available
    requires s.ports[i].cache.nCons == 0 && s.ports[i].phase.Ready? && s.ports[i].burst == []
    ensures Inv(cfg, s.(pool := FullTradePool(s, i), ports := s.ports[i := FullTradePort(cfg, s, i)]))
  {
    FullTradeLayout(cfg, s, i);
    FullTradePlaces(cfg, s, i);
    FullTradePortOk(cfg, s, i);
    InvIntro(cfg, s, i, FullTradePort(cfg, s, i), FullTradePool(s, i));
  }

  lemma CheckStep(cfg: Config, s: System, step: Step)
    requires Inv(cfg, s) && Enabled(cfg, s, step) && InRange(cfg, s, step) && step.Check?
    ensures Inv(cfg, Next(cfg, s, step))
  {
    var i, p := step.port, s.ports[step.port];
    if p.cache.nCons == 0 && s.pool.available > 0 {
      FullTradeStep(cfg, s, i);
    } else {
      var p' := Next(cfg, s, step).ports[i];
      assert PortOk(cfg, p);
      assert RingFrames(p', cfg.bufferSize) == RingFrames(p, cfg.bufferSize);
      PortStep(cfg, s, i, p', s.queues);
    }
  }
}
