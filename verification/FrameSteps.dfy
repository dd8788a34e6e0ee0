/** The steps that leave the pool alone keep each frame in exactly one place. */
module FrameSteps {
  import opened Slabs
  import opened FrameCounts
  import opened Frames

  // ----- steps that leave the pool alone -----

  /** A port that keeps its slabs keeps the layout. */
  lemma LayoutKept(cfg: Config, s: System, i: nat, p: Port, queues: seq<seq<Addr>>)
    requires Layout(cfg, s) && i < |s.ports|
    requires p.cache.cons == s.ports[i].cache.cons && p.cache.prod == s.ports[i].cache.prod
    requires CacheShaped(s.pool, p.cache, cfg.per)
    ensures Layout(cfg, s.(ports := s.ports[i := p], queues := queues))
  {
    var s' := s.(ports := s.ports[i := p], queues := queues);
    forall h | IsHolder(s', h)
      ensures IsHolder(s, h) && SlabAt(s', h) == SlabAt(s, h)
    {
    }
  }

  lemma PlacesKept(cfg: Config, s: System, i: nat, p: Port, queues: seq<seq<Addr>>)
    requires cfg.bufferSize > 0 && s.pool.available <= |s.pool.slabs| && i < |s.ports|
    requires PortFrames(p, s.pool.buffers, cfg.bufferSize) + Sum(QueueParts(queues, cfg.bufferSize))
          == PortFrames(s.ports[i], s.pool.buffers, cfg.bufferSize) + Sum(QueueParts(s.queues, cfg.bufferSize))
    ensures Places(s.(ports := s.ports[i := p], queues := queues), cfg.bufferSize) == Places(s, cfg.bufferSize)
  {
    var bs := cfg.bufferSize;
    var s' := s.(ports := s.ports[i := p], queues := queues);
    var parts := PortParts(s.ports, s.pool.buffers, bs);
    assert PortParts(s'.ports, s.pool.buffers, bs) == parts[i := PortFrames(p, s.pool.buffers, bs)];
    SumUpdate(parts, i, PortFrames(p, s.pool.buffers, bs));
    SamePlaces(Sum(PoolParts(s.pool, bs)), Sum(parts), Sum(PortParts(s'.ports, s.pool.buffers, bs)),
               PortFrames(s.ports[i], s.pool.buffers, bs), PortFrames(p, s.pool.buffers, bs),
               Sum(QueueParts(s.queues, bs)), Sum(QueueParts(queues, bs)), Ids(s.lost, bs));
  }

  /** A port may rearrange its own frames and exchange frames with the queues. */
  lemma PortStep(cfg: Config, s: System, i: nat, p: Port, queues: seq<seq<Addr>>)
    requires Inv(cfg, s) && i < |s.ports|
    requires p.cache.cons == s.ports[i].cache.cons && p.cache.prod == s.ports[i].cache.prod
    requires CacheShaped(s.pool, p.cache, cfg.per) && PortOk(cfg, p)
    requires QueuesOk(queues)
    requires PortFrames(p, s.pool.buffers, cfg.bufferSize) + Sum(QueueParts(queues, cfg.bufferSize))
          == PortFrames(s.ports[i], s.pool.buffers, cfg.bufferSize) + Sum(QueueParts(s.queues, cfg.bufferSize))
    ensures Inv(cfg, s.(ports := s.ports[i := p], queues := queues))
  {
    LayoutKept(cfg, s, i, p, queues);
    PlacesKept(cfg, s, i, p, queues);
  }

  lemma SamePlaces(pool: multiset<nat>, ports: multiset<nat>, ports': multiset<nat>,
                   port: multiset<nat>, port': multiset<nat>,
                   queues: multiset<nat>, queues': multiset<nat>, lost: multiset<nat>)
    requires ports' + port == ports + port'
    requires port' + queues' == port + queues
    ensures pool + ports' + queues' + lost == pool + ports + queues + lost
  {
    forall f: nat
      ensures (ports' + queues')[f] == (ports + queues)[f]
    {
      assert (ports' + port)[f] == (ports + port')[f];
      assert (port' + queues')[f] == (port + queues)[f];
    }
    assert ports' + queues' == ports + queues;
    assert pool + ports' + queues' + lost == pool + (ports' + queues') + lost;
    assert pool + ports + queues + lost == pool + (ports + queues) + lost;
  }

  /** An entry of one list moves to the end of another, perhaps with another offset. */
  lemma MoveOne(from: seq<Addr>, i: nat, to: seq<Addr>, a: Addr, bs: nat)
    requires bs > 0 && i < |from| && FrameOf(a, bs) == FrameOf(from[i], bs)
    ensures Ids(Without(from, i), bs) + Ids(to + [a], bs) == Ids(from, bs) + Ids(to, bs)
  {
    IdsWithout(from, i, bs);
    IdsSnoc(to, a, bs);
  }

  lemma MoveHead(from: seq<Addr>, to: seq<Addr>, bs: nat)
    requires bs > 0 && from != []
    ensures Ids(from[1..], bs) + Ids(to + [from[0]], bs) == Ids(from, bs) + Ids(to, bs)
  {
    IdsTail(from, bs);
    IdsSnoc(to, from[0], bs);
  }

  /** Two of a port's six lists change and keep their frames together. */
  lemma TwoLists(a: multiset<nat>, b: multiset<nat>, a': multiset<nat>, b': multiset<nat>,
                 w: multiset<nat>, x: multiset<nat>, y: multiset<nat>, z: multiset<nat>)
    requires a' + b' == a + b
    ensures a' + b' + w + x + y + z == a + b + w + x + y + z
    ensures w + x + a' + b' + y + z == w + x + a + b + y + z
    ensures w + a' + x + y + b' + z == w + a + x + y + b + z
    ensures w + x + b' + y + z + a' == w + x + b + y + z + a
  {
    forall f: nat
      ensures a'[f] + b'[f] == a[f] + b[f]
    {
      assert (a' + b')[f] == (a + b)[f];
    }
  }

  lemma RingMove(cfg: Config, s: System, step: Step)
    requires Sane(cfg) && Enabled(cfg, s, step) && InRange(cfg, s, step)
    requires step.KernelReceive? || step.KernelSend? || step.Take? || step.EndTake? || step.Transmit?
    ensures RingFrames(Next(cfg, s, step).ports[step.port], cfg.bufferSize) == RingFrames(s.ports[step.port], cfg.bufferSize)
  {
    var p, bs := s.ports[step.port], cfg.bufferSize;
    var p' := Next(cfg, s, step).ports[step.port];
    var fill, rx, tx, comp, burst, collector :=
      Ids(p.fill, bs), Ids(p.rx, bs), Ids(p.tx, bs), Ids(p.comp, bs), Ids(p.burst, bs), Ids(p.collector, bs);
    match step {
      case KernelReceive(_, index, at) =>
        MoveOne(p.fill, index, p.rx, at, bs);
        TwoLists(fill, rx, Ids(p'.fill, bs), Ids(p'.rx, bs), tx, comp, burst, collector);
      case KernelSend(_, index, at) =>
        MoveOne(p.tx, index, p.comp, at, bs);
        TwoLists(tx, comp, Ids(p'.tx, bs), Ids(p'.comp, bs), fill, rx, burst, collector);
      case Take(_) =>
        MoveHead(p.rx, p.burst, bs);
        TwoLists(rx, burst, Ids(p'.rx, bs), Ids(p'.burst, bs), fill, tx, comp, collector);
      case EndTake(_) =>
      case Transmit(_) =>
        MoveHead(p.collector, p.tx, bs);
        TwoLists(collector, tx, Ids(p'.collector, bs), Ids(p'.tx, bs), fill, rx, comp, burst);
    }
  }

  lemma RingStep(cfg: Config, s: System, step: Step)
    requires Inv(cfg, s) && Enabled(cfg, s, step) && InRange(cfg, s, step)
    requires step.KernelReceive? || step.KernelSend? || step.Take? || step.EndTake? || step.Transmit?
    ensures Inv(cfg, Next(cfg, s, step))
  {
    var i, p := step.port, s.ports[step.port];
    var p' := Next(cfg, s, step).ports[i];
    assert PortOk(cfg, p);
    RingMove(cfg, s, step);
    PortStep(cfg, s, i, p', s.queues);
  }

  // ----- a frame leaves a port's lists, or enters them -----

  lemma BurstHead(p: Port, bs: nat)
    requires bs > 0 && p.burst != []
    ensures RingFrames(p.(burst := p.burst[1..]), bs) + multiset{FrameOf(p.burst[0], bs)} == RingFrames(p, bs)
  {
    IdsTail(p.burst, bs);
  }

  lemma CompHead(p: Port, bs: nat)
    requires bs > 0 && p.comp != []
    ensures RingFrames(p.(comp := p.comp[1..]), bs) + multiset{FrameOf(p.comp[0], bs)} == RingFrames(p, bs)
  {
    IdsTail(p.comp, bs);
  }

  lemma CollectorSnoc(p: Port, a: Addr, bs: nat)
    requires bs > 0
    ensures RingFrames(p.(collector := p.collector + [a]), bs) == RingFrames(p, bs) + multiset{FrameOf(a, bs)}
  {
    IdsSnoc(p.collector, a, bs);
  }

  lemma FillSnoc(p: Port, a: Addr, bs: nat)
    requires bs > 0
    ensures RingFrames(p.(fill := p.fill + [a]), bs) == RingFrames(p, bs) + multiset{FrameOf(a, bs)}
  {
    IdsSnoc(p.fill, a, bs);
  }

  lemma QueueGrows(queues: seq<seq<Addr>>, q: nat, a: Addr, bs: nat)
    requires bs > 0 && q < |queues|
    ensures Sum(QueueParts(queues[q := queues[q] + [a]], bs)) == Sum(QueueParts(queues, bs)) + multiset{FrameOf(a, bs)}
  {
    var parts, m := QueueParts(queues, bs), Ids(queues[q] + [a], bs);
    IdsSnoc(queues[q], a, bs);
    SumUpdate(parts, q, m);
    assert QueueParts(queues[q := queues[q] + [a]], bs) == parts[q := m];
    Cancel(Sum(parts[q := m]), Sum(parts), parts[q], multiset{FrameOf(a, bs)});
  }

  lemma QueueShrinks(queues: seq<seq<Addr>>, q: nat, bs: nat)
    requires bs > 0 && q < |queues| && queues[q] != []
    ensures Sum(QueueParts(queues[q := queues[q][1..]], bs)) + multiset{FrameOf(queues[q][0], bs)} == Sum(QueueParts(queues, bs))
  {
    var parts, m := QueueParts(queues, bs), Ids(queues[q][1..], bs);
    IdsTail(queues[q], bs);
    SumUpdate(parts, q, m);
    assert QueueParts(queues[q := queues[q][1..]], bs) == parts[q := m];
    Cancel(Sum(parts), Sum(parts[q := m]), m, multiset{FrameOf(queues[q][0], bs)});
  }

  lemma Cancel(x: multiset<nat>, y: multiset<nat>, a: multiset<nat>, d: multiset<nat>)
    requires x + a == y + (a + d)
    ensures x == y + d
  {
    forall f: nat
      ensures x[f] == (y + d)[f]
    {
      assert (x + a)[f] == (y + (a + d))[f];
    }
  }

  /** A fresh frame moves from the consumer slab to the fill ring. */
  lemma RefillMove(p: Port, b: seq<seq<Addr>>, a: Addr, p': Port, bs: nat)
    requires bs > 0 && p.cache.cons < |b| && 0 < p.cache.nCons <= |b[p.cache.cons]|
    requires a == b[p.cache.cons][p.cache.nCons - 1]
    requires p' == p.(cache := p.cache.(nCons := p.cache.nCons - 1), fill := p.fill + [a], phase := p'.phase)
    ensures PortFrames(p', b, bs) == PortFrames(p, b, bs)
  {
    var c := p.cache;
    FillSnoc(p, a, bs);
    assert RingFrames(p', bs) == RingFrames(p, bs) + multiset{FrameOf(a, bs)};
    IdsSnoc(Prefix(b, c.cons, c.nCons - 1), a, bs);
    assert Prefix(b, c.cons, c.nCons) == Prefix(b, c.cons, c.nCons - 1) + [a];
    assert CacheFrames(c, b, bs) == CacheFrames(p'.cache, b, bs) + multiset{FrameOf(a, bs)};
  }

  lemma RefillStep(cfg: Config, s: System, step: Step)
    requires Inv(cfg, s) && Enabled(cfg, s, step) && InRange(cfg, s, step) && step.Refill?
    ensures Inv(cfg, Next(cfg, s, step))
  {
    var i, p := step.port, s.ports[step.port];
    var p' := Next(cfg, s, step).ports[i];
    assert PortOk(cfg, p);
    RefillMove(p, s.pool.buffers, Cons(s.pool, p.cache, cfg.per).1, p', cfg.bufferSize);
    PortStep(cfg, s, i, p', s.queues);
  }

  lemma ForwardStep(cfg: Config, s: System, step: Step)
    requires Inv(cfg, s) && Enabled(cfg, s, step) && InRange(cfg, s, step) && step.Forward?
    ensures Inv(cfg, Next(cfg, s, step))
  {
    var i, p, bs := step.port, s.ports[step.port], cfg.bufferSize;
    var s' := Next(cfg, s, step);
    assert PortOk(cfg, p);
    BurstHead(p, bs);
    QueueGrows(s.queues, step.queue, p.burst[0], bs);
    PortStep(cfg, s, i, s'.ports[i], s'.queues);
  }

  lemma DrainMove(p: Port, queues: seq<seq<Addr>>, q: nat, b: seq<seq<Addr>>, bs: nat)
    requires bs > 0 && q < |queues| && queues[q] != []
    ensures PortFrames(p.(collector := p.collector + [queues[q][0]]), b, bs) + Sum(QueueParts(queues[q := queues[q][1..]], bs))
         == PortFrames(p, b, bs) + Sum(QueueParts(queues, bs))
  {
    CollectorSnoc(p, queues[q][0], bs);
    QueueShrinks(queues, q, bs);
  }

  lemma DrainStep(cfg: Config, s: System, step: Step)
    requires Inv(cfg, s) && Enabled(cfg, s, step) && InRange(cfg, s, step) && step.Drain?
    ensures Inv(cfg, Next(cfg, s, step))
  {
    var i, p := step.port, s.ports[step.port];
    var s' := Next(cfg, s, step);
    assert PortOk(cfg, p);
    DrainMove(p, s.queues, step.queue, s.pool.buffers, cfg.bufferSize);
    PortStep(cfg, s, i, s'.ports[i], s'.queues);
  }
}
