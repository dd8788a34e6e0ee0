/** The set-up of the ports establishes the invariant, so it holds in every
    reachable state. */
module FrameSetUp {
  import opened Slabs
  import opened FrameCounts
  import opened Frames
  import opened FrameTrades
  import opened FrameGives
  import opened FrameRuns

  lemma {:induction false} SumEmpty(parts: seq<multiset<nat>>)
    requires forall i :: 0 <= i < |parts| ==> parts[i] == multiset{}
    ensures Sum(parts) == multiset{}
    decreases |parts|
  {
    if parts != [] {
      SumEmpty(parts[..|parts| - 1]);
    }
  }

  lemma BootInv(cfg: Config, queues: nat)
    requires Sane(cfg)
    ensures Inv(cfg, Boot(cfg, queues))
  {
    var s, bs := Boot(cfg, queues), cfg.bufferSize;
    forall i | 0 <= i < |s.queues|
      ensures QueueParts(s.queues, bs)[i] == multiset{}
    {
      IdsEmpty(bs);
    }
    SumEmpty(QueueParts(s.queues, bs));
    SumEmpty(PortParts(s.ports, s.pool.buffers, bs));
    IdsEmpty(bs);
    BootParts(cfg, cfg.slabs);
  }

  // ----- one more port -----

  /** The last `n` addresses of a list, last first. */
  function LastFirst(row: seq<Addr>, n: nat): seq<Addr>
    requires n <= |row|
  {
    seq(n, i requires 0 <= i < n => row[|row| - 1 - i])
  }

  lemma {:induction false} LastFirstFrames(row: seq<Addr>, n: nat, bs: nat)
    requires bs > 0 && n <= |row|
    ensures Ids(row[..|row| - n], bs) + Ids(LastFirst(row, n), bs) == Ids(row, bs)
    decreases n
  {
    if n == 0 {
      assert row[..|row|] == row;
      IdsEmpty(bs);
    } else {
      var front, last := row[..|row| - 1], row[|row| - 1];
      LastFirstFrames(front, n - 1, bs);
      assert LastFirst(row, n) == [last] + LastFirst(front, n - 1);
      assert front[..|front| - (n - 1)] == row[..|row| - n];
      assert row == front + [last];
      IdsAppend([last], LastFirst(front, n - 1), bs);
      IdsOne(last, bs);
      IdsSnoc(front, last, bs);
    }
  }

  /** Filling the ring moves frames from the consumer slab to the ring. */
  lemma FillFrames(p: Pool, c: Cache, n: nat, per: nat, bs: nat)
    requires bs > 0 && Shaped(p, per) && CacheShaped(p, c, per) && n <= c.nCons == per
    ensures Ids(Prefix(p.buffers, c.cons, per - n), bs) + Ids(TakeMany(p, c, n, per).1, bs) == Ids(Row(p.buffers, c.cons), bs)
  {
    var row := p.buffers[c.cons];
    LastFirstFrames(row, n, bs);
    assert TakeMany(p, c, n, per).1 == LastFirst(row, n);
  }

  /** The port made by AddPort. */
  function NewPort(cfg: Config, s: System): Port
    requires Shaped(s.pool, cfg.per) && s.pool.available >= 2 && cfg.fill <= cfg.per
  {
    var p := s.pool.(available := s.pool.available - 2);
    var c := Cache(s.pool.slabs[s.pool.available - 1], s.pool.slabs[s.pool.available - 2], cfg.per, 0);
    Port(c.(nCons := cfg.per - cfg.fill), Ready, TakeMany(p, c, cfg.fill, cfg.per).1, [], [], [], [], [])
  }

  lemma AddPortIs(cfg: Config, s: System)
    requires Shaped(s.pool, cfg.per) && s.pool.available >= 2 && cfg.fill <= cfg.per
    ensures var p := NewPort(cfg, s);
            AddPort(cfg, s) == System(s.pool.(available := s.pool.available - 2), s.ports + [p], s.queues,
                                      s.lost + s.pool.buffers[p.cache.prod])
  {
  }

  lemma NewPortFrames(cfg: Config, s: System)
    requires Sane(cfg) && Shaped(s.pool, cfg.per) && s.pool.available >= 2
    ensures var p, b := NewPort(cfg, s), s.pool.buffers;
            PortFrames(p, b, cfg.bufferSize) == Ids(Row(b, p.cache.cons), cfg.bufferSize)
  {
    NewPortFill(cfg, s);
    FreshPortFrames(NewPort(cfg, s), s.pool.buffers, cfg.bufferSize);
  }

  /** Its ring and what is left of its consumer slab hold the slab's frames. */
  lemma NewPortFill(cfg: Config, s: System)
    requires Sane(cfg) && Shaped(s.pool, cfg.per) && s.pool.available >= 2
    ensures var p, b, bs := NewPort(cfg, s), s.pool.buffers, cfg.bufferSize;
            Ids(Prefix(b, p.cache.cons, p.cache.nCons), bs) + Ids(p.fill, bs) == Ids(Row(b, p.cache.cons), bs)
  {
    var a := s.pool.available;
    var pool, c := s.pool.(available := a - 2), Cache(s.pool.slabs[a - 1], s.pool.slabs[a - 2], cfg.per, 0);
    FillFrames(pool, c, cfg.fill, cfg.per, cfg.bufferSize);
  }

  /** A port with frames only in its consumer slab and its fill ring. */
  lemma FreshPortFrames(p: Port, b: seq<seq<Addr>>, bs: nat)
    requires bs > 0 && p.cache.nProd == 0
    requires p.rx == p.tx == p.comp == p.burst == p.collector == []
    ensures PortFrames(p, b, bs) == Ids(Prefix(b, p.cache.cons, p.cache.nCons), bs) + Ids(p.fill, bs)
  {
    assert Prefix(b, p.cache.prod, 0) == [];
    IdsEmpty(bs);
  }

  lemma LastTwo(pool: Pool, bs: nat)
    requires bs > 0 && 2 <= pool.available <= |pool.slabs|
    ensures var a := pool.available;
            Sum(PoolParts(pool, bs)) ==
            Sum(PoolParts(pool.(available := a - 2), bs)) + Ids(Row(pool.buffers, pool.slabs[a - 2]), bs)
            + Ids(Row(pool.buffers, pool.slabs[a - 1]), bs)
  {
    FullTradeParts(pool, pool.(available := pool.available - 1), bs);
    FullTradeParts(pool.(available := pool.available - 1), pool.(available := pool.available - 2), bs);
  }

  /** A port that holds the frames of one slab, and `lost` those of another:
      the frames that the pool no longer holds. */
  lemma MorePlaces(s: System, pool: Pool, p: Port, lost: seq<Addr>, bs: nat)
    requires bs > 0 && s.pool.available <= |s.pool.slabs| && pool.available <= |pool.slabs|
    requires pool.buffers == s.pool.buffers
    requires Sum(PoolParts(s.pool, bs)) == Sum(PoolParts(pool, bs)) + Ids(lost, bs) + PortFrames(p, pool.buffers, bs)
    ensures Places(System(pool, s.ports + [p], s.queues, s.lost + lost), bs) == Places(s, bs)
  {
    var b := pool.buffers;
    assert PortParts(s.ports + [p], b, bs) == PortParts(s.ports, b, bs) + [PortFrames(p, b, bs)];
    SumSnoc(PortParts(s.ports, b, bs), PortFrames(p, b, bs));
    IdsAppend(s.lost, lost, bs);
    Regroup(Sum(PoolParts(pool, bs)), Ids(lost, bs), PortFrames(p, b, bs),
            Sum(PortParts(s.ports, b, bs)), Sum(QueueParts(s.queues, bs)), Ids(s.lost, bs));
  }

  lemma AddPortPlaces(cfg: Config, s: System)
    requires Sane(cfg) && Shaped(s.pool, cfg.per) && s.pool.available >= 2
    ensures Places(AddPort(cfg, s), cfg.bufferSize) == Places(s, cfg.bufferSize)
  {
    var p, b, bs := NewPort(cfg, s), s.pool.buffers, cfg.bufferSize;
    AddPortIs(cfg, s);
    NewPortFrames(cfg, s);
    LastTwo(s.pool, bs);
    MorePlaces(s, s.pool.(available := s.pool.available - 2), p, b[p.cache.prod], bs);
  }

  lemma Regroup(pool: multiset<nat>, prod: multiset<nat>, cons: multiset<nat>,
                ports: multiset<nat>, queues: multiset<nat>, lost: multiset<nat>)
    ensures pool + (ports + cons) + queues + (lost + prod) == pool + prod + cons + ports + queues + lost
  {
  }

  lemma AddPortLayout(cfg: Config, s: System)
    requires Sane(cfg) && Layout(cfg, s) && s.pool.available == LiveSlots(s) >= 2
    ensures Layout(cfg, AddPort(cfg, s))
  {
    var s', live, k := AddPort(cfg, s), LiveSlots(s), |s.ports|;
    AddPortIs(cfg, s);
    forall h, h' | IsHolder(s', h) && IsHolder(s', h') && h != h'
      ensures SlabAt(s', h) != SlabAt(s', h')
    {
      var g := if h == ConsOf(k) then Slot(live - 1) else if h == ProdOf(k) then Slot(live - 2) else h;
      var g' := if h' == ConsOf(k) then Slot(live - 1) else if h' == ProdOf(k) then Slot(live - 2) else h';
      assert IsHolder(s, g) && IsHolder(s, g') && g != g';
      assert SlabAt(s', h) == SlabAt(s, g) && SlabAt(s', h') == SlabAt(s, g');
    }
    forall p | 0 <= p < |s'.ports|
      ensures CacheShaped(s'.pool, s'.ports[p].cache, cfg.per)
    {
      if p < k { assert CacheShaped(s.pool, s.ports[p].cache, cfg.per); }
    }
  }

  lemma NewPortOk(cfg: Config, s: System)
    requires Sane(cfg) && Shaped(s.pool, cfg.per) && s.pool.available >= 2
    ensures PortOk(cfg, NewPort(cfg, s))
  {
  }

  lemma PortsOkAppend(cfg: Config, ports: seq<Port>, p: Port)
    requires PortsOk(cfg, ports) && PortOk(cfg, p)
    ensures PortsOk(cfg, ports + [p])
  {
  }

  lemma AddPortInv(cfg: Config, s: System)
    requires Inv(cfg, s) && s.pool.available == LiveSlots(s) >= 2
    ensures Inv(cfg, AddPort(cfg, s))
  {
    AddPortLayout(cfg, s);
    AddPortPlaces(cfg, s);
    NewPortOk(cfg, s);
    PortsOkAppend(cfg, s.ports, NewPort(cfg, s));
    AddPortIs(cfg, s);
  }

  lemma {:induction false} SetUpInv(cfg: Config, k: nat, queues: nat)
    requires Sane(cfg) && 2 * k <= cfg.slabs
    ensures Inv(cfg, SetUp(cfg, k, queues))
  {
    if k == 0 {
      BootInv(cfg, queues);
    } else {
      SetUpInv(cfg, k - 1, queues);
      AddPortInv(cfg, SetUp(cfg, k - 1, queues));
    }
  }

  // ----- runs -----

  /** `steps` is a run from `s` to `t` of steps that their threads may take.
      Nothing in it checks the allocator's arrays: a step out of range may lead
      anywhere. That none ever is, is what RunSafe shows. */
  ghost predicate Run(cfg: Config, s: System, steps: seq<Step>, t: System)
    requires Sane(cfg)
    decreases |steps|, 0
  {
    if steps == [] then t == s
    else RunThen(cfg, s, steps[..|steps| - 1], steps[|steps| - 1], t)
  }

  ghost predicate RunThen(cfg: Config, s: System, front: seq<Step>, last: Step, t: System)
    requires Sane(cfg)
    decreases |front|, 1
  {
    exists b :: Run(cfg, s, front, b) && StepsTo(cfg, b, last, t)
  }

  ghost predicate StepsTo(cfg: Config, s: System, step: Step, t: System)
    requires Sane(cfg)
  {
    Enabled(cfg, s, step) && (InRange(cfg, s, step) ==> t == Next(cfg, s, step))
  }

  /** In every run after all ports are set up, every step is in range and the
      invariant holds: each frame is in one place, and no trade meets a stale slot. */
  lemma {:induction false} RunSafe(cfg: Config, k: nat, queues: nat, steps: seq<Step>, t: System)
    requires Sane(cfg) && 2 * k <= cfg.slabs && EnoughFill(cfg, k)
    requires Run(cfg, SetUp(cfg, k, queues), steps, t)
    ensures Inv(cfg, t) && |t.ports| == k
    ensures forall step :: Enabled(cfg, t, step) ==> InRange(cfg, t, step)
    ensures forall step :: Enabled(cfg, t, step) && Trades(cfg, t, step) ==> t.pool.available < cfg.slabs - 2 * k
    decreases |steps|
  {
    if steps == [] {
      SetUpInv(cfg, k, queues);
    } else {
      var front, last := steps[..|steps| - 1], steps[|steps| - 1];
      assert RunThen(cfg, SetUp(cfg, k, queues), front, last, t);
      var b :| Run(cfg, SetUp(cfg, k, queues), front, b) && StepsTo(cfg, b, last, t);
      RunSafe(cfg, k, queues, front, b);
      StepSafe(cfg, b, last);
    }
    forall step | Enabled(cfg, t, step)
      ensures InRange(cfg, t, step)
      ensures Trades(cfg, t, step) ==> t.pool.available < cfg.slabs - 2 * k
    {
      StepInRange(cfg, t, step);
    }
  }

  /** The shipped settings: a fill ring of one slab. */
  lemma ShippedFillIsEnough(cfg: Config, k: nat)
    requires cfg.fill == cfg.per
    ensures EnoughFill(cfg, k)
  {
    TimesIs(k, 0);
  }
}
