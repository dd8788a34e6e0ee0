/** The emulator's frames as a state machine over all its threads: ports with
    their caches, rings and bursts, the queues between the threads, and the
    kernel, which moves frames, in any order, from a fill ring to a receive ring
    and from a transmit ring to a completion ring. One call of the allocator, one queue
    operation or one ring entry is one step. */
module Frames {
  import opened Slabs
  import opened FrameCounts

  datatype Config = Config(slabs: nat, per: nat, bufferSize: nat, fill: nat)

  ghost predicate Sane(cfg: Config) {
    cfg.per >= MAX_BURST && cfg.bufferSize > 0 && cfg.fill <= cfg.per
  }

  /** MAX_BURST_RX, MAX_BURST_TX and MAX_BURST_TX_OBJS */
  const MAX_BURST: nat := 20
  const QUEUE_SIZE: nat := 4096

  /** Where the receive thread of a port is in port_rx_burst: not in it, reading
      descriptors with `budget` more allowed and `owed` read so far, or putting
      `owed` fresh frames on the fill ring. */
  datatype Phase = Ready | Taking(budget: nat, owed: nat) | Refilling(owed: nat)

  function Owed(ph: Phase): nat {
    match ph
    case Ready => 0
    case Taking(_, owed) => owed
    case Refilling(owed) => owed
  }

  function Claimed(ph: Phase): nat {
    match ph
    case Ready => 0
    case Taking(budget, owed) => budget + owed
    case Refilling(owed) => owed
  }

  /** A port: its cache, its four rings, the burst its receive thread works on
      and the collector its transmit thread fills. */
  datatype Port = Port(
    cache: Cache, phase: Phase,
    fill: seq<Addr>, rx: seq<Addr>, tx: seq<Addr>, comp: seq<Addr>,
    burst: seq<Addr>, collector: seq<Addr>)

  /** `lost` are the frames of the slabs that cache creation declared empty. */
  datatype System = System(pool: Pool, ports: seq<Port>, queues: seq<seq<Addr>>, lost: seq<Addr>)

  datatype Step =
    | KernelReceive(port: nat, index: nat, at: Addr)
    | KernelSend(port: nat, index: nat, at: Addr)
    | Check(port: nat)
    | Take(port: nat)
    | EndTake(port: nat)
    | Refill(port: nat)
    | Forward(port: nat, queue: nat)
    | Drop(port: nat)
    | Drain(port: nat, queue: nat)
    | Transmit(port: nat)
    | Complete(port: nat)

  ghost predicate Enabled(cfg: Config, s: System, step: Step)
    requires Sane(cfg)
  {
    && step.port < |s.ports|
    && var p := s.ports[step.port];
    match step
    case KernelReceive(_, index, at) => index < |p.fill| && FrameOf(at, cfg.bufferSize) == FrameOf(p.fill[index], cfg.bufferSize)
    case KernelSend(_, index, at) => index < |p.tx| && FrameOf(at, cfg.bufferSize) == FrameOf(p.tx[index], cfg.bufferSize)
    case Check(_) => p.phase.Ready? && p.burst == []
    case Take(_) => p.phase.Taking? && p.phase.budget > 0 && p.rx != []
    case EndTake(_) => p.phase.Taking?
    case Refill(_) => p.phase.Refilling?
    case Forward(_, queue) => p.phase.Ready? && p.burst != [] && queue < |s.queues| && |s.queues[queue]| < QUEUE_SIZE
    case Drop(_) => p.phase.Ready? && p.burst != []
    case Drain(_, queue) => queue < |s.queues| && s.queues[queue] != [] && |p.collector| < MAX_BURST
    case Transmit(_) => p.collector != []
    case Complete(_) => p.comp != []
  }

  /** The step gives an address back to the cache of its port. */
  predicate Gives(step: Step) {
    step.Drop? || step.Complete?
  }

  /** The step trades a full producer slab for an empty one of the pool. */
  ghost predicate Trades(cfg: Config, s: System, step: Step) {
    Gives(step) && step.port < |s.ports| && s.ports[step.port].cache.nProd >= cfg.per
  }

  /** What a step needs of the allocator's arrays to be in range. */
  ghost predicate InRange(cfg: Config, s: System, step: Step) {
    && Sane(cfg) && Shaped(s.pool, cfg.per)
    && step.port < |s.ports|
    && var c := s.ports[step.port].cache;
    && CacheShaped(s.pool, c, cfg.per)
    && (Gives(step) ==> ProdInRange(s.pool, c, cfg.per))
    && (step.Refill? ==> c.nCons > 0)
  }

  ghost function Next(cfg: Config, s: System, step: Step): System
    requires Sane(cfg) && Enabled(cfg, s, step) && InRange(cfg, s, step)
  {
    var i, p := step.port, s.ports[step.port];
    match step
    case KernelReceive(_, index, at) => s.(ports := s.ports[i := p.(fill := Without(p.fill, index), rx := p.rx + [at])])
    case KernelSend(_, index, at) => s.(ports := s.ports[i := p.(tx := Without(p.tx, index), comp := p.comp + [at])])
    case Check(_) =>
      var (pool, cache, n) := ConsCheck(s.pool, p.cache, MAX_BURST, cfg.per);
      s.(pool := pool, ports := s.ports[i := p.(cache := cache, phase := if n == 0 then Ready else Taking(n, 0))])
    case Take(_) =>
      s.(ports := s.ports[i := p.(rx := p.rx[1..], burst := p.burst + [p.rx[0]],
                                  phase := Taking(p.phase.budget - 1, p.phase.owed + 1))])
    case EndTake(_) =>
      s.(ports := s.ports[i := p.(phase := if p.phase.owed == 0 then Ready else Refilling(p.phase.owed))])
    case Refill(_) =>
      var (cache, a) := Cons(s.pool, p.cache, cfg.per);
      s.(ports := s.ports[i := p.(cache := cache, fill := p.fill + [a],
                                  phase := if p.phase.owed <= 1 then Ready else Refilling(p.phase.owed - 1))])
    case Forward(_, queue) =>
      s.(ports := s.ports[i := p.(burst := p.burst[1..])],
         queues := s.queues[queue := s.queues[queue] + [p.burst[0]]])
    case Drop(_) =>
      var (pool, cache) := Prod(s.pool, p.cache, p.burst[0], cfg.per);
      s.(pool := pool, ports := s.ports[i := p.(cache := cache, burst := p.burst[1..])])
    case Drain(_, queue) =>
      s.(ports := s.ports[i := p.(collector := p.collector + [s.queues[queue][0]])],
         queues := s.queues[queue := s.queues[queue][1..]])
    case Transmit(_) =>
      s.(ports := s.ports[i := p.(collector := p.collector[1..], tx := p.tx + [p.collector[0]])])
    case Complete(_) =>
      var (pool, cache) := Prod(s.pool, p.cache, p.comp[0], cfg.per);
      s.(pool := pool, ports := s.ports[i := p.(cache := cache, comp := p.comp[1..])])
  }

  // ----- where the frames are -----

  function Prefix(buffers: seq<seq<Addr>>, s: nat, n: nat): seq<Addr> {
    if s < |buffers| && n <= |buffers[s]| then buffers[s][..n] else []
  }

  function Row(buffers: seq<seq<Addr>>, s: nat): seq<Addr> {
    if s < |buffers| then buffers[s] else []
  }

  function CacheFrames(c: Cache, buffers: seq<seq<Addr>>, bs: nat): multiset<nat>
    requires bs > 0
  {
    Ids(Prefix(buffers, c.cons, c.nCons), bs) + Ids(Prefix(buffers, c.prod, c.nProd), bs)
  }

  function RingFrames(p: Port, bs: nat): multiset<nat>
    requires bs > 0
  {
    Ids(p.fill, bs) + Ids(p.rx, bs) + Ids(p.tx, bs) + Ids(p.comp, bs) + Ids(p.burst, bs) + Ids(p.collector, bs)
  }

  function PortFrames(p: Port, buffers: seq<seq<Addr>>, bs: nat): multiset<nat>
    requires bs > 0
  {
    CacheFrames(p.cache, buffers, bs) + RingFrames(p, bs)
  }

  function PoolParts(pool: Pool, bs: nat): seq<multiset<nat>>
    requires bs > 0 && pool.available <= |pool.slabs|
  {
    seq(pool.available, i requires 0 <= i < pool.available => Ids(Row(pool.buffers, pool.slabs[i]), bs))
  }

  function PortParts(ports: seq<Port>, buffers: seq<seq<Addr>>, bs: nat): seq<multiset<nat>>
    requires bs > 0
  {
    seq(|ports|, i requires 0 <= i < |ports| => PortFrames(ports[i], buffers, bs))
  }

  function QueueParts(queues: seq<seq<Addr>>, bs: nat): seq<multiset<nat>>
    requires bs > 0
  {
    seq(|queues|, i requires 0 <= i < |queues| => Ids(queues[i], bs))
  }

  /** Every place a frame can be, with multiplicity. */
  function Places(s: System, bs: nat): multiset<nat>
    requires bs > 0 && s.pool.available <= |s.pool.slabs|
  {
    Sum(PoolParts(s.pool, bs)) + Sum(PortParts(s.ports, s.pool.buffers, bs)) + Sum(QueueParts(s.queues, bs)) + Ids(s.lost, bs)
  }

  // ----- the invariant -----

  /** The slots of the pool that are not the stale ones left by cache creation. */
  function LiveSlots(s: System): int {
    |s.pool.slabs| - 2 * |s.ports|
  }

  /** What may hold a slab: a live slot of the pool, or either side of a cache. */
  datatype Holder = Slot(i: nat) | ConsOf(p: nat) | ProdOf(p: nat)

  predicate IsHolder(s: System, h: Holder) {
    match h
    case Slot(i) => i < LiveSlots(s)
    case ConsOf(p) => p < |s.ports|
    case ProdOf(p) => p < |s.ports|
  }

  function SlabAt(s: System, h: Holder): nat
    requires IsHolder(s, h)
  {
    match h
    case Slot(i) => s.pool.slabs[i]
    case ConsOf(p) => s.ports[p].cache.cons
    case ProdOf(p) => s.ports[p].cache.prod
  }

  /** No slab has two holders. */
  ghost predicate SlabsDistinct(s: System) {
    forall h, k :: IsHolder(s, h) && IsHolder(s, k) && h != k ==> SlabAt(s, h) != SlabAt(s, k)
  }

  ghost predicate Layout(cfg: Config, s: System) {
    && Shaped(s.pool, cfg.per) && |s.pool.slabs| == cfg.slabs
    && 2 * |s.ports| <= cfg.slabs && s.pool.available <= LiveSlots(s)
    && (forall p :: 0 <= p < |s.ports| ==> CacheShaped(s.pool, s.ports[p].cache, cfg.per))
    && SlabsDistinct(s)
  }

  /** The fill side of a port, with the frames its receive thread still owes it,
      is always `fill` frames, and the consumer slab can pay what is owed. */
  ghost predicate PortOk(cfg: Config, p: Port) {
    && |p.fill| + |p.rx| + Owed(p.phase) == cfg.fill
    && Claimed(p.phase) <= p.cache.nCons
    && |p.burst| + (if p.phase.Taking? then p.phase.budget else 0) <= MAX_BURST
    && |p.collector| <= MAX_BURST
    && (p.phase.Refilling? ==> p.phase.owed > 0)
  }

  ghost predicate PortsOk(cfg: Config, ports: seq<Port>) {
    forall p :: 0 <= p < |ports| ==> PortOk(cfg, ports[p])
  }

  ghost predicate QueuesOk(queues: seq<seq<Addr>>) {
    forall q :: 0 <= q < |queues| ==> |queues[q]| <= QUEUE_SIZE
  }

  ghost predicate Inv(cfg: Config, s: System) {
    && Sane(cfg)
    && Layout(cfg, s)
    && PortsOk(cfg, s.ports)
    && QueuesOk(s.queues)
    && |s.lost| == Times(|s.ports|, cfg.per)
    && Places(s, cfg.bufferSize) == AllFrames(Times(cfg.slabs, cfg.per))
  }
}
