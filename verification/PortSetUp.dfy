/** The loop that sets the ports up one after another, and when it reads before
    the slab array. */
module PortSetUp {
  import opened Slabs
  import opened Mempool
  import opened Frames
  import opened FrameRuns

  /** How the loop ends: by a read out of range, by stopping at the first port
      that fails, or with all ports up. */
  datatype Outcome = ReadOutOfRange | Stopped | AllUp(pool: Pool)

  /** k calls of port_init in a row. */
  function PortInits(p: Pool, k: nat, fill: nat, per: nat): (r: Outcome)
    requires Shaped(p, per)
    ensures r.AllUp? ==> Shaped(r.pool, per)
  {
    if k == 0 then AllUp(p)
    else
      match PortInits(p, k - 1, fill, per)
      case AllUp(pool) => OneInit(pool, fill, per)
      case other => other
  }

  function OneInit(p: Pool, fill: nat, per: nat): (r: Outcome)
    requires Shaped(p, per)
    ensures r.AllUp? ==> Shaped(r.pool, per)
  {
    var (pool, made) := InitPort(p, fill, per);
    Ending(made, pool)
  }

  function Ending<T>(made: Made<T>, pool: Pool): Outcome {
    match made
    case OutOfRange => ReadOutOfRange
    case Failed => Stopped
    case Made(_) => AllUp(pool)
  }

  /** How k calls end when a slab fills a ring: every call takes two slabs. */
  function Ends(p: Pool, k: nat): Outcome {
    if 2 * k <= p.available then AllUp(p.(available := p.available - 2 * k))
    else if p.available % 2 == 1 then ReadOutOfRange
    else Stopped
  }

  lemma {:induction false} InitsEnd(p: Pool, k: nat, fill: nat, per: nat)
    requires Shaped(p, per) && fill <= per
    ensures PortInits(p, k, fill, per) == Ends(p, k)
  {
    if k > 0 {
      InitsEnd(p, k - 1, fill, per);
      EndsNext(p, k, fill, per);
    }
  }

  lemma EndsNext(p: Pool, k: nat, fill: nat, per: nat)
    requires Shaped(p, per) && fill <= per && k > 0
    ensures match Ends(p, k - 1) case AllUp(pool) => Shaped(pool, per) && OneInit(pool, fill, per) == Ends(p, k)
                                 case other => other == Ends(p, k)
  {
    if 2 * (k - 1) <= p.available {
      OneInitIs(p.(available := p.available - 2 * (k - 1)), fill, per);
    }
  }

  lemma OneInitIs(p: Pool, fill: nat, per: nat)
    requires Shaped(p, per) && fill <= per
    ensures OneInit(p, fill, per) ==
            if p.available >= 2 then AllUp(p.(available := p.available - 2))
            else if p.available == 1 then ReadOutOfRange
            else Stopped
  {
  }

  /** A fill ring larger than a slab: the first port fails, unless its cache
      already reads out of range. */
  lemma {:induction false} InitsTooLarge(p: Pool, k: nat, fill: nat, per: nat)
    requires Shaped(p, per) && fill > per && k > 0
    ensures PortInits(p, k, fill, per) == if p.available == 1 then ReadOutOfRange else Stopped
  {
    if k > 1 {
      InitsTooLarge(p, k - 1, fill, per);
    } else {
      assert PortInits(p, 0, fill, per) == AllUp(p);
    }
  }

  /** Setting up k ports reads only inside the slab array if and only if the
      number of slabs is even or they are enough for all; a fill ring that no
      slab can fill ends the set-up at the first port. */
  lemma ReadsInRangeIff(slabs: nat, per: nat, bufferSize: nat, k: nat, fill: nat)
    ensures PortInits(FreshPool(slabs, per, bufferSize), k, fill, per) != ReadOutOfRange
            <==> if fill <= per then slabs % 2 == 0 || 2 * k <= slabs else slabs != 1 || k == 0
  {
    var p := FreshPool(slabs, per, bufferSize);
    if fill <= per {
      InitsEnd(p, k, fill, per);
    } else if k > 0 {
      InitsTooLarge(p, k, fill, per);
    }
  }

  /** An input that fails: three slabs for two ports. */
  lemma ThreeSlabsTwoPorts(per: nat, bufferSize: nat, fill: nat)
    requires fill <= per
    ensures PortInits(FreshPool(3, per, bufferSize), 2, fill, per) == ReadOutOfRange
  {
    InitsEnd(FreshPool(3, per, bufferSize), 2, fill, per);
  }

  /** All ports come up if and only if there are two slabs for each, and then the
      pool is that of the emulator's first state. */
  lemma {:induction false} AllUpIsSetUp(cfg: Config, k: nat, queues: nat)
    requires Sane(cfg)
    ensures var r := PortInits(FreshPool(cfg.slabs, cfg.per, cfg.bufferSize), k, cfg.fill, cfg.per);
            && (r.AllUp? <==> 2 * k <= cfg.slabs)
            && (r.AllUp? ==> r.pool == SetUp(cfg, k, queues).pool)
  {
    InitsEnd(FreshPool(cfg.slabs, cfg.per, cfg.bufferSize), k, cfg.fill, cfg.per);
    if 2 * k <= cfg.slabs {
      PoolAfter(cfg, k, queues);
    }
  }

  lemma {:induction false} PoolAfter(cfg: Config, k: nat, queues: nat)
    requires Sane(cfg) && 2 * k <= cfg.slabs
    ensures SetUp(cfg, k, queues).pool == FreshPool(cfg.slabs, cfg.per, cfg.bufferSize).(available := cfg.slabs - 2 * k)
  {
    if k > 0 {
      PoolAfter(cfg, k - 1, queues);
    }
  }

  /** The loop over the ports; it ends at the first one that does not come up. */
  method InitPorts(bp: BPool, k: nat, fillSize: nat) returns (up: nat, last: Made<()>)
    requires bp.Valid()
    modifies bp`nSlabsAvailable, bp.slabs
    ensures bp.Valid() && up <= k && (last.Made? <==> up == k)
    ensures PortInits(old(bp.View()), k, fillSize, bp.nBuffersPerSlab) == Ending(last, bp.View())
  {
    ghost var p, per := bp.View(), bp.nBuffersPerSlab;
    ViewShaped(bp);
    up, last := 0, Made(());
    while up < k
      invariant bp.Valid() && up <= k && last.Made?
      invariant Reached(p, up, fillSize, per, AllUp(bp.View()))
    {
      last := InitNext(bp, fillSize, p, up);
      if !last.Made? {
        StaysStopped(p, up + 1, k, fillSize, per);
        return;
      }
      up := up + 1;
    }
  }

  ghost predicate Reached(p: Pool, i: nat, fill: nat, per: nat, r: Outcome) {
    Shaped(p, per) && PortInits(p, i, fill, per) == r
  }

  lemma ViewShaped(bp: BPool)
    requires bp.Valid()
    ensures Shaped(bp.View(), bp.nBuffersPerSlab)
  {
  }

  /** One call of port_init, after the first `i` ports of the pool `p`. */
  method InitNext(bp: BPool, fillSize: nat, ghost p: Pool, ghost i: nat) returns (made: Made<()>)
    requires bp.Valid() && Reached(p, i, fillSize, bp.nBuffersPerSlab, AllUp(bp.View()))
    modifies bp`nSlabsAvailable, bp.slabs
    ensures bp.Valid() && Reached(p, i + 1, fillSize, bp.nBuffersPerSlab, Ending(made, bp.View()))
  {
    OneMore(p, i, bp.View(), fillSize, bp.nBuffersPerSlab);
    var port := new Mempool.Port(bp);
    made := port.Init(fillSize);
  }

  lemma OneMore(p: Pool, i: nat, q: Pool, fill: nat, per: nat)
    requires Shaped(p, per) && PortInits(p, i, fill, per) == AllUp(q)
    ensures PortInits(p, i + 1, fill, per) == OneInit(q, fill, per)
  {
  }

  lemma {:induction false} StaysStopped(p: Pool, i: nat, k: nat, fill: nat, per: nat)
    requires Shaped(p, per) && i <= k && !PortInits(p, i, fill, per).AllUp?
    ensures PortInits(p, k, fill, per) == PortInits(p, i, fill, per)
  {
    if i < k {
      StaysStopped(p, i, k - 1, fill, per);
    }
  }
}
