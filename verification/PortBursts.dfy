/** A port's receive and transmit bursts: descriptors move between its rings
    and the burst arrays, and frames between its rings and its cache. Waking
    the kernel, and waiting until a ring has room, are not part of this model. */
module PortBursts {
  import opened Slabs
  import opened Mempool
  import opened Frames
  import opened FrameGives
  import opened FrameSetUp
  import opened FrameLimit

  datatype Desc = Desc(addr: Addr, len: nat)

  /** The addresses are all given back, in order. */
  function ProdMany(p: Pool, c: Cache, addrs: seq<Addr>, per: nat): (Pool, Cache)
    requires per > 0 && Shaped(p, per) && CacheShaped(p, c, per) && ManyInRange(p, c, addrs, per)
    decreases |addrs|
  {
    if addrs == [] then (p, c)
    else
      var (p1, c1) := Prod(p, c, addrs[0], per);
      ProdMany(p1, c1, addrs[1..], per)
  }

  /** Every trade on the way finds a slot in the pool. */
  predicate ManyInRange(p: Pool, c: Cache, addrs: seq<Addr>, per: nat)
    requires per > 0 && Shaped(p, per) && CacheShaped(p, c, per)
    decreases |addrs|
  {
    addrs == [] ||
    (ProdInRange(p, c, per) &&
     var (p1, c1) := Prod(p, c, addrs[0], per);
     Shaped(p1, per) && CacheShaped(p1, c1, per) && ManyInRange(p1, c1, addrs[1..], per))
  }

  function Least(a: nat, b: nat): nat {
    if a < b then a else b
  }

  class PortIo {
    const bc: BCache
    var rxq: seq<Desc>
    var umemFq: seq<Addr>
    var txq: seq<Desc>
    var umemCq: seq<Addr>
    var nPktsRx: nat
    var nPktsTx: nat

    constructor (bc: BCache)
      ensures this.bc == bc && rxq == [] && umemFq == [] && txq == [] && umemCq == []
    {
      this.bc := bc;
      rxq, umemFq, txq, umemCq := [], [], [], [];
      nPktsRx, nPktsTx := 0, 0;
    }

    /** port_rx_burst: as many frames leave the receive ring as fresh ones, taken
        from the cache, go onto the fill ring; `granted` is what the cache grants. */
    method RxBurst(addr: array<Addr>, len: array<nat>) returns (n: nat, ghost granted: nat)
      requires bc.Valid() && bc.bp.nBuffersPerSlab >= MAX_BURST
      requires addr.Length == len.Length == MAX_BURST && addr != len
      requires addr != bc.bp.slabs && len != bc.bp.slabs
      modifies this, bc, bc.bp`nSlabsAvailable, bc.bp.slabs, addr, len
      ensures bc.Valid()
      ensures n <= granted && n <= |old(rxq)| && (n == granted || n == |old(rxq)|)
      ensures Refilled(ConsCheck(old(bc.bp.View()), old(bc.View()), MAX_BURST, bc.bp.nBuffersPerSlab), granted, n, old(umemFq))
      ensures rxq == old(rxq)[n..] && txq == old(txq) && umemCq == old(umemCq)
      ensures forall i :: 0 <= i < n ==> Desc(addr[i], len[i]) == old(rxq)[i]
      ensures nPktsRx == old(nPktsRx) + n
    {
      var k := Grant();
      granted := k;
      n := Least(k, |rxq|);
      MoveBurst(addr, len, n);
    }

    method Grant() returns (k: nat)
      requires bc.Valid() && bc.bp.nBuffersPerSlab >= MAX_BURST
      modifies bc, bc.bp`nSlabsAvailable, bc.bp.slabs
      ensures bc.Valid() && k <= bc.nBuffersCons
      ensures (bc.bp.View(), bc.View(), k) == ConsCheck(old(bc.bp.View()), old(bc.View()), MAX_BURST, bc.bp.nBuffersPerSlab)
    {
      k := bc.Check(MAX_BURST);
    }

    /** Once the ring has said how many of its descriptors may be read. With none
        the program returns before these loops. */
    method MoveBurst(addr: array<Addr>, len: array<nat>, n: nat)
      requires bc.Valid() && n <= bc.nBuffersCons && n <= |rxq|
      requires n <= addr.Length && n <= len.Length && addr != len
      requires addr != bc.bp.slabs && len != bc.bp.slabs
      modifies this`rxq, this`nPktsRx, this`umemFq, bc`nBuffersCons, addr, len
      ensures bc.Valid() && bc.bp.View() == old(bc.bp.View())
      ensures rxq == old(rxq)[n..] && nPktsRx == old(nPktsRx) + n
      ensures forall i :: 0 <= i < n ==> Desc(addr[i], len[i]) == old(rxq)[i]
      ensures var (taken, fill) := TakeMany(bc.bp.View(), old(bc.View()), n, bc.bp.nBuffersPerSlab);
              bc.View() == taken && umemFq == old(umemFq) + fill
    {
      ghost var p, c := bc.bp.View(), bc.View();
      ReadDescs(addr, len, n);
      assert bc.bp.View() == p && bc.View() == c;
      nPktsRx := nPktsRx + n;
      Refill(n);
    }

    /** After a check with this result, n addresses went from the cache to the fill ring. */
    ghost predicate Refilled(checked: (Pool, Cache, nat), granted: nat, n: nat, before: seq<Addr>)
      reads this, bc, bc.bp, bc.bp.slabs, bc.bp.buffers
    {
      var (p, c, k), per := checked, bc.bp.nBuffersPerSlab;
      && granted == k && bc.bp.View() == p && Shaped(p, per) && CacheShaped(p, c, per) && n <= c.nCons
      && (bc.View(), umemFq) == (TakeMany(p, c, n, per).0, before + TakeMany(p, c, n, per).1)
    }

    /** The loop that reads n descriptors, and their release. */
    method ReadDescs(addr: array<Addr>, len: array<nat>, n: nat)
      requires n <= |rxq| && n <= addr.Length && n <= len.Length && addr != len
      modifies this`rxq, addr, len
      ensures rxq == old(rxq)[n..]
      ensures forall i :: 0 <= i < n ==> Desc(addr[i], len[i]) == old(rxq)[i]
    {
      var i := 0;
      while i < n
        invariant 0 <= i <= n && rxq == old(rxq)
        invariant forall j :: 0 <= j < i ==> Desc(addr[j], len[j]) == rxq[j]
      {
        addr[i], len[i] := rxq[i].addr, rxq[i].len;
        i := i + 1;
      }
      rxq := rxq[n..];
    }

    /** The loop that puts fresh frames on the fill ring. */
    method Refill(n: nat)
      requires bc.Valid() && n <= bc.nBuffersCons
      modifies this`umemFq, bc`nBuffersCons
      ensures bc.Valid() && bc.bp.View() == old(bc.bp.View())
      ensures var (taken, fill) := TakeMany(bc.bp.View(), old(bc.View()), n, bc.bp.nBuffersPerSlab);
              bc.View() == taken && umemFq == old(umemFq) + fill
    {
      ghost var start, p, was := bc.View(), bc.bp.View(), umemFq;
      ghost var fill := TakeMany(p, start, n, bc.bp.nBuffersPerSlab).1;
      var i := 0;
      while i < n
        invariant 0 <= i <= n && bc.Valid() && bc.bp.View() == p
        invariant bc.View() == start.(nCons := start.nCons - i)
        invariant umemFq == was + fill[..i]
      {
        var a := bc.Take();
        assert fill[..i + 1] == fill[..i] + [a];
        umemFq := umemFq + [a];
        i := i + 1;
      }
      assert fill[..n] == fill;
    }

    /** port_tx_burst_collector: completed frames go back to the cache, and the
        collected ones onto the transmit ring. */
    method TxBurst(compSize: nat, addr: array<Addr>, len: array<nat>, nPkts: nat) returns (ghost n: nat)
      requires bc.Valid() && nPkts <= addr.Length && nPkts <= len.Length
      requires ManyInRange(bc.bp.View(), bc.View(), umemCq[..Least(compSize, |umemCq|)], bc.bp.nBuffersPerSlab)
      requires {addr, len} !! {bc.bp.slabs}
      modifies this, bc, bc.bp`nSlabsAvailable, bc.bp.slabs, bc.bp.buffers
      ensures bc.Valid()
      ensures n <= compSize && n <= |old(umemCq)| && (n == compSize || n == |old(umemCq)|)
      ensures (bc.bp.View(), bc.View()) == ProdMany(old(bc.bp.View()), old(bc.View()), old(umemCq)[..n], bc.bp.nBuffersPerSlab)
      ensures umemCq == old(umemCq)[n..]
      ensures |txq| == |old(txq)| + nPkts && txq[..|old(txq)|] == old(txq)
      ensures forall i :: 0 <= i < nPkts ==> txq[|old(txq)| + i] == Desc(addr[i], len[i])
      ensures rxq == old(rxq) && umemFq == old(umemFq) && nPktsTx == old(nPktsTx) + nPkts
    {
      n := Least(compSize, |umemCq|);
      Recycle(Least(compSize, |umemCq|));
      ghost var was := txq;
      var i := 0;
      while i < nPkts
        invariant 0 <= i <= nPkts
        invariant |txq| == |was| + i && txq[..|was|] == was
        invariant forall j :: 0 <= j < i ==> txq[|was| + j] == Desc(addr[j], len[j])
        modifies this`txq
      {
        txq := txq + [Desc(addr[i], len[i])];
        i := i + 1;
      }
      nPktsTx := nPktsTx + nPkts;
    }

    /** The loop over the completion ring. */
    method Recycle(n: nat)
      requires bc.Valid() && n <= |umemCq|
      requires ManyInRange(bc.bp.View(), bc.View(), umemCq[..n], bc.bp.nBuffersPerSlab)
      modifies this`umemCq, bc, bc.bp`nSlabsAvailable, bc.bp.slabs, bc.bp.buffers
      ensures bc.Valid() && umemCq == old(umemCq)[n..]
      ensures (bc.bp.View(), bc.View())
           == ProdMany(old(bc.bp.View()), old(bc.View()), old(umemCq)[..n], bc.bp.nBuffersPerSlab)
    {
      ghost var all := umemCq[..n];
      ghost var result := ProdMany(bc.bp.View(), bc.View(), all, bc.bp.nBuffersPerSlab);
      var i := 0;
      while i < n
        invariant 0 <= i <= n && bc.Valid() && umemCq == old(umemCq)
        invariant ManyInRange(bc.bp.View(), bc.View(), all[i..], bc.bp.nBuffersPerSlab)
        invariant ProdMany(bc.bp.View(), bc.View(), all[i..], bc.bp.nBuffersPerSlab) == result
      {
        assert all[i..][1..] == all[i + 1..];
        bc.Give(umemCq[i]);
        i := i + 1;
      }
      umemCq := umemCq[n..];
    }
  }

  // ----- a check grants what there is -----

  /** In every state that a run after set-up reaches, a port whose receive thread
      is ready gets a budget for its next burst exactly when its cache or the pool
      has a frame: 20, or what is left of its consumer slab. */
  lemma BudgetIff(st: Setting, s: System, i: nat)
    requires SafeState(st, s) && i < st.k && i < |s.ports| && Enabled(st.cfg, s, Check(i))
    ensures InRange(st.cfg, s, Check(i))
    ensures var p := Next(st.cfg, s, Check(i)).ports[i];
            && (p.phase.Taking? <==> s.ports[i].cache.nCons > 0 || s.pool.available > 0)
            && (p.phase.Taking? ==>
                  var b := p.phase.budget;
                  0 < b <= MAX_BURST && b <= p.cache.nCons && (b == MAX_BURST || b == p.cache.nCons) && p.phase.owed == 0)
  {
    ShapesHold(st, s, i);
    CheckGrants(s.pool, s.ports[i].cache, MAX_BURST, st.cfg.per);
  }

  // ----- the loop over the completion ring never meets a stale slot -----

  ghost predicate Shapes(cfg: Config, s: System, i: nat) {
    && Sane(cfg) && i < |s.ports|
    && Shaped(s.pool, cfg.per) && CacheShaped(s.pool, s.ports[i].cache, cfg.per)
  }

  /** A setting in which every trade has room, and a state that a run after
      set-up reaches. */
  ghost predicate SafeState(st: Setting, s: System) {
    Usable(st) && EnoughFill(st.cfg, st.k) && Reaches(st, s)
  }

  lemma ShapesHold(st: Setting, s: System, i: nat)
    requires SafeState(st, s) && i < st.k
    ensures |s.ports| == st.k && Shapes(st.cfg, s, i)
  {
    var steps :| Run(st.cfg, Start(st), steps, s);
    RunSafe(st.cfg, st.k, st.queues, steps, s);
  }

  /** One frame given back, as a step of the emulator. */
  lemma OneCompletion(st: Setting, s: System, i: nat) returns (t: System)
    requires SafeState(st, s) && i < |s.ports| == st.k && s.ports[i].comp != []
    ensures Shapes(st.cfg, s, i) && ProdInRange(s.pool, s.ports[i].cache, st.cfg.per)
    ensures SafeState(st, t) && |t.ports| == st.k && t.ports[i].comp == s.ports[i].comp[1..]
    ensures Shapes(st.cfg, t, i)
    ensures (t.pool, t.ports[i].cache) == Prod(s.pool, s.ports[i].cache, s.ports[i].comp[0], st.cfg.per)
  {
    ShapesHold(st, s, i);
    var steps :| Run(st.cfg, Start(st), steps, s);
    RunSafe(st.cfg, st.k, st.queues, steps, s);
    var step := Complete(i);
    assert Enabled(st.cfg, s, step) && InRange(st.cfg, s, step);
    t := Next(st.cfg, s, step);
    OneStepOn(st, s, step, t);
    ShapesHold(st, t, i);
  }

  lemma OneStepOn(st: Setting, s: System, step: Step, t: System)
    requires Usable(st) && Reaches(st, s) && StepsTo(st.cfg, s, step, t)
    ensures Reaches(st, t)
  {
    var steps :| Run(st.cfg, Start(st), steps, s);
    assert (steps + [step])[..|steps|] == steps;
    assert RunThen(st.cfg, Start(st), steps, step, t);
    assert Run(st.cfg, Start(st), steps + [step], t);
  }

  /** In every state that a run after set-up reaches, giving back any number of
      completed frames finds a slot for every trade, as the emulator's steps do
      it one by one. */
  lemma {:induction false} CompletionsInRange(st: Setting, s: System, i: nat, n: nat) returns (t: System)
    requires SafeState(st, s) && i < |s.ports| == st.k && n <= |s.ports[i].comp|
    ensures Shapes(st.cfg, s, i) && ManyInRange(s.pool, s.ports[i].cache, s.ports[i].comp[..n], st.cfg.per)
    ensures SafeState(st, t) && |t.ports| == st.k && t.ports[i].comp == s.ports[i].comp[n..]
    ensures (t.pool, t.ports[i].cache) == ProdMany(s.pool, s.ports[i].cache, s.ports[i].comp[..n], st.cfg.per)
    decreases n
  {
    ShapesHold(st, s, i);
    if n == 0 {
      t := s;
    } else {
      var all := s.ports[i].comp;
      var u := OneCompletion(st, s, i);
      t := CompletionsInRange(st, u, i, n - 1);
      assert all[1..][..n - 1] == all[1..n] && all[1..][n - 1..] == all[n..];
      OneMoreGiven(s.pool, s.ports[i].cache, all, n, u.pool, u.ports[i].cache, st.cfg.per);
    }
  }

  /** Giving back one address and then the next n - 1 is giving back n. */
  lemma OneMoreGiven(p: Pool, c: Cache, addrs: seq<Addr>, n: nat, p1: Pool, c1: Cache, per: nat)
    requires per > 0 && Shaped(p, per) && CacheShaped(p, c, per) && 0 < n <= |addrs|
    requires ProdInRange(p, c, per) && (p1, c1) == Prod(p, c, addrs[0], per)
    requires Shaped(p1, per) && CacheShaped(p1, c1, per) && ManyInRange(p1, c1, addrs[1..n], per)
    ensures ManyInRange(p, c, addrs[..n], per)
    ensures ProdMany(p, c, addrs[..n], per) == ProdMany(p1, c1, addrs[1..n], per)
  {
    assert addrs[..n][1..] == addrs[1..n];
  }
}
