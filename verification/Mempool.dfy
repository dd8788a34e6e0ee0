/** The slab allocator as the program text has it: a pool shared by reference
    and caches that trade slabs with it in place. A pointer to a slab is the
    number of its row in the address array. */
module Mempool {
  import opened Slabs

  class BPool {
    const nBuffersPerSlab: nat
    const nSlabs: nat
    const slabs: array<nat>
    const buffers: array2<Addr>
    var nSlabsAvailable: nat

    ghost predicate Valid()
      reads this, slabs, buffers
    {
      && nBuffersPerSlab > 0
      && slabs.Length == nSlabs == buffers.Length0 && buffers.Length1 == nBuffersPerSlab
      && nSlabsAvailable <= nSlabs
      && forall i :: 0 <= i < nSlabs ==> slabs[i] < nSlabs
    }

    ghost function Row(s: nat): (r: seq<Addr>)
      reads buffers
      requires s < buffers.Length0
      ensures |r| == buffers.Length1
    {
      seq(buffers.Length1, j requires 0 <= j < buffers.Length1 reads buffers => buffers[s, j])
    }

    ghost function View(): (p: Pool)
      reads this, slabs, buffers
    {
      Pool(slabs[..], nSlabsAvailable,
           seq(buffers.Length0, s requires 0 <= s < buffers.Length0 reads buffers => Row(s)))
    }

    /** bpool_init, with the number of buffers rounded up to whole slabs. */
    constructor (nBuffers: nat, nBuffersPerSlab: nat, bufferSize: nat)
      requires nBuffersPerSlab > 0
      ensures Valid() && fresh(slabs) && fresh(buffers)
      ensures this.nBuffersPerSlab == nBuffersPerSlab
      ensures nSlabs * nBuffersPerSlab >= nBuffers && (nSlabs - 1) * nBuffersPerSlab < nBuffers
      ensures View() == FreshPool(nSlabs, nBuffersPerSlab, bufferSize)
    {
      var n := (nBuffers + nBuffersPerSlab - 1) / nBuffersPerSlab;
      this.nBuffersPerSlab := nBuffersPerSlab;
      nSlabs := n;
      slabs := new nat[n](_ => 0);
      buffers := new Addr[n, nBuffersPerSlab]((_, _) => 0);
      nSlabsAvailable := n;
      new;
      RoundUp(nBuffers, nBuffersPerSlab);
      InitSlabs();
      InitBuffers(bufferSize);
      ghost var p := FreshPool(nSlabs, nBuffersPerSlab, bufferSize);
      forall s | 0 <= s < nSlabs
        ensures Row(s) == p.buffers[s]
      {
      }
      assert View().slabs == p.slabs;
      assert View().buffers == p.buffers;
    }

    method InitSlabs()
      requires slabs.Length == nSlabs
      modifies slabs
      ensures forall j :: 0 <= j < nSlabs ==> slabs[j] == j
    {
      var i := 0;
      while i < nSlabs
        invariant 0 <= i <= nSlabs
        invariant forall j :: 0 <= j < i ==> slabs[j] == j
      {
        slabs[i] := i;
        i := i + 1;
      }
    }

    method InitBuffers(bufferSize: nat)
      requires buffers.Length0 == nSlabs && buffers.Length1 == nBuffersPerSlab
      modifies buffers
      ensures forall s, j :: 0 <= s < nSlabs && 0 <= j < nBuffersPerSlab ==>
        buffers[s, j] == FrameAddress(s, j, nBuffersPerSlab, bufferSize)
    {
      var i := 0;
      while i < nSlabs
        invariant 0 <= i <= nSlabs
        invariant forall s, j :: 0 <= s < i && 0 <= j < nBuffersPerSlab ==>
          buffers[s, j] == FrameAddress(s, j, nBuffersPerSlab, bufferSize)
      {
        var j := 0;
        while j < nBuffersPerSlab
          invariant 0 <= j <= nBuffersPerSlab
          invariant forall s, x :: 0 <= s < i && 0 <= x < nBuffersPerSlab ==>
            buffers[s, x] == FrameAddress(s, x, nBuffersPerSlab, bufferSize)
          invariant forall x :: 0 <= x < j ==> buffers[i, x] == FrameAddress(i, x, nBuffersPerSlab, bufferSize)
        {
          buffers[i, j] := FrameAddress(i, j, nBuffersPerSlab, bufferSize);
          j := j + 1;
        }
        i := i + 1;
      }
    }

    static lemma RoundUp(n: nat, d: nat)
      requires d > 0
      ensures (n + d - 1) / d * d >= n && ((n + d - 1) / d - 1) * d < n
    {
      var q := (n + d - 1) / d;
      assert n + d - 1 == d * q + (n + d - 1) % d;
      assert (q - 1) * d == d * q - d;
    }
  }

  class BCache {
    const bp: BPool
    var slabCons: nat
    var slabProd: nat
    var nBuffersCons: nat
    var nBuffersProd: nat

    ghost predicate Valid()
      reads this, bp, bp.slabs, bp.buffers
    {
      bp.Valid() && CacheShaped(bp.View(), View(), bp.nBuffersPerSlab)
    }

    ghost function View(): Cache
      reads this
    {
      Cache(slabCons, slabProd, nBuffersCons, nBuffersProd)
    }

    constructor (bp: BPool)
      ensures this.bp == bp
      ensures View() == Cache(0, 0, 0, 0)
    {
      this.bp := bp;
      slabCons, slabProd, nBuffersCons, nBuffersProd := 0, 0, 0, 0;
    }

    /** bcache_init. With one full slab the program reads before the slab array;
        the method stops there and says so. */
    method Init() returns (made: Made<()>)
      requires bp.Valid()
      modifies this, bp`nSlabsAvailable
      ensures bp.Valid() && (made.Made? ==> Valid())
      ensures bp.View() == InitCache(old(bp.View()), bp.nBuffersPerSlab).0
      ensures InitCache(old(bp.View()), bp.nBuffersPerSlab).1 ==
              match made case OutOfRange => OutOfRange case Failed => Failed case Made(_) => Made(View())
      ensures var a := old(bp.nSlabsAvailable);
              && (made.Failed? <==> a == 0) && (made.OutOfRange? <==> a == 1)
              && bp.nSlabsAvailable == (if made.Made? then a - 2 else a)
              && (made.Made? ==> slabCons == bp.slabs[a - 1] && slabProd == bp.slabs[a - 2])
              && (made.Made? ==> nBuffersCons == bp.nBuffersPerSlab && nBuffersProd == 0)
    {
      nBuffersCons := 0;
      nBuffersProd := 0;
      if bp.nSlabsAvailable == 0 {
        return Failed;
      }
      slabCons := bp.slabs[bp.nSlabsAvailable - 1];
      if bp.nSlabsAvailable < 2 {
        return OutOfRange;
      }
      slabProd := bp.slabs[bp.nSlabsAvailable - 2];
      bp.nSlabsAvailable := bp.nSlabsAvailable - 2;
      nBuffersCons := bp.nBuffersPerSlab;
      return Made(());
    }

    /** bcache_cons_check */
    method Check(nBuffers: nat) returns (n: nat)
      requires Valid()
      modifies this, bp`nSlabsAvailable, bp.slabs
      ensures Valid()
      ensures (bp.View(), View(), n) == ConsCheck(old(bp.View()), old(View()), nBuffers, bp.nBuffersPerSlab)
      ensures old(nBuffersCons) > 0 ==> n <= nBuffers && n <= nBuffersCons && (n == nBuffers || n == nBuffersCons)
      ensures old(nBuffersCons) > 0 || old(bp.nSlabsAvailable) == 0 ==>
        slabCons == old(slabCons) && nBuffersCons == old(nBuffersCons) && bp.nSlabsAvailable == old(bp.nSlabsAvailable)
      ensures old(nBuffersCons) == 0 && old(bp.nSlabsAvailable) == 0 ==> n == 0
      ensures old(nBuffersCons) == 0 && old(bp.nSlabsAvailable) > 0 ==>
        var last := old(bp.nSlabsAvailable) - 1;
        && n == nBuffers && nBuffersCons == bp.nBuffersPerSlab && slabCons == old(bp.slabs[last])
        && bp.nSlabsAvailable == last && bp.slabs[last] == old(slabCons)
    {
      if nBuffersCons != 0 {
        return if nBuffersCons < nBuffers then nBuffersCons else nBuffers;
      }
      var available := bp.nSlabsAvailable;
      if available == 0 {
        return 0;
      }
      available := available - 1;
      var full := bp.slabs[available];
      bp.slabs[available] := slabCons;
      bp.nSlabsAvailable := available;
      slabCons := full;
      nBuffersCons := bp.nBuffersPerSlab;
      assert bp.View().buffers == old(bp.View()).buffers;
      return nBuffers;
    }

    /** bcache_cons */
    method Take() returns (buffer: Addr)
      requires Valid() && nBuffersCons > 0
      modifies this`nBuffersCons
      ensures Valid()
      ensures (View(), buffer) == Cons(bp.View(), old(View()), bp.nBuffersPerSlab)
      ensures buffer == bp.buffers[slabCons, nBuffersCons] && nBuffersCons == old(nBuffersCons) - 1
    {
      buffer := bp.buffers[slabCons, nBuffersCons - 1];
      nBuffersCons := nBuffersCons - 1;
    }

    /** bcache_prod. Nothing in the program checks that the pool has a slot for
        the trade; module FrameRuns proves that it has one while the fill rings
        hold enough frames. */
    method Give(buffer: Addr)
      requires Valid() && ProdInRange(bp.View(), View(), bp.nBuffersPerSlab)
      modifies this, bp`nSlabsAvailable, bp.slabs, bp.buffers
      ensures Valid()
      ensures (bp.View(), View()) == Prod(old(bp.View()), old(View()), buffer, bp.nBuffersPerSlab)
      ensures bp.buffers[slabProd, nBuffersProd - 1] == buffer
      ensures old(nBuffersProd) < bp.nBuffersPerSlab ==>
        slabProd == old(slabProd) && nBuffersProd == old(nBuffersProd) + 1 && bp.nSlabsAvailable == old(bp.nSlabsAvailable)
      ensures old(nBuffersProd) == bp.nBuffersPerSlab ==>
        var a := old(bp.nSlabsAvailable);
        && slabProd == old(bp.slabs[a]) && nBuffersProd == 1
        && bp.nSlabsAvailable == a + 1 && bp.slabs[a] == old(slabProd)
    {
      ghost var p := bp.View();
      if nBuffersProd < bp.nBuffersPerSlab {
        bp.buffers[slabProd, nBuffersProd] := buffer;
        nBuffersProd := nBuffersProd + 1;
        Stored(p, slabProd, nBuffersProd - 1, buffer);
        return;
      }
      var available := bp.nSlabsAvailable;
      var empty := bp.slabs[available];
      bp.slabs[available] := slabProd;
      bp.nSlabsAvailable := available + 1;
      bp.buffers[empty, 0] := buffer;
      slabProd := empty;
      nBuffersProd := 1;
      Stored(p, empty, 0, buffer);
    }

    /** One address changed in the array is one address changed in the view. */
    lemma Stored(p: Pool, s: nat, i: nat, a: Addr)
      requires s < |p.buffers| == bp.buffers.Length0 && i < bp.buffers.Length1
      requires forall r :: 0 <= r < |p.buffers| ==> |p.buffers[r]| == bp.buffers.Length1
      requires forall r, j :: 0 <= r < bp.buffers.Length0 && 0 <= j < bp.buffers.Length1 ==>
        bp.buffers[r, j] == if r == s && j == i then a else p.buffers[r][j]
      ensures bp.View().buffers == Store(p, s, i, a).buffers
    {
      forall r | 0 <= r < |p.buffers|
        ensures bp.Row(r) == Store(p, s, i, a).buffers[r]
      {
      }
    }
  }

  class Port {
    const bc: BCache
    var fillRing: seq<Addr>
    var fillInitialized: bool

    /** The allocation part of port_init; the kernel calls in it succeed. */
    constructor (bp: BPool)
      ensures fresh(bc) && bc.bp == bp && fillRing == [] && !fillInitialized
    {
      bc := new BCache(bp);
      fillRing, fillInitialized := [], false;
    }

    method Init(fillSize: nat) returns (made: Made<()>)
      requires bc.bp.Valid() && fillRing == []
      modifies this, bc, bc.bp`nSlabsAvailable, bc.bp.slabs
      ensures bc.bp.Valid()
      ensures bc.bp.View() == InitPort(old(bc.bp.View()), fillSize, bc.bp.nBuffersPerSlab).0
      ensures InitPort(old(bc.bp.View()), fillSize, bc.bp.nBuffersPerSlab).1 ==
              match made case OutOfRange => OutOfRange case Failed => Failed case Made(_) => Made((bc.View(), fillRing))
      ensures made.Made? ==> bc.Valid() && fillInitialized
      ensures var a := old(bc.bp.nSlabsAvailable);
              && (made.OutOfRange? <==> a == 1)
              && (made.Failed? <==> a == 0 || (a >= 2 && bc.bp.nBuffersPerSlab < fillSize))
              && bc.bp.nSlabsAvailable == (if made.Made? then a - 2 else a)
              && (made.Made? ==> |fillRing| == fillSize && bc.nBuffersCons == bc.bp.nBuffersPerSlab - fillSize)
    {
      var bp := bc.bp;
      var per := bp.nBuffersPerSlab;
      made := bc.Init();
      if !made.Made? {
        return;
      }
      var failed := per < fillSize;
      if !failed {
        var n := bc.Check(fillSize);
        failed := n < fillSize;
      }
      if failed {
        bp.nSlabsAvailable := bp.nSlabsAvailable + 2;
        return Failed;
      }
      Fill(fillSize);
      fillInitialized := true;
    }

    /** The loop of port_init that fills the ring. */
    method Fill(n: nat)
      requires bc.Valid() && fillRing == [] && n <= bc.nBuffersCons
      modifies this`fillRing, bc`nBuffersCons
      ensures bc.Valid() && bc.bp.View() == old(bc.bp.View())
      ensures (bc.View(), fillRing) == TakeMany(bc.bp.View(), old(bc.View()), n, bc.bp.nBuffersPerSlab)
    {
      ghost var start, p := bc.View(), bc.bp.View();
      var i := 0;
      while i < n
        invariant 0 <= i <= n && bc.Valid() && bc.bp.View() == p
        invariant bc.View() == start.(nCons := start.nCons - i)
        invariant |fillRing| == i
        invariant forall j :: 0 <= j < i ==> fillRing[j] == p.buffers[start.cons][start.nCons - 1 - j]
      {
        var a := bc.Take();
        fillRing := fillRing + [a];
        i := i + 1;
      }
      assert fillRing == TakeMany(p, start, n, bc.bp.nBuffersPerSlab).1;
    }
  }
}
