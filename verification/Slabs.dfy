/** The slab pool and the caches in front of it, as values: what each call of
    the allocator does to them. */
module Slabs {

  /** A frame's address in the shared memory area. */
  type Addr = nat

  /** Slab s holds the addresses buffers[s]; `slabs` orders the slabs, and those
      before `available` are full. */
  datatype Pool = Pool(slabs: seq<nat>, available: nat, buffers: seq<seq<Addr>>)

  /** A cache's consumer slab with `nCons` addresses left and its producer slab
      with `nProd` addresses stored. */
  datatype Cache = Cache(cons: nat, prod: nat, nCons: nat, nProd: nat)

  /** All slabs are in range and have room for `per` addresses. */
  predicate Shaped(p: Pool, per: nat) {
    && |p.slabs| == |p.buffers|
    && (forall s :: 0 <= s < |p.buffers| ==> |p.buffers[s]| == per)
    && (forall i :: 0 <= i < |p.slabs| ==> p.slabs[i] < |p.buffers|)
    && p.available <= |p.slabs|
  }

  predicate CacheShaped(p: Pool, c: Cache, per: nat) {
    c.cons < |p.buffers| && c.prod < |p.buffers| && c.nCons <= per && c.nProd <= per
  }

  /** The address of the j-th frame of slab s. */
  function FrameAddress(s: nat, j: nat, per: nat, bufferSize: nat): Addr {
    (s * per + j) * bufferSize
  }

  /** bpool_init: every slab is full and frame f has address f * bufferSize. */
  function FreshPool(slabs: nat, per: nat, bufferSize: nat): (p: Pool)
    ensures Shaped(p, per)
  {
    Pool(seq(slabs, i => i), slabs,
         seq(slabs, s requires 0 <= s < slabs => seq(per, j requires 0 <= j < per => FrameAddress(s, j, per, bufferSize))))
  }

  /** What an initialisation comes to: it may read before the slab array, which
      nothing in the program prevents, fail, or make something. */
  datatype Made<+T> = OutOfRange | Failed | Made(value: T)

  /** The addresses of a fresh pool count up by the buffer size, from 0, through
      a slab and from each slab to the next. */
  lemma FreshAddresses(slabs: nat, per: nat, bufferSize: nat, s: nat, j: nat)
    requires s < slabs && j < per
    ensures var b := FreshPool(slabs, per, bufferSize).buffers;
            && b[0][0] == 0
            && (j + 1 < per ==> b[s][j + 1] == b[s][j] + bufferSize)
            && (s + 1 < slabs ==> b[s + 1][0] == b[s][per - 1] + bufferSize)
  {
    assert (s * per + j + 1) * bufferSize == (s * per + j) * bufferSize + bufferSize;
    assert (s + 1) * per == s * per + per;
    assert ((s + 1) * per) * bufferSize == (s * per + per - 1) * bufferSize + bufferSize;
  }

  /** bcache_init: takes the last two full slabs and treats one of them as empty.
      With one full slab it reads slab number -1. */
  function InitCache(p: Pool, per: nat): (Pool, Made<Cache>)
    requires Shaped(p, per)
  {
    if p.available == 0 then (p, Failed)
    else if p.available == 1 then (p, OutOfRange)
    else (p.(available := p.available - 2),
          Made(Cache(p.slabs[p.available - 1], p.slabs[p.available - 2], per, 0)))
  }

  /** bcache_cons_check: how many of `n` addresses may be taken now. */
  function ConsCheck(p: Pool, c: Cache, n: nat, per: nat): (Pool, Cache, nat)
    requires Shaped(p, per)
  {
    if c.nCons != 0 then (p, c, if c.nCons < n then c.nCons else n)
    else if p.available == 0 then (p, c, 0)
    else
      var a := p.available - 1;
      (p.(slabs := p.slabs[a := c.cons], available := a), c.(cons := p.slabs[a], nCons := per), n)
  }

  /** What a check grants: the lesser of the request and what the consumer slab
      then holds. It grants nothing only when cache and pool have no frame, and
      an empty consumer slab is otherwise traded for the last full one. */
  lemma CheckGrants(p: Pool, c: Cache, n: nat, per: nat)
    requires Shaped(p, per) && CacheShaped(p, c, per) && 0 < n <= per
    ensures var (p', c', k) := ConsCheck(p, c, n, per);
            && k <= n && k <= c'.nCons && (k == n || k == c'.nCons)
            && (k == 0 <==> c.nCons == 0 && p.available == 0)
            && (c.nCons > 0 || p.available == 0 ==> p' == p && c' == c)
            && (c.nCons == 0 && p.available > 0 ==>
                  var last := p.available - 1;
                  && c'.nCons == per && c'.cons == p.slabs[last]
                  && p'.available == last && p'.slabs[last] == c.cons
                  && c'.prod == c.prod && c'.nProd == c.nProd && p'.buffers == p.buffers
                  && (forall i :: 0 <= i < |p.slabs| && i != last ==> p'.slabs[i] == p.slabs[i]))
  {
  }

  /** bcache_cons */
  function Cons(p: Pool, c: Cache, per: nat): (Cache, Addr)
    requires Shaped(p, per) && CacheShaped(p, c, per) && c.nCons > 0
  {
    (c.(nCons := c.nCons - 1), p.buffers[c.cons][c.nCons - 1])
  }

  /** The pool has a slot to trade a full producer slab into, if one is to be traded. */
  predicate ProdInRange(p: Pool, c: Cache, per: nat) {
    c.nProd < per || p.available < |p.slabs|
  }

  function StoreIn(b: seq<seq<Addr>>, s: nat, i: nat, a: Addr): seq<seq<Addr>>
    requires s < |b| && i < |b[s]|
  {
    var row: seq<Addr> := b[s][i := a];
    b[s := row]
  }

  function Store(p: Pool, s: nat, i: nat, a: Addr): Pool
    requires s < |p.buffers| && i < |p.buffers[s]|
  {
    p.(buffers := StoreIn(p.buffers, s, i, a))
  }

  /** bcache_prod */
  function Prod(p: Pool, c: Cache, a: Addr, per: nat): (Pool, Cache)
    requires per > 0 && Shaped(p, per) && CacheShaped(p, c, per) && ProdInRange(p, c, per)
  {
    if c.nProd < per then (Store(p, c.prod, c.nProd, a), c.(nProd := c.nProd + 1))
    else
      var empty := p.slabs[p.available];
      (Store(p.(slabs := p.slabs[p.available := c.prod], available := p.available + 1), empty, 0, a),
       c.(prod := empty, nProd := 1))
  }

  /** `n` calls of bcache_cons, in order. */
  function TakeMany(p: Pool, c: Cache, n: nat, per: nat): (r: (Cache, seq<Addr>))
    requires Shaped(p, per) && CacheShaped(p, c, per) && n <= c.nCons
    ensures |r.1| == n && r.0 == c.(nCons := c.nCons - n)
    ensures forall i :: 0 <= i < n ==> r.1[i] == p.buffers[c.cons][c.nCons - 1 - i]
    decreases n
  {
    if n == 0 then (c, [])
    else
      var (c1, a) := Cons(p, c, per);
      var (c2, rest) := TakeMany(p, c1, n - 1, per);
      (c2, [a] + rest)
  }

  /** port_init, up to the kernel calls: a cache, and a fill ring of `fill`
      addresses taken from it. A port that fails hands its slabs back. */
  function InitPort(p: Pool, fill: nat, per: nat): (Pool, Made<(Cache, seq<Addr>)>)
    requires Shaped(p, per)
  {
    var (p1, c) := InitCache(p, per);
    match c
    case OutOfRange => (p, OutOfRange)
    case Failed => (p, Failed)
    case Made(cache) => if per < fill then (p, Failed) else (p1, Made(TakeMany(p1, cache, fill, per)))
  }
}
