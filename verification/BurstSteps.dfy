/** A receive burst as steps of the emulator: what PortIo.RxBurst does in one
    call is a run of the frame machine in which only its thread moves. */
module BurstSteps {
  import opened Slabs
  import opened Frames
  import opened FrameSetUp
  import opened FrameLimit
  import opened PortBursts

  /** A run of steps of port i alone leads from o to s. */
  ghost predicate LeadsTo(st: Setting, o: System, i: nat, s: System) {
    Sane(st.cfg) && exists steps: seq<Step> ::
      Run(st.cfg, o, steps, s) && forall j :: 0 <= j < |steps| ==> steps[j].port == i
  }

  /** Such a run leads from o to the safe state s, whose port i is p. */
  ghost predicate PortAt(st: Setting, o: System, s: System, i: nat, p: Port) {
    SafeState(st, s) && i < |s.ports| == st.k && s.ports[i] == p && LeadsTo(st, o, i, s)
  }

  /** The state with port i as given. */
  function Put(s: System, i: nat, p: Port): System
    requires i < |s.ports|
  {
    s.(ports := s.ports[i := p])
  }

  lemma PutTwice(s: System, i: nat, p: Port, q: Port)
    requires i < |s.ports|
    ensures Put(Put(s, i, p), i, q) == Put(s, i, q)
  {
  }

  lemma PutSame(s: System, i: nat)
    requires i < |s.ports|
    ensures Put(s, i, s.ports[i]) == s
  {
  }

  /** One step in a safe state is in range and leads to another. */
  lemma SafeStep(st: Setting, o: System, s: System, i: nat, step: Step)
    requires SafeState(st, s) && i < |s.ports| == st.k && step.port == i && Enabled(st.cfg, s, step)
    requires LeadsTo(st, o, i, s)
    ensures InRange(st.cfg, s, step) && SafeState(st, Next(st.cfg, s, step))
    ensures LeadsTo(st, o, i, Next(st.cfg, s, step))
  {
    var steps :| Run(st.cfg, Start(st), steps, s);
    RunSafe(st.cfg, st.k, st.queues, steps, s);
    OneStepOn(st, s, step, Next(st.cfg, s, step));
    OneMoreStep(st, o, i, s, step, Next(st.cfg, s, step));
  }

  lemma OneMoreStep(st: Setting, o: System, i: nat, s: System, step: Step, t: System)
    requires LeadsTo(st, o, i, s) && step.port == i && StepsTo(st.cfg, s, step, t)
    ensures LeadsTo(st, o, i, t)
  {
    var steps: seq<Step> :| Run(st.cfg, o, steps, s) && forall j :: 0 <= j < |steps| ==> steps[j].port == i;
    assert (steps + [step])[..|steps|] == steps;
    assert RunThen(st.cfg, o, steps, step, t);
    assert Run(st.cfg, o, steps + [step], t);
  }

  // ----- reading descriptors -----

  /** The port after reading n descriptors. */
  function AfterTake(p: Port, n: nat): Port
    requires p.phase.Taking? && n <= p.phase.budget && n <= |p.rx|
  {
    p.(rx := p.rx[n..], burst := p.burst + p.rx[..n], phase := Taking(p.phase.budget - n, p.phase.owed + n))
  }

  /** The port after one more. */
  function TakeNext(p: Port): Port
    requires p.phase.Taking? && 0 < p.phase.budget && p.rx != []
  {
    p.(rx := p.rx[1..], burst := p.burst + [p.rx[0]], phase := Taking(p.phase.budget - 1, p.phase.owed + 1))
  }

  lemma TakeOne(st: Setting, o: System, s: System, i: nat, p: Port) returns (t: System)
    requires PortAt(st, o, s, i, p) && p.phase.Taking? && 0 < p.phase.budget && p.rx != []
    ensures t == Put(s, i, TakeNext(p)) && PortAt(st, o, t, i, TakeNext(p))
  {
    SafeStep(st, o, s, i, Take(i));
    t := Next(st.cfg, s, Take(i));
  }

  lemma TakenOnce(p: Port, n: nat)
    requires p.phase.Taking? && n < p.phase.budget && n < |p.rx|
    ensures var q := AfterTake(p, n);
            q.phase.Taking? && 0 < q.phase.budget && q.rx != [] && TakeNext(q) == AfterTake(p, n + 1)
  {
    assert p.rx[n..][1..] == p.rx[n + 1..];
    assert p.rx[..n + 1] == p.rx[..n] + [p.rx[n]];
  }

  lemma NoneTaken(p: Port, n: nat)
    requires p.phase.Taking? && n == 0
    ensures AfterTake(p, n) == p
  {
  }

  lemma {:induction false} TakeN(st: Setting, o: System, s: System, i: nat, p: Port, n: nat) returns (t: System)
    requires PortAt(st, o, s, i, p) && p.phase.Taking? && n <= p.phase.budget && n <= |p.rx|
    ensures t == Put(s, i, AfterTake(p, n)) && PortAt(st, o, t, i, AfterTake(p, n))
  {
    if n == 0 {
      t := s;
      NoneTaken(p, n);
      PutSame(s, i);
    } else {
      var u := TakeN(st, o, s, i, p, n - 1);
      TakenOnce(p, n - 1);
      PutTwice(s, i, AfterTake(p, n - 1), AfterTake(p, n));
      t := TakeOne(st, o, u, i, AfterTake(p, n - 1));
    }
  }

  // ----- putting fresh frames on the fill ring -----

  /** The port after n addresses went from its cache to its fill ring. */
  function AfterRefill(pool: Pool, p: Port, n: nat, per: nat): Port
    requires Shaped(pool, per) && CacheShaped(pool, p.cache, per) && n <= p.cache.nCons
    requires p.phase.Refilling? && n <= p.phase.owed
  {
    var (cache, fill) := TakeMany(pool, p.cache, n, per);
    p.(cache := cache, fill := p.fill + fill, phase := if n < p.phase.owed then Refilling(p.phase.owed - n) else Ready)
  }

  /** The port after one more. */
  function RefillNext(pool: Pool, p: Port, per: nat): Port
    requires Shaped(pool, per) && CacheShaped(pool, p.cache, per) && 0 < p.cache.nCons
    requires p.phase.Refilling? && 0 < p.phase.owed
  {
    var (cache, a) := Cons(pool, p.cache, per);
    p.(cache := cache, fill := p.fill + [a], phase := if p.phase.owed == 1 then Ready else Refilling(p.phase.owed - 1))
  }

  lemma RefillOne(st: Setting, o: System, s: System, i: nat, p: Port) returns (t: System)
    requires PortAt(st, o, s, i, p) && p.phase.Refilling? && 0 < p.phase.owed <= p.cache.nCons
    requires Shaped(s.pool, st.cfg.per) && CacheShaped(s.pool, p.cache, st.cfg.per)
    ensures var p' := RefillNext(s.pool, p, st.cfg.per); t == Put(s, i, p') && PortAt(st, o, t, i, p')
  {
    SafeStep(st, o, s, i, Refill(i));
    t := Next(st.cfg, s, Refill(i));
  }

  lemma RefilledOnce(pool: Pool, p: Port, n: nat, per: nat)
    requires Shaped(pool, per) && CacheShaped(pool, p.cache, per) && n < p.cache.nCons
    requires p.phase.Refilling? && n < p.phase.owed
    ensures var q := AfterRefill(pool, p, n, per);
            && CacheShaped(pool, q.cache, per) && q.cache.nCons == p.cache.nCons - n
            && q.phase == Refilling(p.phase.owed - n)
            && RefillNext(pool, q, per) == AfterRefill(pool, p, n + 1, per)
  {
    var q := AfterRefill(pool, p, n, per);
    assert TakeMany(pool, p.cache, n + 1, per).1 == TakeMany(pool, p.cache, n, per).1 + [Cons(pool, q.cache, per).1];
  }

  lemma NoneRefilled(pool: Pool, p: Port, n: nat, per: nat)
    requires Shaped(pool, per) && CacheShaped(pool, p.cache, per) && n == 0
    ensures TakeMany(pool, p.cache, n, per) == (p.cache, []) && p.fill + TakeMany(pool, p.cache, n, per).1 == p.fill
    ensures p.phase.Refilling? && 0 < p.phase.owed ==> AfterRefill(pool, p, n, per) == p
  {
  }

  lemma {:induction false} RefillN(st: Setting, o: System, s: System, i: nat, p: Port, n: nat) returns (t: System)
    requires PortAt(st, o, s, i, p) && p.phase.Refilling? && n <= p.phase.owed <= p.cache.nCons
    requires Shaped(s.pool, st.cfg.per) && CacheShaped(s.pool, p.cache, st.cfg.per) && 0 < p.phase.owed
    ensures var p' := AfterRefill(s.pool, p, n, st.cfg.per); t == Put(s, i, p') && PortAt(st, o, t, i, p')
  {
    if n == 0 {
      t := s;
      PutSame(s, i);
      NoneRefilled(s.pool, p, n, st.cfg.per);
    } else {
      var u := RefillN(st, o, s, i, p, n - 1);
      RefilledOnce(s.pool, p, n - 1, st.cfg.per);
      t := RefillOne(st, o, u, i, AfterRefill(s.pool, p, n - 1, st.cfg.per));
      PutTwice(s, i, AfterRefill(s.pool, p, n - 1, st.cfg.per), AfterRefill(s.pool, p, n, st.cfg.per));
    }
  }

  // ----- the whole burst -----

  /** The check of a ready port that is granted something. */
  lemma CheckOne(st: Setting, o: System, s: System, i: nat, p: Port) returns (t: System)
    requires PortAt(st, o, s, i, p) && p.phase.Ready? && p.burst == []
    ensures Shapes(st.cfg, s, i)
    ensures var (pool, c, k) := ConsCheck(s.pool, p.cache, MAX_BURST, st.cfg.per);
            && Shaped(pool, st.cfg.per) && CacheShaped(pool, c, st.cfg.per) && k <= c.nCons
            && var p' := p.(cache := c, phase := if k == 0 then Ready else Taking(k, 0));
            t == Put(s, i, p').(pool := pool) && PortAt(st, o, t, i, p')
  {
    ShapesHold(st, s, i);
    SafeStep(st, o, s, i, Check(i));
    t := Next(st.cfg, s, Check(i));
    ShapesHold(st, t, i);
    CheckGrants(s.pool, p.cache, MAX_BURST, st.cfg.per);
  }

  lemma EndTakeOne(st: Setting, o: System, s: System, i: nat, p: Port) returns (t: System)
    requires PortAt(st, o, s, i, p) && p.phase.Taking?
    ensures var p' := p.(phase := if p.phase.owed == 0 then Ready else Refilling(p.phase.owed));
            t == Put(s, i, p') && PortAt(st, o, t, i, p')
  {
    SafeStep(st, o, s, i, EndTake(i));
    t := Next(st.cfg, s, EndTake(i));
  }

  /** From any safe state with port i ready, steps of its receive thread alone do
      what PortIo.RxBurst does: n descriptors leave the ring for the burst, n being
      the least of what the cache grants and what the ring holds, and n addresses
      go from the cache to the fill ring. */
  lemma ReceiveBurst(st: Setting, s: System, i: nat, p: Port) returns (t: System, n: nat)
    requires SafeState(st, s) && i < |s.ports| == st.k && s.ports[i] == p && p.phase.Ready? && p.burst == []
    ensures Shapes(st.cfg, s, i) && SafeState(st, t) && LeadsTo(st, s, i, t)
    ensures var (pool, c, k) := ConsCheck(s.pool, p.cache, MAX_BURST, st.cfg.per);
            && Shaped(pool, st.cfg.per) && CacheShaped(pool, c, st.cfg.per)
            && n <= k <= c.nCons && n <= |p.rx| && (n == k || n == |p.rx|)
            && var (taken, ring) := TakeMany(pool, c, n, st.cfg.per);
            t == Put(s, i, p.(cache := taken, rx := p.rx[n..], fill := p.fill + ring, burst := p.rx[..n])).(pool := pool)
  {
    Here(st, s, i);
    var u := CheckOne(st, s, s, i, p);
    var q := u.ports[i];
    if q.phase.Ready? {
      t, n := u, 0;
      assert p.rx[0..] == p.rx && p.rx[..0] == p.burst;
      NoneRefilled(u.pool, q, n, st.cfg.per);
    } else {
      n := if q.phase.budget < |q.rx| then q.phase.budget else |q.rx|;
      t := MoveOn(st, s, u, i, q, n);
    }
  }

  lemma Here(st: Setting, s: System, i: nat)
    requires Sane(st.cfg)
    ensures LeadsTo(st, s, i, s)
  {
    assert Run(st.cfg, s, [], s);
  }

  /** The end of the reading, and the refill. */
  lemma EndBurst(st: Setting, o: System, s: System, i: nat, p: Port, n: nat) returns (t: System)
    requires PortAt(st, o, s, i, p) && p.phase.Taking? && n == p.phase.owed <= p.cache.nCons
    requires Shaped(s.pool, st.cfg.per) && CacheShaped(s.pool, p.cache, st.cfg.per)
    ensures var (taken, ring) := TakeMany(s.pool, p.cache, n, st.cfg.per);
            var p' := p.(cache := taken, fill := p.fill + ring, phase := Ready);
            t == Put(s, i, p') && PortAt(st, o, t, i, p')
  {
    t := EndTakeOne(st, o, s, i, p);
    NoneOrSome(s.pool, p, n, st.cfg.per);
    if n > 0 {
      var q := p.(phase := Refilling(n));
      t := RefillN(st, o, t, i, q, n);
      PutTwice(s, i, q, AfterRefill(s.pool, q, n, st.cfg.per));
    }
  }

  lemma NoneOrSome(pool: Pool, p: Port, n: nat, per: nat)
    requires Shaped(pool, per) && CacheShaped(pool, p.cache, per) && n <= p.cache.nCons
    ensures var (taken, ring) := TakeMany(pool, p.cache, n, per);
            var p' := p.(cache := taken, fill := p.fill + ring, phase := Ready);
            p' == if n == 0 then p.(phase := Ready) else AfterRefill(pool, p.(phase := Refilling(n)), n, per)
  {
    if n == 0 {
      NoneRefilled(pool, p, n, per);
    }
  }

  /** The burst from the granted check on. */
  lemma MoveOn(st: Setting, o: System, s: System, i: nat, p: Port, n: nat) returns (t: System)
    requires PortAt(st, o, s, i, p) && p.phase.Taking? && p.phase.owed == 0 && p.burst == []
    requires n <= p.phase.budget <= p.cache.nCons && n <= |p.rx|
    requires Shaped(s.pool, st.cfg.per) && CacheShaped(s.pool, p.cache, st.cfg.per)
    ensures SafeState(st, t) && LeadsTo(st, o, i, t)
    ensures var (taken, ring) := TakeMany(s.pool, p.cache, n, st.cfg.per);
            t == Put(s, i, p.(cache := taken, rx := p.rx[n..], fill := p.fill + ring, burst := p.rx[..n], phase := Ready))
  {
    var u := TakeN(st, o, s, i, p, n);
    var q := AfterTake(p, n);
    assert q.burst == p.rx[..n];
    t := EndBurst(st, o, u, i, q, n);
    PutTwice(s, i, q, t.ports[i]);
  }
}
