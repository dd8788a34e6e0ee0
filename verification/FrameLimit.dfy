/** The condition on the fill rings is exact: without it, some run of the
    emulator trades a producer slab for a stale slot. */
module FrameLimit {
  import opened Slabs
  import opened FrameCounts
  import opened Frames
  import opened FrameGives
  import opened FrameRuns
  import opened FrameSetUp
  import opened FrameIdle

  /** A configuration with k ports and some queues, as set up. */
  datatype Setting = Setting(cfg: Config, k: nat, queues: nat)

  ghost predicate Usable(st: Setting) {
    Sane(st.cfg) && 2 * st.k <= st.cfg.slabs
  }

  ghost function Start(st: Setting): System
    requires Usable(st)
  {
    SetUp(st.cfg, st.k, st.queues)
  }

  ghost predicate Reaches(st: Setting, t: System)
    requires Usable(st)
  {
    exists steps :: Run(st.cfg, Start(st), steps, t)
  }

  /** A run all of whose steps are in range and whose trades have room. */
  ghost predicate SafeRun(st: Setting, steps: seq<Step>, t: System)
    requires Usable(st)
    decreases |steps|, 0
  {
    if steps == [] then t == Start(st)
    else SafeThen(st, steps[..|steps| - 1], steps[|steps| - 1], t)
  }

  ghost predicate SafeThen(st: Setting, front: seq<Step>, last: Step, t: System)
    requires Usable(st)
    decreases |front|, 1
  {
    exists b :: SafeRun(st, front, b) && SafeTo(st.cfg, b, last, t)
  }

  ghost predicate SafeTo(cfg: Config, s: System, step: Step, t: System)
    requires Sane(cfg)
  {
    && Enabled(cfg, s, step) && InRange(cfg, s, step)
    && (Trades(cfg, s, step) ==> s.pool.available < LiveSlots(s))
    && t == Next(cfg, s, step)
  }

  ghost predicate Good(st: Setting, s: System)
    requires Usable(st)
  {
    exists steps :: SafeRun(st, steps, s)
  }

  lemma {:induction false} SafeRunInv(st: Setting, steps: seq<Step>, t: System)
    requires Usable(st) && SafeRun(st, steps, t)
    ensures Inv(st.cfg, t) && |t.ports| == st.k && Run(st.cfg, Start(st), steps, t)
    decreases |steps|
  {
    if steps == [] {
      SetUpInv(st.cfg, st.k, st.queues);
    } else {
      var front, last := steps[..|steps| - 1], steps[|steps| - 1];
      assert SafeThen(st, front, last, t);
      var b :| SafeRun(st, front, b) && SafeTo(st.cfg, b, last, t);
      SafeRunInv(st, front, b);
      StepKeeps(st.cfg, b, last);
      PortCountKept(st.cfg, b, last);
      assert Run(st.cfg, Start(st), front, b) && StepsTo(st.cfg, b, last, t);
      assert RunThen(st.cfg, Start(st), front, last, t);
    }
  }

  lemma GoodInv(st: Setting, s: System)
    requires Usable(st) && Good(st, s)
    ensures Inv(st.cfg, s) && |s.ports| == st.k && Reaches(st, s)
  {
    var steps :| SafeRun(st, steps, s);
    SafeRunInv(st, steps, s);
  }

  lemma GoodStart(st: Setting)
    requires Usable(st)
    ensures Good(st, Start(st))
  {
    assert SafeRun(st, [], Start(st));
  }

  lemma GoodStepInRange(st: Setting, s: System, step: Step)
    requires Usable(st) && Good(st, s) && Enabled(st.cfg, s, step) && !Trades(st.cfg, s, step)
    requires step.Refill? ==> s.ports[step.port].cache.nCons > 0
    ensures InRange(st.cfg, s, step)
  {
    GoodInv(st, s);
    assert CacheShaped(s.pool, s.ports[step.port].cache, st.cfg.per);
  }

  lemma GoodNext(st: Setting, s: System, step: Step)
    requires Usable(st) && Good(st, s) && Enabled(st.cfg, s, step) && !Trades(st.cfg, s, step)
    requires step.Refill? ==> s.ports[step.port].cache.nCons > 0
    ensures InRange(st.cfg, s, step) && Good(st, Next(st.cfg, s, step))
  {
    GoodStepInRange(st, s, step);
    var front :| SafeRun(st, front, s);
    var t, steps := Next(st.cfg, s, step), front + [step];
    assert steps[..|steps| - 1] == front;
    assert SafeTo(st.cfg, s, step, t);
    assert SafeThen(st, front, step, t);
    assert SafeRun(st, steps, t);
  }

  /** A port of a reachable state has its fill side and room in its cache. */
  lemma GoodPort(st: Setting, s: System, i: nat)
    requires Usable(st) && Good(st, s) && i < |s.ports|
    ensures PortOk(st.cfg, s.ports[i]) && s.ports[i].cache.nProd <= st.cfg.per && |s.ports| == st.k
  {
    GoodInv(st, s);
    assert CacheShaped(s.pool, s.ports[i].cache, st.cfg.per);
  }

  // ----- one frame round the emulator -----

  /** Where the only frame under way is. */
  datatype UnderWay = Nowhere | InBurst(port: nat) | InCollector | InComp

  predicate PortCalm(p: Port, i: nat, w: UnderWay) {
    && p.phase.Ready? && p.rx == p.tx == []
    && |p.burst| == (if w == InBurst(i) then 1 else 0)
    && |p.collector| == (if w == InCollector && i == 0 then 1 else 0)
    && |p.comp| == (if w == InComp && i == 0 then 1 else 0)
  }

  /** Nothing is under way but the frame at `w`. */
  ghost predicate Calm(s: System, w: UnderWay) {
    && s.pool.available == LiveSlots(s)
    && (forall i :: 0 <= i < |s.ports| ==> PortCalm(s.ports[i], i, w))
    && (forall q :: 0 <= q < |s.queues| ==> s.queues[q] == [])
  }

  /** The same caches but for one frame less in the consumer slab of port i. */
  predicate TookOne(s: System, t: System, i: nat) {
    && |t.ports| == |s.ports| && i < |s.ports| && |t.queues| == |s.queues|
    && s.ports[i].cache.nCons > 0
    && t.ports[i].cache == s.ports[i].cache.(nCons := s.ports[i].cache.nCons - 1)
    && forall j :: 0 <= j < |s.ports| && j != i ==> t.ports[j].cache == s.ports[j].cache
  }

  predicate SameCaches(s: System, t: System) {
    && |t.ports| == |s.ports| && |t.queues| == |s.queues|
    && forall j :: 0 <= j < |s.ports| ==> t.ports[j].cache == s.ports[j].cache
  }

  /** The state in which only port i differs from `s`. */
  function With(s: System, i: nat, p: Port): System
    requires i < |s.ports|
  {
    s.(ports := s.ports[i := p])
  }

  lemma Receive(st: Setting, s: System, i: nat)
    requires Usable(st) && Good(st, s) && i < |s.ports| && s.ports[i].fill != []
    ensures var p := s.ports[i];
            Good(st, With(s, i, p.(fill := p.fill[1..], rx := p.rx + [p.fill[0]])))
  {
    assert Without(s.ports[i].fill, 0) == s.ports[i].fill[1..];
    GoodNext(st, s, KernelReceive(i, 0, s.ports[i].fill[0]));
  }

  lemma CheckPlain(st: Setting, s: System, i: nat) returns (n: nat)
    requires Usable(st) && Good(st, s) && i < |s.ports|
    requires s.ports[i].phase.Ready? && s.ports[i].burst == [] && s.ports[i].cache.nCons > 0
    ensures n > 0 && Good(st, With(s, i, s.ports[i].(phase := Taking(n, 0))))
  {
    GoodNext(st, s, Check(i));
    n := ConsCheck(s.pool, s.ports[i].cache, MAX_BURST, st.cfg.per).2;
    assert Next(st.cfg, s, Check(i)) == With(s, i, s.ports[i].(phase := Taking(n, 0)));
  }

  lemma TakeOne(st: Setting, s: System, i: nat, n: nat)
    requires Usable(st) && Good(st, s) && i < |s.ports|
    requires n > 0 && s.ports[i].phase == Taking(n, 0) && |s.ports[i].rx| == 1 && s.ports[i].burst == []
    ensures var p := s.ports[i];
            Good(st, With(s, i, p.(rx := [], burst := [p.rx[0]], phase := Refilling(1))))
  {
    var p := s.ports[i];
    GoodNext(st, s, Take(i));
    var a := Next(st.cfg, s, Take(i));
    assert p.rx[1..] == [] && p.burst + [p.rx[0]] == [p.rx[0]];
    GoodNext(st, a, EndTake(i));
    assert Next(st.cfg, a, EndTake(i)) == With(s, i, p.(rx := [], burst := [p.rx[0]], phase := Refilling(1)));
  }

  lemma RefillOne(st: Setting, s: System, i: nat) returns (a: Addr)
    requires Usable(st) && Good(st, s) && i < |s.ports|
    requires s.ports[i].phase == Refilling(1) && s.ports[i].cache.nCons > 0
    ensures var p := s.ports[i];
            Good(st, With(s, i, p.(cache := p.cache.(nCons := p.cache.nCons - 1), fill := p.fill + [a], phase := Ready)))
  {
    GoodNext(st, s, Refill(i));
    a := Cons(s.pool, s.ports[i].cache, st.cfg.per).1;
  }

  /** One frame arrives at port i. */
  lemma Arrive(st: Setting, s: System, i: nat) returns (t: System)
    requires Usable(st) && Good(st, s) && Calm(s, Nowhere)
    requires i < |s.ports| && s.ports[i].fill != [] && s.ports[i].cache.nCons > 0
    ensures Good(st, t) && Calm(t, InBurst(i)) && TookOne(s, t, i)
  {
    var p := s.ports[i];
    assert PortCalm(p, i, Nowhere);
    Receive(st, s, i);
    var p1 := p.(fill := p.fill[1..], rx := p.rx + [p.fill[0]]);
    var n := CheckPlain(st, With(s, i, p1), i);
    var p2 := p1.(phase := Taking(n, 0));
    assert With(With(s, i, p1), i, p2) == With(s, i, p2);
    TakeOne(st, With(s, i, p2), i, n);
    var p3 := p2.(rx := [], burst := [p2.rx[0]], phase := Refilling(1));
    assert With(With(s, i, p2), i, p3) == With(s, i, p3);
    var a := RefillOne(st, With(s, i, p3), i);
    var p4 := p3.(cache := p3.cache.(nCons := p3.cache.nCons - 1), fill := p3.fill + [a], phase := Ready);
    assert With(With(s, i, p3), i, p4) == With(s, i, p4);
    t := With(s, i, p4);
    CalmWith(s, i, p4, Nowhere, InBurst(i));
  }

  lemma CalmWith(s: System, i: nat, p: Port, w: UnderWay, w': UnderWay)
    requires Calm(s, w) && i < |s.ports| && PortCalm(p, i, w')
    requires forall j :: 0 <= j < |s.ports| && j != i ==> PortCalm(s.ports[j], j, w) ==> PortCalm(s.ports[j], j, w')
    ensures Calm(With(s, i, p), w')
  {
  }

  lemma ForwardOne(st: Setting, s: System, i: nat) returns (t: System)
    requires Usable(st) && Good(st, s) && Calm(s, InBurst(i))
    requires i < |s.ports| && |s.queues| > 0
    ensures Good(st, t) && SameCaches(s, t) && t.pool == s.pool
    ensures (forall j :: 0 <= j < |t.ports| ==> PortCalm(t.ports[j], j, Nowhere))
    ensures |t.queues[0]| == 1 && forall q :: 0 < q < |t.queues| ==> t.queues[q] == []
  {
    assert PortCalm(s.ports[i], i, InBurst(i));
    GoodNext(st, s, Forward(i, 0));
    t := Next(st.cfg, s, Forward(i, 0));
    forall j | 0 <= j < |t.ports|
      ensures PortCalm(t.ports[j], j, Nowhere)
    {
      assert PortCalm(s.ports[j], j, InBurst(i));
    }
  }

  lemma DrainOne(st: Setting, s: System) returns (t: System)
    requires Usable(st) && Good(st, s) && |s.ports| > 0 && |s.queues| > 0
    requires (forall j :: 0 <= j < |s.ports| ==> PortCalm(s.ports[j], j, Nowhere))
    requires |s.queues[0]| == 1 && forall q :: 0 < q < |s.queues| ==> s.queues[q] == []
    requires s.pool.available == LiveSlots(s)
    ensures Good(st, t) && Calm(t, InCollector) && SameCaches(s, t)
  {
    assert PortCalm(s.ports[0], 0, Nowhere);
    GoodNext(st, s, Drain(0, 0));
    t := Next(st.cfg, s, Drain(0, 0));
    forall j | 0 <= j < |t.ports|
      ensures PortCalm(t.ports[j], j, InCollector)
    {
      assert PortCalm(s.ports[j], j, Nowhere);
    }
  }

  lemma SendOne(st: Setting, s: System) returns (t: System)
    requires Usable(st) && Good(st, s) && Calm(s, InCollector) && |s.ports| > 0
    ensures Good(st, t) && Calm(t, InComp) && SameCaches(s, t)
  {
    var p := s.ports[0];
    assert PortCalm(p, 0, InCollector);
    var x := p.collector[0];
    assert p.collector == [x];
    TransmitOne(st, s, x);
    var a := With(s, 0, p.(collector := [], tx := [x]));
    CompleteOne(st, a, x);
    var p' := p.(collector := [], comp := [x]);
    assert a.ports[0].(tx := [], comp := [x]) == p';
    t := With(s, 0, p');
    assert With(a, 0, p').ports == t.ports;
    CalmWith(s, 0, p', InCollector, InComp);
  }

  lemma TransmitOne(st: Setting, s: System, x: Addr)
    requires Usable(st) && Good(st, s) && |s.ports| > 0 && s.ports[0].collector == [x] && s.ports[0].tx == []
    ensures Good(st, With(s, 0, s.ports[0].(collector := [], tx := [x])))
  {
    GoodNext(st, s, Transmit(0));
    assert s.ports[0].collector[1..] == [] && s.ports[0].tx + [x] == [x];
  }

  lemma CompleteOne(st: Setting, s: System, x: Addr)
    requires Usable(st) && Good(st, s) && |s.ports| > 0 && s.ports[0].tx == [x] && s.ports[0].comp == []
    ensures Good(st, With(s, 0, s.ports[0].(tx := [], comp := [x])))
  {
    GoodNext(st, s, KernelSend(0, 0, x));
    assert Without([x], 0) == [] && s.ports[0].comp + [x] == [x];
  }

  /** The frame crosses queue 0 and leaves through port 0. */
  lemma Cross(st: Setting, s: System, i: nat) returns (t: System)
    requires Usable(st) && Good(st, s) && Calm(s, InBurst(i))
    requires i < |s.ports| && |s.queues| > 0
    ensures Good(st, t) && Calm(t, InComp) && SameCaches(s, t)
  {
    var a := ForwardOne(st, s, i);
    var b := DrainOne(st, a);
    t := SendOne(st, b);
  }

  lemma Finish(st: Setting, s: System) returns (t: System)
    requires Usable(st) && Good(st, s) && Calm(s, InComp)
    requires |s.ports| > 0 && s.ports[0].cache.nProd < st.cfg.per
    ensures Good(st, t) && Calm(t, Nowhere) && |t.queues| == |s.queues| && |t.ports| == |s.ports|
    ensures t.ports[0].cache == s.ports[0].cache.(nProd := s.ports[0].cache.nProd + 1)
    ensures forall j :: 0 < j < |s.ports| ==> t.ports[j].cache == s.ports[j].cache
  {
    assert PortCalm(s.ports[0], 0, InComp);
    GoodNext(st, s, Complete(0));
    t := Next(st.cfg, s, Complete(0));
    forall j | 0 <= j < |t.ports|
      ensures PortCalm(t.ports[j], j, Nowhere)
    {
      assert PortCalm(s.ports[j], j, InComp);
    }
  }

  // ----- enough frames to overfill one producer slab -----

  /** The frames in the consumer slabs. */
  function Stock(ports: seq<Port>): nat
    decreases |ports|
  {
    if ports == [] then 0 else Stock(ports[..|ports| - 1]) + ports[|ports| - 1].cache.nCons
  }

  lemma {:induction false} SomeStock(ports: seq<Port>) returns (i: nat)
    requires Stock(ports) > 0
    ensures i < |ports| && ports[i].cache.nCons > 0
    decreases |ports|
  {
    var n := |ports| - 1;
    if ports[n].cache.nCons > 0 {
      i := n;
    } else {
      i := SomeStock(ports[..n]);
    }
  }

  lemma {:induction false} StockSame(a: seq<Port>, b: seq<Port>)
    requires |a| == |b|
    requires forall j :: 0 <= j < |a| ==> a[j].cache.nCons == b[j].cache.nCons
    ensures Stock(a) == Stock(b)
    decreases |a|
  {
    if a != [] {
      StockSame(a[..|a| - 1], b[..|b| - 1]);
    }
  }

  lemma {:induction false} StockLess(a: seq<Port>, b: seq<Port>, i: nat)
    requires |a| == |b| && i < |a| && b[i].cache.nCons + 1 == a[i].cache.nCons
    requires forall j :: 0 <= j < |a| && j != i ==> a[j].cache.nCons == b[j].cache.nCons
    ensures Stock(b) + 1 == Stock(a)
    decreases |a|
  {
    var n := |a| - 1;
    if i == n {
      StockSame(a[..n], b[..n]);
    } else {
      StockLess(a[..n], b[..n], i);
    }
  }

  /** The producer slab of port 0 fills up, one frame at a time, and one frame
      more arrives. */
  lemma {:induction false} Overfill(st: Setting, s: System) returns (t: System)
    requires Usable(st) && st.cfg.fill > 0 && Good(st, s) && Calm(s, Nowhere)
    requires |s.ports| > 0 && |s.queues| > 0
    requires Stock(s.ports) + s.ports[0].cache.nProd > st.cfg.per
    ensures Reaches(st, t) && t.pool.available == LiveSlots(t)
    ensures Enabled(st.cfg, t, Complete(0)) && Trades(st.cfg, t, Complete(0))
    decreases Stock(s.ports)
  {
    GoodPort(st, s, 0);
    var i := SomeStock(s.ports);
    var b := Round(st, s, i);
    if b.ports[0].cache.nProd == st.cfg.per {
      t := b;
      GoodInv(st, t);
      assert PortCalm(b.ports[0], 0, InComp);
    } else {
      GoodPort(st, b, 0);
      var c := Finish(st, b);
      StockSame(b.ports, c.ports);
      t := Overfill(st, c);
    }
  }

  /** A frame of port i comes to completion at port 0. */
  lemma Round(st: Setting, s: System, i: nat) returns (b: System)
    requires Usable(st) && st.cfg.fill > 0 && Good(st, s) && Calm(s, Nowhere)
    requires i < |s.ports| && |s.queues| > 0 && s.ports[i].cache.nCons > 0
    ensures Good(st, b) && Calm(b, InComp) && |b.ports| == |s.ports| && |b.queues| == |s.queues|
    ensures Stock(b.ports) + 1 == Stock(s.ports) && b.ports[0].cache.nProd == s.ports[0].cache.nProd
  {
    GoodPort(st, s, i);
    assert PortCalm(s.ports[i], i, Nowhere);
    var a := Arrive(st, s, i);
    b := Cross(st, a, i);
    StockLess(s.ports, a.ports, i);
    StockSame(a.ports, b.ports);
  }

  lemma CalmAppend(s: System, t: System, p: Port)
    requires Calm(s, Nowhere) && PortCalm(p, |s.ports|, Nowhere)
    requires t.ports == s.ports + [p] && t.queues == s.queues && t.pool.available == LiveSlots(t)
    ensures Calm(t, Nowhere)
  {
    forall i | 0 <= i < |t.ports|
      ensures PortCalm(t.ports[i], i, Nowhere)
    {
      if i < |s.ports| { assert PortCalm(s.ports[i], i, Nowhere); }
    }
  }

  lemma {:induction false} SetUpCalm(cfg: Config, k: nat, queues: nat)
    requires Sane(cfg) && 2 * k <= cfg.slabs
    ensures var s := SetUp(cfg, k, queues);
            Calm(s, Nowhere) && |s.queues| == queues && |s.pool.slabs| == cfg.slabs
  {
    if k > 0 {
      SetUpCalm(cfg, k - 1, queues);
      var s := SetUp(cfg, k - 1, queues);
      AddPortIs(cfg, s);
      CalmAppend(s, SetUp(cfg, k, queues), NewPort(cfg, s));
    }
  }

  lemma StockSnoc(ports: seq<Port>, p: Port)
    ensures Stock(ports + [p]) == Stock(ports) + p.cache.nCons
  {
    assert (ports + [p])[..|ports|] == ports;
  }

  lemma SetUpLast(cfg: Config, k: nat, queues: nat) returns (p: Port)
    requires Sane(cfg) && 0 < k && 2 * k <= cfg.slabs
    ensures SetUp(cfg, k, queues).ports == SetUp(cfg, k - 1, queues).ports + [p]
    ensures p.cache.nCons == cfg.per - cfg.fill && p.cache.nProd == 0
  {
    AddPortIs(cfg, SetUp(cfg, k - 1, queues));
    p := NewPort(cfg, SetUp(cfg, k - 1, queues));
  }

  lemma {:induction false} SetUpStock(cfg: Config, k: nat, queues: nat)
    requires Sane(cfg) && 2 * k <= cfg.slabs
    ensures Stock(SetUp(cfg, k, queues).ports) == Times(k, cfg.per - cfg.fill)
    ensures k > 0 ==> SetUp(cfg, k, queues).ports[0].cache.nProd == 0
  {
    if k > 0 {
      SetUpStock(cfg, k - 1, queues);
      var p := SetUpLast(cfg, k, queues);
      StockSnoc(SetUp(cfg, k - 1, queues).ports, p);
    }
  }

  // ----- the exact condition -----

  /** Every trade in every run finds a live slot. */
  ghost predicate TradesSafe(st: Setting)
    requires Usable(st)
  {
    forall t, step :: Reaches(st, t) && Enabled(st.cfg, t, step) && Trades(st.cfg, t, step)
      ==> t.pool.available < LiveSlots(t)
  }

  lemma TooLittleFill(cfg: Config, k: nat)
    requires Sane(cfg) && !EnoughFill(cfg, k)
    ensures k > 0 && Times(k, cfg.per - cfg.fill) > cfg.per
  {
  }

  lemma NotSafeAt(st: Setting, t: System, step: Step)
    requires Usable(st) && Reaches(st, t) && Enabled(st.cfg, t, step) && Trades(st.cfg, t, step)
    requires t.pool.available >= LiveSlots(t)
    ensures !TradesSafe(st)
  {
  }

  /** Before the first step the caches hold more than a producer slab takes. */
  lemma StartOverfills(st: Setting)
    requires Usable(st) && !EnoughFill(st.cfg, st.k)
    ensures var s := Start(st);
            && Good(st, s) && Calm(s, Nowhere) && |s.queues| == st.queues
            && 0 < |s.ports| && s.ports[0].cache.nProd == 0 && Stock(s.ports) > st.cfg.per
  {
    TooLittleFill(st.cfg, st.k);
    SetUpCalm(st.cfg, st.k, st.queues);
    SetUpStock(st.cfg, st.k, st.queues);
    GoodStart(st);
  }

  lemma UnsafeWithout(st: Setting)
    requires Usable(st) && st.queues > 0 && st.cfg.fill > 0 && !EnoughFill(st.cfg, st.k)
    ensures !TradesSafe(st)
  {
    StartOverfills(st);
    var t := Overfill(st, Start(st));
    NotSafeAt(st, t, Complete(0));
  }

  lemma SafeWith(st: Setting)
    requires Usable(st) && EnoughFill(st.cfg, st.k)
    ensures TradesSafe(st)
  {
    forall t, step | Reaches(st, t) && Enabled(st.cfg, t, step) && Trades(st.cfg, t, step)
      ensures t.pool.available < LiveSlots(t)
    {
      var steps :| Run(st.cfg, Start(st), steps, t);
      RunSafe(st.cfg, st.k, st.queues, steps, t);
      TradeHasRoom(st.cfg, t, step);
    }
  }

  lemma SafeWithoutFill(st: Setting)
    requires Usable(st) && st.cfg.fill == 0
    ensures TradesSafe(st)
  {
    forall t, step | Reaches(st, t) && Enabled(st.cfg, t, step)
      ensures !Trades(st.cfg, t, step)
    {
      var steps :| Run(st.cfg, Start(st), steps, t);
      IdleRun(st.cfg, st.k, st.queues, steps, t);
      NothingArrives(st.cfg, t, step);
    }
  }

  /** With at least one queue between the ports, no run ever trades for a stale
      slot exactly when what the caches hold beside the fill rings fits one
      producer slab, or when there are no fill rings. */
  lemma TradesSafeIff(st: Setting)
    requires Usable(st) && st.queues > 0
    ensures TradesSafe(st) <==> st.cfg.fill == 0 || EnoughFill(st.cfg, st.k)
  {
    if st.cfg.fill == 0 {
      SafeWithoutFill(st);
    } else if EnoughFill(st.cfg, st.k) {
      SafeWith(st);
    } else {
      UnsafeWithout(st);
    }
  }
}
