/** Without a fill ring no frame ever arrives, so no frame is ever given back. */
module FrameIdle {
  import opened Slabs
  import opened Frames
  import opened FrameRuns
  import opened FrameSetUp

  predicate PortIdle(p: Port) {
    p.tx == p.comp == p.burst == p.collector == []
  }

  ghost predicate NoneUnderWay(s: System) {
    && (forall i :: 0 <= i < |s.ports| ==> PortIdle(s.ports[i]))
    && (forall q :: 0 <= q < |s.queues| ==> s.queues[q] == [])
  }

  /** With an empty fill ring the receive side of a port is empty as well. */
  lemma NothingArrives(cfg: Config, s: System, step: Step)
    requires Inv(cfg, s) && cfg.fill == 0 && NoneUnderWay(s) && Enabled(cfg, s, step)
    ensures step.Check? || step.EndTake?
    ensures InRange(cfg, s, step)
  {
    var p := s.ports[step.port];
    assert PortOk(cfg, p) && PortIdle(p) && CacheShaped(s.pool, p.cache, cfg.per);
  }

  lemma StaysIdle(cfg: Config, s: System, step: Step)
    requires Sane(cfg) && NoneUnderWay(s) && Enabled(cfg, s, step) && InRange(cfg, s, step)
    requires step.Check? || step.EndTake?
    ensures NoneUnderWay(Next(cfg, s, step))
  {
    assert PortIdle(s.ports[step.port]);
  }

  lemma SetUpIdle(cfg: Config, k: nat, queues: nat)
    requires Sane(cfg) && 2 * k <= cfg.slabs
    ensures NoneUnderWay(SetUp(cfg, k, queues))
  {
    if k > 0 {
      SetUpIdle(cfg, k - 1, queues);
      AddPortIs(cfg, SetUp(cfg, k - 1, queues));
    }
  }

  lemma {:induction false} IdleRun(cfg: Config, k: nat, queues: nat, steps: seq<Step>, t: System)
    requires Sane(cfg) && 2 * k <= cfg.slabs && cfg.fill == 0
    requires Run(cfg, SetUp(cfg, k, queues), steps, t)
    ensures Inv(cfg, t) && NoneUnderWay(t)
    decreases |steps|
  {
    if steps == [] {
      SetUpInv(cfg, k, queues);
      SetUpIdle(cfg, k, queues);
    } else {
      var front, last := steps[..|steps| - 1], steps[|steps| - 1];
      assert RunThen(cfg, SetUp(cfg, k, queues), front, last, t);
      var b :| Run(cfg, SetUp(cfg, k, queues), front, b) && StepsTo(cfg, b, last, t);
      IdleRun(cfg, k, queues, front, b);
      NothingArrives(cfg, b, last);
      StaysIdle(cfg, b, last);
      StepKeeps(cfg, b, last);
    }
  }
}
