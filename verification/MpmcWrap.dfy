/** The queue as the machine runs it: 64-bit positions that wrap around, cells
    found by a mask, and sequence differences read as signed 64-bit numbers.
    It refines the queue on unbounded positions. */
module MpmcWrap {
  import opened Common
  import opened Bits
  import opened Remainders
  import opened MpmcMachine
  import opened MpmcInvariant
  import opened MpmcRuns

  /** 64-bit addition and subtraction. */
  function Add64(a: nat, b: nat): nat {
    (a + b) % WORD
  }

  function Sub64(a: nat, b: nat): nat {
    (a - b) % WORD
  }

  /** A 64-bit word read as a two's complement number. */
  function Signed64(x: nat): int {
    if x < HALF then x else x - WORD
  }

  /** As Effect, in machine arithmetic. */
  function Effect64(q: Queue, pc: Pc, a: Action): (Queue, Pc, Event)
    requires IsPow2(|q.cells|)
  {
    var n := |q.cells|;
    match pc
    case Idle =>
      (match a
       case CallPush(v) => (q, PushLoad(v), Silent)
       case CallPull => (q, PullLoad, Silent)
       case _ => (q, pc, Silent))
    case PushLoad(v) => (q, PushCheck(v, q.tail), Silent)
    case PushCheck(v, pos) =>
      var diff := Signed64(Sub64(q.cells[Masked(pos, n)].sequence, pos));
      if diff == 0 then (q, PushClaim(v, pos), Silent)
      else if diff < 0 then (q, Idle, PushRefused(pos))
      else (q, PushReload(v, pos), Silent)
    case PushReload(v, pos) => (q, PushCheck(v, q.tail), PushRetried(pos, q.tail))
    case PushClaim(v, pos) =>
      if q.tail != pos then (q, PushCheck(v, q.tail), PushRetried(pos, q.tail))
      else if a.Spurious? then (q, PushCheck(v, q.tail), Silent)
      else (q.(tail := Add64(pos, 1)), PushWrite(v, pos), PushClaimed(v))
    case PushWrite(v, pos) =>
      var c := q.cells[Masked(pos, n)];
      (q.(cells := q.cells[Masked(pos, n) := c.(data := v)]), PushPublish(v, pos), Silent)
    case PushPublish(v, pos) =>
      var c := q.cells[Masked(pos, n)];
      (q.(cells := q.cells[Masked(pos, n) := c.(sequence := Add64(pos, 1))]), Idle, Pushed)
    case PullLoad => (q, PullCheck(q.head), Silent)
    case PullCheck(pos) =>
      var diff := Signed64(Sub64(q.cells[Masked(pos, n)].sequence, Add64(pos, 1)));
      if diff == 0 then (q, PullClaim(pos), Silent)
      else if diff < 0 then (q, Idle, PullRefused(pos))
      else (q, PullReload(pos), Silent)
    case PullReload(pos) => (q, PullCheck(q.head), PullRetried(pos, q.head))
    case PullClaim(pos) =>
      if q.head != pos then (q, PullCheck(q.head), PullRetried(pos, q.head))
      else if a.Spurious? then (q, PullCheck(q.head), Silent)
      else (q.(head := Add64(pos, 1)), PullRead(pos), PullClaimed)
    case PullRead(pos) =>
      var got := q.cells[Masked(pos, n)].data;
      (q, PullRelease(pos, got), Took(pos, got))
    case PullRelease(pos, got) =>
      var c := q.cells[Masked(pos, n)];
      (q.(cells := q.cells[Masked(pos, n) := c.(sequence := Add64(pos, n))]), Idle, Pulled(got))
  }

  function Masked(pos: nat, n: nat): (i: nat)
    requires IsPow2(n)
    ensures i < n && i == pos % n
  {
    MaskIsRemainder(pos, n);
    And(pos, n - 1)
  }

  function Next64(s: State, m: Move): State
    requires IsPow2(|s.queue.cells|) && m.thread < |s.threads|
  {
    var (q, pc, _) := Effect64(s.queue, s.threads[m.thread], m.action);
    State(q, s.threads[m.thread := pc])
  }

  function EventOf64(s: State, m: Move): Event
    requires IsPow2(|s.queue.cells|) && m.thread < |s.threads|
  {
    Effect64(s.queue, s.threads[m.thread], m.action).2
  }

  // ----- the machine state that stands for an unbounded one -----

  function WrapPc(pc: Pc): Pc {
    match pc
    case PushCheck(v, pos) => PushCheck(v, pos % WORD)
    case PushReload(v, pos) => PushReload(v, pos % WORD)
    case PushClaim(v, pos) => PushClaim(v, pos % WORD)
    case PushWrite(v, pos) => PushWrite(v, pos % WORD)
    case PushPublish(v, pos) => PushPublish(v, pos % WORD)
    case PullCheck(pos) => PullCheck(pos % WORD)
    case PullReload(pos) => PullReload(pos % WORD)
    case PullClaim(pos) => PullClaim(pos % WORD)
    case PullRead(pos) => PullRead(pos % WORD)
    case PullRelease(pos, got) => PullRelease(pos % WORD, got)
    case _ => pc
  }

  function WrapEvent(e: Event): Event {
    match e
    case Took(pos, got) => Took(pos % WORD, got)
    case PushRefused(pos) => PushRefused(pos % WORD)
    case PullRefused(pos) => PullRefused(pos % WORD)
    case PushRetried(pos, next) => PushRetried(pos % WORD, next % WORD)
    case PullRetried(pos, next) => PullRetried(pos % WORD, next % WORD)
    case _ => e
  }

  function WrapCell(c: Cell): Cell {
    Cell(c.sequence % WORD, c.data)
  }

  function WrapQueue(q: Queue): (w: Queue)
    ensures |w.cells| == |q.cells|
  {
    Queue(seq(|q.cells|, i requires 0 <= i < |q.cells| => WrapCell(q.cells[i])), q.tail % WORD, q.head % WORD)
  }

  function Wrap(s: State): (w: State)
    ensures |w.queue.cells| == |s.queue.cells| && |w.threads| == |s.threads|
  {
    State(WrapQueue(s.queue), seq(|s.threads|, t requires 0 <= t < |s.threads| => WrapPc(s.threads[t])))
  }

  /** The thread's position, if it is in a retry loop, lags its end of the queue
      by less than 2^63 - size. */
  predicate PcRecent(q: Queue, pc: Pc) {
    && (pc.PushCheck? || pc.PushClaim? ==> q.tail + |q.cells| < pc.pos + HALF)
    && (pc.PullCheck? || pc.PullClaim? ==> q.head + |q.cells| < pc.pos + HALF)
  }

  predicate Recent(s: State) {
    && |s.queue.cells| < HALF
    && forall t :: 0 <= t < |s.threads| ==> PcRecent(s.queue, s.threads[t])
  }

  // ----- machine arithmetic on wrapped numbers -----

  lemma AddWraps(a: nat, b: nat)
    ensures Add64(a % WORD, b) == (a + b) % WORD
  {
  }

  lemma DifferenceSurvives(a: nat, b: nat)
    requires b <= a + HALF && a < b + HALF
    ensures Signed64(Sub64(a % WORD, b % WORD)) == a - b
  {
  }

  lemma EqualitySurvives(a: nat, b: nat)
    requires b <= a < b + WORD
    ensures a % WORD == b % WORD <==> a == b
  {
  }

  lemma WordIsPow2()
    ensures IsPow2(WORD)
  {
    assert IsPow2(16) by {
      assert IsPow2(2) && IsPow2(4) && IsPow2(8);
    }
    Pow2Product(16, 16);
    Pow2Product(256, 256);
    Pow2Product(0x1_0000, 0x1_0000);
    Pow2Product(0x1_0000_0000, 0x1_0000_0000);
  }

  lemma CellSurvives(p: nat, n: nat)
    requires IsPow2(n) && n <= WORD
    ensures p % WORD % n == p % n
  {
    WordIsPow2();
    Pow2Divides(n, WORD);
    ModOfMod(p, n, WORD);
  }

  // ----- simulation -----

  /** Sequences stay within a lap behind and a lap past the ends of the queue. */
  lemma SequenceRange(s: State, h: History, pos: nat)
    requires Inv(s, h) && pos <= s.queue.tail
    ensures var n := |s.queue.cells|;
            SequenceAt(s.queue, pos) <= s.queue.head + n
    ensures SequenceAt(s.queue, pos) + |s.queue.cells| >= pos
    ensures pos <= s.queue.head ==> SequenceAt(s.queue, pos) + |s.queue.cells| >= pos + 1
  {
    var n := |s.queue.cells|;
    if pos == s.queue.head + n {
      CellOfLap(s.queue.head, n);
      assert SlotOk(s, h, s.queue.head);
    } else {
      var r := LapIn(s, pos);
      assert SlotOk(s, h, r);
    }
  }

  /** Every step of the machine on a wrapped state is the wrapped step of the
      unbounded queue, with the same outcome. */
  lemma EffectWraps(s: State, h: History, m: Move)
    requires Inv(s, h) && Enabled(s, m)
    requires IsPow2(|s.queue.cells|) && Recent(s)
    ensures var (q, pc, e) := Effect(s.queue, s.threads[m.thread], m.action);
            Effect64(WrapQueue(s.queue), WrapPc(s.threads[m.thread]), m.action) == (WrapQueue(q), WrapPc(pc), WrapEvent(e))
  {
    var q, n, pc := s.queue, |s.queue.cells|, s.threads[m.thread];
    var (q', pc', e) := Effect(q, pc, m.action);
    var w := WrapQueue(q);
    assert ThreadOk(s, h, pc);
    if pc.PushCheck? {
      PushCheckWraps(s, h, m);
    } else if pc.PullCheck? {
      PullCheckWraps(s, h, m);
    } else if pc.PushClaim? || pc.PullClaim? {
      ClaimWraps(s, h, m);
    } else if Critical(pc) {
      CriticalWraps(s, h, m);
    }
  }

  lemma PushCheckWraps(s: State, h: History, m: Move)
    requires Inv(s, h) && Enabled(s, m) && s.threads[m.thread].PushCheck?
    requires IsPow2(|s.queue.cells|) && Recent(s)
    ensures var (q, pc, e) := Effect(s.queue, s.threads[m.thread], m.action);
            Effect64(WrapQueue(s.queue), WrapPc(s.threads[m.thread]), m.action) == (WrapQueue(q), WrapPc(pc), WrapEvent(e))
  {
    var q, n, pc := s.queue, |s.queue.cells|, s.threads[m.thread];
    assert ThreadOk(s, h, pc) && PcRecent(q, pc);
    CellSurvives(pc.pos, n);
    SequenceRange(s, h, pc.pos);
    DifferenceSurvives(SequenceAt(q, pc.pos), pc.pos);
  }

  lemma PullCheckWraps(s: State, h: History, m: Move)
    requires Inv(s, h) && Enabled(s, m) && s.threads[m.thread].PullCheck?
    requires IsPow2(|s.queue.cells|) && Recent(s)
    ensures var (q, pc, e) := Effect(s.queue, s.threads[m.thread], m.action);
            Effect64(WrapQueue(s.queue), WrapPc(s.threads[m.thread]), m.action) == (WrapQueue(q), WrapPc(pc), WrapEvent(e))
  {
    var q, n, pc := s.queue, |s.queue.cells|, s.threads[m.thread];
    assert ThreadOk(s, h, pc) && PcRecent(q, pc);
    CellSurvives(pc.pos, n);
    SequenceRange(s, h, pc.pos);
    AddWraps(pc.pos, 1);
    DifferenceSurvives(SequenceAt(q, pc.pos), pc.pos + 1);
  }

  lemma ClaimWraps(s: State, h: History, m: Move)
    requires Inv(s, h) && Enabled(s, m)
    requires s.threads[m.thread].PushClaim? || s.threads[m.thread].PullClaim?
    requires IsPow2(|s.queue.cells|) && Recent(s)
    ensures var (q, pc, e) := Effect(s.queue, s.threads[m.thread], m.action);
            Effect64(WrapQueue(s.queue), WrapPc(s.threads[m.thread]), m.action) == (WrapQueue(q), WrapPc(pc), WrapEvent(e))
  {
    var q, pc := s.queue, s.threads[m.thread];
    assert ThreadOk(s, h, pc) && PcRecent(q, pc);
    AddWraps(pc.pos, 1);
    EqualitySurvives(if pc.PushClaim? then q.tail else q.head, pc.pos);
  }

  lemma CriticalWraps(s: State, h: History, m: Move)
    requires Inv(s, h) && Enabled(s, m) && Critical(s.threads[m.thread])
    requires IsPow2(|s.queue.cells|) && Recent(s)
    ensures var (q, pc, e) := Effect(s.queue, s.threads[m.thread], m.action);
            Effect64(WrapQueue(s.queue), WrapPc(s.threads[m.thread]), m.action) == (WrapQueue(q), WrapPc(pc), WrapEvent(e))
  {
    HeldCellWraps(s.queue, s.threads[m.thread], m.action);
  }

  /** What a thread does to the cell it holds. */
  lemma HeldCellWraps(q: Queue, pc: Pc, a: Action)
    requires IsPow2(|q.cells|) && |q.cells| < HALF && Critical(pc)
    ensures var (q', pc', e) := Effect(q, pc, a);
            Effect64(WrapQueue(q), WrapPc(pc), a) == (WrapQueue(q'), WrapPc(pc'), WrapEvent(e))
  {
    var n := |q.cells|;
    CellSurvives(pc.pos, n);
    AddWraps(pc.pos, 1);
    AddWraps(pc.pos, n);
    assert Effect64(WrapQueue(q), WrapPc(pc), a).0.cells == WrapQueue(Effect(q, pc, a).0).cells;
  }

  // ----- runs -----

  ghost function After64(s: State, moves: seq<Move>): (r: State)
    requires IsPow2(|s.queue.cells|)
    ensures |r.queue.cells| == |s.queue.cells| && |r.threads| == |s.threads|
    decreases |moves|
  {
    if moves == [] then s
    else
      var b := After64(s, Front(moves));
      if Last(moves).thread < |b.threads| then Next64(b, Last(moves)) else b
  }

  ghost function Trace64(s: State, moves: seq<Move>): seq<Event>
    requires IsPow2(|s.queue.cells|)
    decreases |moves|
  {
    if moves == [] then []
    else
      var b := After64(s, Front(moves));
      Trace64(s, Front(moves)) + (if Last(moves).thread < |b.threads| then [EventOf64(b, Last(moves))] else [])
  }

  function WrapTrace(events: seq<Event>): seq<Event> {
    seq(|events|, i requires 0 <= i < |events| => WrapEvent(events[i]))
  }

  /** Every state of the run before its last is Recent. */
  ghost predicate AlwaysRecent(s: State, moves: seq<Move>)
    requires |s.queue.cells| > 0
    decreases |moves|
  {
    moves == [] || (AlwaysRecent(s, Front(moves)) && Recent(After(s, Front(moves))))
  }

  lemma NextWraps(s: State, h: History, m: Move)
    requires Inv(s, h) && Enabled(s, m)
    requires IsPow2(|s.queue.cells|) && Recent(s)
    ensures Next64(Wrap(s), m) == Wrap(Next(s, m))
    ensures EventOf64(Wrap(s), m) == WrapEvent(EventOf(s, m))
  {
    EffectWraps(s, h, m);
    assert Next64(Wrap(s), m).threads == Wrap(Next(s, m)).threads;
  }

  /** The whole run of the 64-bit queue is the wrapped run of the unbounded one. */
  lemma {:induction false} RunWraps(s: State, h: History, moves: seq<Move>)
    requires Inv(s, h) && Legal(s, moves)
    requires IsPow2(|s.queue.cells|) && AlwaysRecent(s, moves)
    ensures After64(Wrap(s), moves) == Wrap(After(s, moves))
    ensures Trace64(Wrap(s), moves) == WrapTrace(Trace(s, moves))
    decreases |moves|
  {
    if moves != [] {
      RunWraps(s, h, Front(moves));
      RunInv(s, h, Front(moves));
      NextWraps(After(s, Front(moves)), Seen(s, h, Front(moves)), Last(moves));
    }
  }

  /** Both queues start in the same state. */
  lemma InitWraps(size: nat, k: nat)
    requires size < HALF
    ensures Wrap(Init(size, k)) == Init(size, k)
  {
    var s := Init(size, k);
    assert Wrap(s).queue.cells == s.queue.cells;
    assert Wrap(s).threads == s.threads;
  }
}
