/** What becomes of a call: when it moves on, and what a thread does that runs
    alone from a state in which no other holds a position. */
module MpmcAlone {
  import opened Common
  import opened MpmcMachine
  import opened MpmcInvariant
  import opened MpmcRuns
  import opened MpmcQueue
  import opened MpmcUse

  // ----- one access -----

  /** A push that checks the cell of the current tail goes on to claim it exactly
      when the queue is not full and the cell is not still being emptied. */
  lemma PushGoesOnIff(s: State, h: History, m: Move)
    requires Inv(s, h) && Enabled(s, m) && s.threads[m.thread].PushCheck?
    requires s.threads[m.thread].pos == s.queue.tail
    ensures var pc, q := s.threads[m.thread], s.queue;
            Next(s, m).threads[m.thread] == PushClaim(pc.v, pc.pos) <==>
              q.tail < q.head + |q.cells| && !(q.tail >= |q.cells| && HasReader(s, q.tail - |q.cells|))
  {
    PushRefusedIff(s, h, m);
    PushCheckFacts(s, h, s.queue.tail);
  }

  /** A claim at the current tail wins it unless it fails spuriously, and no other claim does. */
  lemma PushWinsIff(s: State, m: Move)
    requires |s.queue.cells| > 0 && Enabled(s, m) && s.threads[m.thread].PushClaim?
    ensures var pc, q := s.threads[m.thread], s.queue;
            && (EventOf(s, m).PushClaimed? <==> q.tail == pc.pos && !m.action.Spurious?)
            && (EventOf(s, m).PushClaimed? ==>
                  EventOf(s, m).v == pc.v && Next(s, m).threads[m.thread] == PushWrite(pc.v, pc.pos)
                  && Next(s, m).queue == q.(tail := q.tail + 1))
  {
  }

  /** A pull that checks the cell of the current head goes on to claim it exactly
      when a value is published there. */
  lemma PullGoesOnIff(s: State, h: History, m: Move)
    requires Inv(s, h) && Enabled(s, m) && s.threads[m.thread].PullCheck?
    requires s.threads[m.thread].pos == s.queue.head
    ensures var pc, q := s.threads[m.thread], s.queue;
            Next(s, m).threads[m.thread] == PullClaim(pc.pos) <==> q.head < q.tail && !HasWriter(s, q.head)
  {
    PullRefusedIff(s, h, m);
    PullCheckFacts(s, h, s.queue.head);
  }

  lemma PullWinsIff(s: State, m: Move)
    requires |s.queue.cells| > 0 && Enabled(s, m) && s.threads[m.thread].PullClaim?
    ensures var pc, q := s.threads[m.thread], s.queue;
            && (EventOf(s, m).PullClaimed? <==> q.head == pc.pos && !m.action.Spurious?)
            && (EventOf(s, m).PullClaimed? ==>
                  Next(s, m).threads[m.thread] == PullRead(pc.pos) && Next(s, m).queue == q.(head := q.head + 1))
  {
  }

  // ----- one thread alone -----

  /** A call and k accesses of thread t. */
  function Moves(t: nat, call: Action, k: nat): seq<Move> {
    if k == 0 then [Move(t, call)] else Moves(t, call, k - 1) + [Move(t, Advance)]
  }

  /** The queue, the thread and the events after an idle thread has called and
      made k accesses, no other thread moving. */
  function Alone(q: Queue, call: Action, k: nat): (r: (Queue, Pc, seq<Event>))
    requires |q.cells| > 0
    ensures |r.0.cells| == |q.cells|
  {
    if k == 0 then
      var (q1, pc, e) := Effect(q, Idle, call);
      (q1, pc, [e])
    else
      var (q1, pc, es) := Alone(q, call, k - 1);
      var (q2, pc', e) := Effect(q1, pc, Advance);
      (q2, pc', es + [e])
  }

  /** The thread is inside its call before each of the k accesses. */
  predicate Busy(q: Queue, call: Action, k: nat)
    requires |q.cells| > 0
  {
    k == 0 || (Busy(q, call, k - 1) && !Alone(q, call, k - 1).1.Idle?)
  }

  function ObserveAll(h: History, es: seq<Event>): History {
    if es == [] then h else Observe(ObserveAll(h, es[..|es| - 1]), es[|es| - 1])
  }

  lemma OneMoreMove(s: State, h: History, moves: seq<Move>, m: Move)
    requires |s.queue.cells| > 0 && Legal(s, moves) && Enabled(After(s, moves), m)
    ensures var all, b := moves + [m], After(s, moves);
            && Legal(s, all) && After(s, all) == Next(b, m)
            && Trace(s, all) == Trace(s, moves) + [EventOf(b, m)]
            && Seen(s, h, all) == Observe(Seen(s, h, moves), EventOf(b, m))
  {
    assert Front(moves + [m]) == moves && Last(moves + [m]) == m;
  }

  lemma OneMoreEvent(h: History, es: seq<Event>, e: Event)
    ensures ObserveAll(h, es + [e]) == Observe(ObserveAll(h, es), e)
  {
    assert (es + [e])[..|es|] == es;
  }

  /** The state after thread t has moved alone. */
  function Moved(s: State, t: nat, call: Action, k: nat): State
    requires |s.queue.cells| > 0 && t < |s.threads|
  {
    State(Alone(s.queue, call, k).0, s.threads[t := Alone(s.queue, call, k).1])
  }

  lemma MovedOn(s: State, t: nat, call: Action, k: nat)
    requires |s.queue.cells| > 0 && t < |s.threads| && k > 0
    requires !Alone(s.queue, call, k - 1).1.Idle?
    ensures var b, m := Moved(s, t, call, k - 1), Move(t, Advance);
            && Enabled(b, m) && Next(b, m) == Moved(s, t, call, k)
            && Alone(s.queue, call, k).2 == Alone(s.queue, call, k - 1).2 + [EventOf(b, m)]
  {
    var b := Moved(s, t, call, k - 1);
    assert Next(b, Move(t, Advance)).threads == s.threads[t := Alone(s.queue, call, k).1];
  }

  /** Moving alone is a run, with those events. */
  lemma {:induction false} AloneRun(s: State, h: History, t: nat, call: Action, k: nat)
    requires |s.queue.cells| > 0 && t < |s.threads| && s.threads[t].Idle?
    requires (call.CallPush? || call.CallPull?) && Busy(s.queue, call, k)
    ensures var moves, es := Moves(t, call, k), Alone(s.queue, call, k).2;
            && Legal(s, moves) && After(s, moves) == Moved(s, t, call, k)
            && Trace(s, moves) == es && Seen(s, h, moves) == ObserveAll(h, es)
  {
    if k == 0 {
      CallRun(s, h, t, call);
    } else {
      AloneRun(s, h, t, call, k - 1);
      MovedOn(s, t, call, k);
      OneMoreMove(s, h, Moves(t, call, k - 1), Move(t, Advance));
      OneMoreEvent(h, Alone(s.queue, call, k - 1).2, EventOf(Moved(s, t, call, k - 1), Move(t, Advance)));
    }
  }

  lemma CallRun(s: State, h: History, t: nat, call: Action)
    requires |s.queue.cells| > 0 && t < |s.threads| && s.threads[t].Idle?
    requires call.CallPush? || call.CallPull?
    ensures var moves, es := Moves(t, call, 0), Alone(s.queue, call, 0).2;
            && Legal(s, moves) && After(s, moves) == Moved(s, t, call, 0)
            && Trace(s, moves) == es && Seen(s, h, moves) == ObserveAll(h, es)
  {
    var m := Move(t, call);
    OneMoreMove(s, h, [], m);
    OneMoreEvent(h, [], EventOf(s, m));
    assert [] + [m] == Moves(t, call, 0) && [] + [EventOf(s, m)] == Alone(s.queue, call, 0).2;
  }

  // ----- a whole push and a whole pull -----

  lemma AloneStep(q: Queue, call: Action, k: nat, q1: Queue, pc: Pc, es: seq<Event>, q2: Queue, pc2: Pc, e: Event)
    requires |q.cells| > 0 && Busy(q, call, k) && |q1.cells| > 0
    requires Alone(q, call, k) == (q1, pc, es) && !pc.Idle? && Effect(q1, pc, Advance) == (q2, pc2, e)
    ensures Busy(q, call, k + 1) && Alone(q, call, k + 1) == (q2, pc2, es + [e])
  {
  }

  function PushLog(v: Ptr): seq<Event> {
    [Silent] + [Silent] + [Silent] + [PushClaimed(v)] + [Silent] + [Pushed]
  }

  function PullLog(pos: nat, got: Ptr): seq<Event> {
    [Silent] + [Silent] + [Silent] + [PullClaimed] + [Took(pos, got)] + [Pulled(got)]
  }

  /** Alone on a queue that is not full, a push wins the tail, stores its value
      and returns: five accesses, and the value is the last one held. */
  lemma PushAlone(q: Queue, c: seq<Ptr>, v: Ptr, k: nat) returns (done: Queue)
    requires Holds(q, c) && |c| < |q.cells| && k == 5
    ensures Busy(q, CallPush(v), k)
    ensures Alone(q, CallPush(v), k) == (done, Idle, PushLog(v))
    ensures Holds(done, c + [v]) && done.head == q.head
  {
    var i, cell := q.tail % |q.cells|, Cell(q.tail + 1, v);
    assert SequenceAt(q, q.tail) == q.tail;
    var won := q.(tail := q.tail + 1);
    var written := won.(cells := q.cells[i := q.cells[i].(data := v)]);
    done := Queue(q.cells[i := cell], q.tail + 1, q.head);
    assert written.cells[i := written.cells[i].(sequence := q.tail + 1)] == done.cells;
    var es := [Silent];
    AloneStep(q, CallPush(v), 0, q, PushLoad(v), es, q, PushCheck(v, q.tail), Silent);
    AloneStep(q, CallPush(v), 1, q, PushCheck(v, q.tail), es + [Silent], q, PushClaim(v, q.tail), Silent);
    es := es + [Silent] + [Silent];
    AloneStep(q, CallPush(v), 2, q, PushClaim(v, q.tail), es, won, PushWrite(v, q.tail), PushClaimed(v));
    es := es + [PushClaimed(v)];
    AloneStep(q, CallPush(v), 3, won, PushWrite(v, q.tail), es, written, PushPublish(v, q.tail), Silent);
    es := es + [Silent];
    AloneStep(q, CallPush(v), 4, written, PushPublish(v, q.tail), es, done, Idle, Pushed);
    HoldsPushed(q, c, v);
  }

  /** Alone on a queue that is not empty, a pull wins the head, takes the first
      value and returns it: five accesses, and the others are held. */
  lemma PullAlone(q: Queue, c: seq<Ptr>, k: nat) returns (done: Queue)
    requires Holds(q, c) && c != [] && k == 5
    ensures Busy(q, CallPull, k)
    ensures Alone(q, CallPull, k) == (done, Idle, PullLog(q.head, c[0]))
    ensures Holds(done, c[1..]) && done.tail == q.tail
  {
    var i, cell := q.head % |q.cells|, Cell(q.head + |q.cells|, c[0]);
    assert SequenceAt(q, q.head) == q.head + 1 && DataAt(q, q.head) == c[0];
    var won := q.(head := q.head + 1);
    done := Queue(q.cells[i := cell], q.tail, q.head + 1);
    assert won.cells[i := won.cells[i].(sequence := q.head + |q.cells|)] == done.cells;
    var es := [Silent];
    AloneStep(q, CallPull, 0, q, PullLoad, es, q, PullCheck(q.head), Silent);
    AloneStep(q, CallPull, 1, q, PullCheck(q.head), es + [Silent], q, PullClaim(q.head), Silent);
    es := es + [Silent] + [Silent];
    AloneStep(q, CallPull, 2, q, PullClaim(q.head), es, won, PullRead(q.head), PullClaimed);
    es := es + [PullClaimed];
    AloneStep(q, CallPull, 3, won, PullRead(q.head), es, won, PullRelease(q.head, c[0]), Took(q.head, c[0]));
    es := es + [Took(q.head, c[0])];
    AloneStep(q, CallPull, 4, won, PullRelease(q.head, c[0]), es, done, Idle, Pulled(c[0]));
    HoldsPulled(q, c);
  }

  /** The moves of one call of thread t that takes k accesses. */
  predicate IsCall(moves: seq<Move>, t: nat, call: Action, k: nat) {
    |moves| == k + 1 && moves[0] == Move(t, call) && forall i :: 0 < i <= k ==> moves[i] == Move(t, Advance)
  }

  lemma {:induction false} MovesAreCall(t: nat, call: Action, k: nat)
    ensures IsCall(Moves(t, call, k), t, call, k)
  {
    if k > 0 {
      MovesAreCall(t, call, k - 1);
    }
  }

  lemma AloneReturns(s: State, h: History, t: nat, call: Action, k: nat, r: Queue, es: seq<Event>) returns (moves: seq<Move>)
    requires |s.queue.cells| > 0 && t < |s.threads| && s.threads[t].Idle?
    requires (call.CallPush? || call.CallPull?) && Busy(s.queue, call, k) && Alone(s.queue, call, k) == (r, Idle, es)
    ensures IsCall(moves, t, call, k) && Legal(s, moves) && Trace(s, moves) == es
    ensures After(s, moves) == State(r, s.threads) && Seen(s, h, moves) == ObserveAll(h, es)
  {
    moves := Moves(t, call, k);
    MovesAreCall(t, call, k);
    AloneRun(s, h, t, call, k);
    assert s.threads[t := Idle] == s.threads;
  }

  /** In any reachable state with no position held, an idle thread's push succeeds
      in five accesses if the queue is not full, wherever the others are. */
  lemma PushSucceeds(s: State, h: History, t: nat, v: Ptr) returns (moves: seq<Move>)
    requires Inv(s, h) && Quiescent(s) && t < |s.threads| && s.threads[t].Idle?
    requires s.queue.tail < s.queue.head + |s.queue.cells|
    ensures IsCall(moves, t, CallPush(v), 5) && Legal(s, moves) && Trace(s, moves) == PushLog(v)
    ensures Holds(After(s, moves).queue, h.pushes[s.queue.head..] + [v]) && After(s, moves).threads == s.threads
    ensures Seen(s, h, moves) == h.(pushes := h.pushes + [v])
  {
    QuiescentIsFifo(s, h);
    var k: nat :| k == 5;
    var r := PushAlone(s.queue, h.pushes[s.queue.head..], v, k);
    moves := AloneReturns(s, h, t, CallPush(v), k, r, PushLog(v));
    PushObserved(h, v);
  }

  lemma ObserveThree(h: History)
    ensures ObserveAll(h, [Silent] + [Silent] + [Silent]) == h
  {
    OneMoreEvent(h, [], Silent);
    assert [] + [Silent] == [Silent];
    OneMoreEvent(h, [Silent], Silent);
    OneMoreEvent(h, [Silent] + [Silent], Silent);
  }

  lemma PushObserved(h: History, v: Ptr)
    ensures ObserveAll(h, PushLog(v)) == h.(pushes := h.pushes + [v])
  {
    var es := [Silent] + [Silent] + [Silent];
    ObserveThree(h);
    OneMoreEvent(h, es, PushClaimed(v));
    OneMoreEvent(h, es + [PushClaimed(v)], Silent);
    OneMoreEvent(h, es + [PushClaimed(v)] + [Silent], Pushed);
  }

  /** And a pull takes the first value if the queue is not empty. */
  lemma PullSucceeds(s: State, h: History, t: nat) returns (moves: seq<Move>)
    requires Inv(s, h) && Quiescent(s) && t < |s.threads| && s.threads[t].Idle?
    requires s.queue.head < s.queue.tail
    ensures IsCall(moves, t, CallPull, 5) && Legal(s, moves)
    ensures Trace(s, moves) == PullLog(s.queue.head, h.pushes[s.queue.head])
    ensures Holds(After(s, moves).queue, h.pushes[s.queue.head + 1..]) && After(s, moves).threads == s.threads
    ensures Seen(s, h, moves) == h.(pulls := h.pulls + [Some(h.pushes[s.queue.head])])
  {
    QuiescentIsFifo(s, h);
    var c := h.pushes[s.queue.head..];
    assert c[1..] == h.pushes[s.queue.head + 1..] && c[0] == h.pushes[s.queue.head];
    var k: nat :| k == 5;
    var r := PullAlone(s.queue, c, k);
    moves := AloneReturns(s, h, t, CallPull, k, r, PullLog(s.queue.head, c[0]));
    PullObserved(h, c[0]);
  }

  lemma PullObserved(h: History, got: Ptr)
    ensures ObserveAll(h, PullLog(|h.pulls|, got)) == h.(pulls := h.pulls + [Some(got)])
  {
    var es := [Silent] + [Silent] + [Silent];
    ObserveThree(h);
    OneMoreEvent(h, es, PullClaimed);
    OneMoreEvent(h, es + [PullClaimed], Took(|h.pulls|, got));
    OneMoreEvent(h, es + [PullClaimed] + [Took(|h.pulls|, got)], Pulled(got));
  }
}
