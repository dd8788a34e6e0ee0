/** How the emulator uses the queue: one consumer thread for each queue, which
    reads the fill estimate between its pulls. */
module MpmcUse {
  import opened Common
  import opened MpmcMachine
  import opened MpmcRuns
  import opened MpmcWrap
  import opened MpmcQueue

  predicate InPull(pc: Pc) {
    pc.PullLoad? || pc.PullCheck? || pc.PullReload? || pc.PullClaim? || pc.PullRead? || pc.PullRelease?
  }

  /** Thread `t` alone pulls, and it is between two pulls. */
  ghost predicate ConsumerPaused(s: State, t: nat) {
    && t < |s.threads| && s.threads[t].Idle?
    && forall u :: 0 <= u < |s.threads| ==> !InPull(s.threads[u])
  }

  ghost predicate OnlyPushes(moves: seq<Move>, t: nat) {
    forall i :: 0 <= i < |moves| ==> moves[i].thread != t && !moves[i].action.CallPull?
  }

  lemma {:induction false} HeadStands(s: State, moves: seq<Move>, t: nat)
    requires |s.queue.cells| > 0 && Legal(s, moves)
    requires ConsumerPaused(s, t) && OnlyPushes(moves, t)
    ensures ConsumerPaused(After(s, moves), t)
    ensures After(s, moves).queue.head == s.queue.head
    decreases |moves|
  {
    if moves != [] {
      HeadStands(s, Front(moves), t);
      var b, m := After(s, Front(moves)), Last(moves);
      assert m == moves[|moves| - 1] && !InPull(b.threads[m.thread]);
    }
  }

  lemma DistanceSurvives(a: nat, b: nat)
    requires b <= a + HALF && a < b + WORD
    ensures Sub64(a % WORD, b % WORD) == if b <= a then a - b else a - b + WORD
  {
  }

  /** The consumer's estimate, taken from a tail and a head loaded at different
      times while producers run on, is exact for the time of the tail's load. */
  lemma AvailableExact(s: State, h: History, moves: seq<Move>, t: nat)
    requires Inv(s, h) && Legal(s, moves) && |s.queue.cells| < WORD
    requires ConsumerPaused(s, t) && OnlyPushes(moves, t)
    ensures var late := After(s, moves).queue;
            && Sub64(s.queue.tail % WORD, late.head % WORD) == s.queue.tail - s.queue.head
            && Sub64(late.tail % WORD, s.queue.head % WORD) == late.tail - late.head <= |s.queue.cells|
  {
    HeadStands(s, moves, t);
    RunInv(s, h, moves);
    DistanceSurvives(s.queue.tail, s.queue.head);
    DistanceSurvives(After(s, moves).queue.tail, s.queue.head);
  }

  /** With other consumers the estimate depends on which load comes first. With
      the tail first, it is in range exactly when the head has not passed the
      loaded tail meanwhile, and otherwise wraps to a huge number. */
  lemma AvailableTailFirst(s: State, h: History, moves: seq<Move>)
    requires Inv(s, h) && Legal(s, moves) && |s.queue.cells| < HALF
    requires After(s, moves).queue.head < s.queue.tail + HALF
    ensures Sub64(s.queue.tail % WORD, After(s, moves).queue.head % WORD) <= |s.queue.cells|
            <==> After(s, moves).queue.head <= s.queue.tail
  {
    HeadGrows(s, h, moves);
    DistanceSurvives(s.queue.tail, After(s, moves).queue.head);
  }

  /** With the head first, it counts what was pulled meanwhile as still there,
      and is in range exactly when that is at most what is free at the end. */
  lemma AvailableHeadFirst(s: State, h: History, moves: seq<Move>)
    requires Inv(s, h) && Legal(s, moves)
    requires After(s, moves).queue.tail < s.queue.head + WORD
    ensures var late := After(s, moves).queue;
            var estimate := Sub64(late.tail % WORD, s.queue.head % WORD);
            && estimate == late.tail - late.head + (late.head - s.queue.head)
            && (estimate <= |s.queue.cells| <==>
                late.head - s.queue.head <= |s.queue.cells| - (late.tail - late.head))
  {
    HeadGrows(s, h, moves);
    RunInv(s, h, moves);
    DistanceSurvives(After(s, moves).queue.tail, s.queue.head);
  }

  /** Some run from `s0` ends in `s`. */
  ghost predicate Reaches(s0: State, s: State)
    requires |s0.queue.cells| > 0
  {
    exists moves :: Legal(s0, moves) && After(s0, moves) == s
  }

  lemma OneMove(s0: State, s: State, m: Move, s': State)
    requires |s0.queue.cells| > 0 && |s.queue.cells| > 0 && Reaches(s0, s)
    requires Enabled(s, m) && Next(s, m) == s'
    ensures Reaches(s0, s')
  {
    var moves :| Legal(s0, moves) && After(s0, moves) == s;
    var more := moves + [m];
    assert Front(more) == moves && Last(more) == m;
    assert Legal(s0, more) && After(s0, more) == s';
  }

  /** A queue of two cells with given first cell and ends, a thread that pushes
      and one that pulls. */
  function TwoCells(first: Cell, tail: nat, head: nat, pusher: Pc, puller: Pc): State {
    State(Queue([first, Cell(1, 0)], tail, head), [pusher, puller])
  }

  lemma PushChecks(s0: State)
    requires |s0.queue.cells| > 0 && Reaches(s0, TwoCells(Cell(0, 0), 0, 0, Idle, Idle))
    ensures Reaches(s0, TwoCells(Cell(0, 0), 0, 0, PushCheck(7, 0), Idle))
  {
    var first := Cell(0, 0);
    OneMove(s0, TwoCells(first, 0, 0, Idle, Idle), Move(0, CallPush(7)), TwoCells(first, 0, 0, PushLoad(7), Idle));
    OneMove(s0, TwoCells(first, 0, 0, PushLoad(7), Idle), Move(0, Advance), TwoCells(first, 0, 0, PushCheck(7, 0), Idle));
  }

  lemma PushClaims(s0: State)
    requires |s0.queue.cells| > 0 && Reaches(s0, TwoCells(Cell(0, 0), 0, 0, PushCheck(7, 0), Idle))
    ensures Reaches(s0, TwoCells(Cell(0, 0), 1, 0, PushWrite(7, 0), Idle))
  {
    var first := Cell(0, 0);
    OneMove(s0, TwoCells(first, 0, 0, PushCheck(7, 0), Idle), Move(0, Advance), TwoCells(first, 0, 0, PushClaim(7, 0), Idle));
    OneMove(s0, TwoCells(first, 0, 0, PushClaim(7, 0), Idle), Move(0, Advance), TwoCells(first, 1, 0, PushWrite(7, 0), Idle));
  }

  lemma PushPublishes(s0: State)
    requires |s0.queue.cells| > 0 && Reaches(s0, TwoCells(Cell(0, 0), 1, 0, PushWrite(7, 0), Idle))
    ensures Reaches(s0, TwoCells(Cell(1, 7), 1, 0, Idle, Idle))
  {
    OneMove(s0, TwoCells(Cell(0, 0), 1, 0, PushWrite(7, 0), Idle), Move(0, Advance),
            TwoCells(Cell(0, 7), 1, 0, PushPublish(7, 0), Idle));
    OneMove(s0, TwoCells(Cell(0, 7), 1, 0, PushPublish(7, 0), Idle), Move(0, Advance), TwoCells(Cell(1, 7), 1, 0, Idle, Idle));
  }

  lemma PullChecks(s0: State)
    requires |s0.queue.cells| > 0 && Reaches(s0, TwoCells(Cell(1, 7), 1, 0, Idle, Idle))
    ensures Reaches(s0, TwoCells(Cell(1, 7), 1, 0, Idle, PullCheck(0)))
  {
    var first := Cell(1, 7);
    OneMove(s0, TwoCells(first, 1, 0, Idle, Idle), Move(1, CallPull), TwoCells(first, 1, 0, Idle, PullLoad));
    OneMove(s0, TwoCells(first, 1, 0, Idle, PullLoad), Move(1, Advance), TwoCells(first, 1, 0, Idle, PullCheck(0)));
  }

  lemma PullSeesValue()
    ensures var first := Cell(1, 7);
            Next(TwoCells(first, 1, 0, Idle, PullCheck(0)), Move(1, Advance)) == TwoCells(first, 1, 0, Idle, PullClaim(0))
  {
  }

  lemma PullWins()
    ensures var first := Cell(1, 7);
            Next(TwoCells(first, 1, 0, Idle, PullClaim(0)), Move(1, Advance)) == TwoCells(first, 1, 1, Idle, PullRead(0))
  {
  }

  lemma PullClaims(s0: State)
    requires |s0.queue.cells| > 0 && Reaches(s0, TwoCells(Cell(1, 7), 1, 0, Idle, PullCheck(0)))
    ensures Reaches(s0, TwoCells(Cell(1, 7), 1, 1, Idle, PullRead(0)))
  {
    var a, b := TwoCells(Cell(1, 7), 1, 0, Idle, PullCheck(0)), TwoCells(Cell(1, 7), 1, 0, Idle, PullClaim(0));
    PullSeesValue();
    OneMove(s0, a, Move(1, Advance), b);
    PullWins();
    OneMove(s0, b, Move(1, Advance), TwoCells(Cell(1, 7), 1, 1, Idle, PullRead(0)));
  }

  lemma InitIsTwoCells()
    ensures Init(2, 2) == TwoCells(Cell(0, 0), 0, 0, Idle, Idle)
    ensures Reaches(Init(2, 2), Init(2, 2))
  {
    var s0 := Init(2, 2);
    assert s0.threads == [Idle, Idle] && s0.queue.cells == [Cell(0, 0), Cell(1, 0)];
    assert Legal(s0, []) && After(s0, []) == s0;
  }

  /** A run in which the estimate wraps: the tail is loaded at its start, one
      thread pushes a value, another wins it, and then the head is loaded. */
  lemma EstimateCanWrap()
    ensures exists s :: Reaches(Init(2, 2), s) && Sub64(Init(2, 2).queue.tail % WORD, s.queue.head % WORD) == WORD - 1
  {
    InitIsTwoCells();
    PushChecks(Init(2, 2));
    PushClaims(Init(2, 2));
    PushPublishes(Init(2, 2));
    PullChecks(Init(2, 2));
    PullClaims(Init(2, 2));
    Wrapped(Init(2, 2), TwoCells(Cell(1, 7), 1, 1, Idle, PullRead(0)));
  }

  lemma Wrapped(s0: State, s: State)
    requires |s0.queue.cells| > 0 && Reaches(s0, s) && s0.queue.tail == 0 && s.queue.head == 1
    ensures exists s :: Reaches(s0, s) && Sub64(s0.queue.tail % WORD, s.queue.head % WORD) == WORD - 1
  {
    DistanceSurvives(0, 1);
    assert Sub64(s0.queue.tail % WORD, s.queue.head % WORD) == WORD - 1;
  }

  lemma {:induction false} HeadGrows(s: State, h: History, moves: seq<Move>)
    requires Inv(s, h) && Legal(s, moves)
    ensures s.queue.head <= After(s, moves).queue.head
    decreases |moves|
  {
    if moves != [] {
      HeadGrows(s, h, Front(moves));
      RunInv(s, h, Front(moves));
      NeverBack(After(s, Front(moves)), Seen(s, h, Front(moves)), Last(moves));
    }
  }

  /** When no thread holds a position, the concurrent queue is the bounded FIFO
      of the pushed values that no pull has won. */
  lemma QuiescentIsFifo(s: State, h: History)
    requires Inv(s, h) && Quiescent(s)
    ensures Holds(s.queue, h.pushes[s.queue.head..])
  {
    forall p | s.queue.head <= p < s.queue.head + |s.queue.cells|
      ensures p < s.queue.tail ==> SequenceAt(s.queue, p) == p + 1 && DataAt(s.queue, p) == h.pushes[p]
      ensures p >= s.queue.tail ==> SequenceAt(s.queue, p) == p
    {
      assert SlotOk(s, h, p);
      NoHolders(s, p);
      if p >= |s.queue.cells| { NoHolders(s, p - |s.queue.cells|); }
    }
  }

  /** Conversely, any number of threads may start from a bounded FIFO. */
  lemma FifoStartsRuns(q: Queue, c: seq<Ptr>, before: seq<Ptr>, k: nat)
    requires Holds(q, c) && |before| == q.head
    ensures Inv(State(q, seq(k, _ => Idle)),
                History(before + c, seq(|before|, i requires 0 <= i < |before| => Some(before[i]))))
  {
    var s := State(q, seq(k, _ => Idle));
    var h := History(before + c, seq(|before|, i requires 0 <= i < |before| => Some(before[i])));
    forall p | q.head <= p < q.head + |q.cells|
      ensures SlotOk(s, h, p)
    {
    }
  }
}
