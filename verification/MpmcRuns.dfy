/** What holds over whole runs of the queue: order, exclusion and refusals. */
module MpmcRuns {
  import opened Common
  import opened Remainders
  import opened MpmcMachine
  import opened MpmcInvariant

  function Last(moves: seq<Move>): Move
    requires moves != []
  {
    moves[|moves| - 1]
  }

  function Front(moves: seq<Move>): seq<Move>
    requires moves != []
  {
    moves[..|moves| - 1]
  }

  /** `moves` is a run from `s`: each thread moves only as it may. */
  ghost predicate Legal(s: State, moves: seq<Move>)
    requires |s.queue.cells| > 0
    decreases |moves|
  {
    moves == [] || (Legal(s, Front(moves)) && Enabled(After(s, Front(moves)), Last(moves)))
  }

  ghost function After(s: State, moves: seq<Move>): (r: State)
    requires |s.queue.cells| > 0
    ensures |r.queue.cells| == |s.queue.cells| && |r.threads| == |s.threads|
    decreases |moves|
  {
    if moves == [] then s
    else
      var b := After(s, Front(moves));
      if Last(moves).thread < |b.threads| then Next(b, Last(moves)) else b
  }

  ghost function Seen(s: State, h: History, moves: seq<Move>): History
    requires |s.queue.cells| > 0
    decreases |moves|
  {
    if moves == [] then h
    else
      var b := After(s, Front(moves));
      var seen := Seen(s, h, Front(moves));
      if Last(moves).thread < |b.threads| then Observe(seen, EventOf(b, Last(moves))) else seen
  }

  /** The events of a run, in order. */
  ghost function Trace(s: State, moves: seq<Move>): seq<Event>
    requires |s.queue.cells| > 0
    decreases |moves|
  {
    if moves == [] then []
    else
      var b := After(s, Front(moves));
      Trace(s, Front(moves)) + (if Last(moves).thread < |b.threads| then [EventOf(b, Last(moves))] else [])
  }

  lemma {:induction false} RunInv(s: State, h: History, moves: seq<Move>)
    requires Inv(s, h) && Legal(s, moves)
    ensures Inv(After(s, moves), Seen(s, h, moves))
    decreases |moves|
  {
    if moves != [] {
      RunInv(s, h, Front(moves));
      StepInv(After(s, Front(moves)), Seen(s, h, Front(moves)), Last(moves));
    }
  }

  // ----- order -----

  ghost predicate Quiescent(s: State) {
    forall t :: 0 <= t < |s.threads| ==> !Critical(s.threads[t])
  }

  lemma NoHolders(s: State, p: nat)
    requires Quiescent(s)
    ensures !HasWriter(s, p) && !HasReader(s, p)
  {
    forall t: nat
      ensures !WriterAt(s, t, p) && !ReaderAt(s, t, p)
    {
      assert t < |s.threads| ==> !Critical(s.threads[t]);
    }
  }

  /** In every run, the pull that won the head i-th takes the value of the push
      that won the tail i-th, or has not taken one yet. */
  lemma FirstInFirstOut(size: nat, k: nat, moves: seq<Move>)
    requires size >= 2 && Legal(Init(size, k), moves)
    ensures var h := Seen(Init(size, k), History([], []), moves);
            && |h.pulls| <= |h.pushes| <= |h.pulls| + size
            && forall i :: 0 <= i < |h.pulls| && h.pulls[i].Some? ==> h.pulls[i].value == h.pushes[i]
  {
    var s0, h0 := Init(size, k), History([], []);
    InitInv(size, k);
    RunInv(s0, h0, moves);
    var s, h := After(s0, moves), Seen(s0, h0, moves);
    forall i | 0 <= i < |h.pulls| && h.pulls[i].Some?
      ensures h.pulls[i].value == h.pushes[i]
    {
      assert TookOk(s, h, i);
    }
  }

  /** When no thread holds a position, every winning pull has taken its value:
      the pulled values are a prefix of the pushed ones and the cells between
      head and tail hold the rest, so nothing is lost. */
  lemma NothingLost(size: nat, k: nat, moves: seq<Move>)
    requires size >= 2 && Legal(Init(size, k), moves)
    requires Quiescent(After(Init(size, k), moves))
    ensures var s, h := After(Init(size, k), moves), Seen(Init(size, k), History([], []), moves);
            && s.queue.head == |h.pulls| <= |h.pushes| == s.queue.tail
            && (forall i :: 0 <= i < |h.pulls| ==> h.pulls[i] == Some(h.pushes[i]))
            && (forall i :: s.queue.head <= i < s.queue.tail ==> DataAt(s.queue, i) == h.pushes[i])
  {
    var s0, h0 := Init(size, k), History([], []);
    InitInv(size, k);
    RunInv(s0, h0, moves);
    var s, h := After(s0, moves), Seen(s0, h0, moves);
    forall i | 0 <= i < |h.pulls|
      ensures h.pulls[i] == Some(h.pushes[i])
    {
      assert TookOk(s, h, i);
    }
    forall i | s.queue.head <= i < s.queue.tail
      ensures DataAt(s.queue, i) == h.pushes[i]
    {
      assert SlotOk(s, h, i);
      NoHolders(s, i);
    }
  }

  /** What a pull returns is what the log says it took. */
  lemma ReturnsWhatItTook(s: State, h: History, m: Move)
    requires Inv(s, h) && Enabled(s, m) && EventOf(s, m).Pulled?
    ensures var pos := s.threads[m.thread].pos;
            && pos < |h.pulls| && pos < |h.pushes|
            && h.pulls[pos] == Some(EventOf(s, m).got) && EventOf(s, m).got == h.pushes[pos]
  {
    var pc := s.threads[m.thread];
    assert ThreadOk(s, h, pc);
    assert TookOk(s, h, pc.pos);
    assert ReaderAt(s, m.thread, pc.pos);
    if h.pulls[pc.pos] == None {
      var u :| 0 <= u < |s.threads| && s.threads[u] == PullRead(pc.pos);
      assert ReaderAt(s, u, pc.pos);
      assert false;
    }
  }

  // ----- exclusion -----

  function CellHeld(s: State, t: nat): nat
    requires |s.queue.cells| > 0 && t < |s.threads| && Critical(s.threads[t])
  {
    s.threads[t].pos % |s.queue.cells|
  }

  /** Between winning a position and storing its sequence, a thread is the only
      one that holds the cell. */
  lemma HoldersHaveDistinctCells(s: State, h: History, t: nat, u: nat)
    requires Inv(s, h) && t < |s.threads| && u < |s.threads| && t != u
    requires Critical(s.threads[t]) && Critical(s.threads[u])
    ensures CellHeld(s, t) != CellHeld(s, u)
  {
    Apart(s, h, t, u);
    WindowCells(s, s.threads[t].pos, s.threads[u].pos);
  }

  /** A held cell is neither written nor read by any other thread. */
  lemma OnlyHolderTouches(s: State, h: History, t: nat, m: Move)
    requires Inv(s, h) && Enabled(s, m)
    requires t < |s.threads| && t != m.thread && Critical(s.threads[t])
    ensures Next(s, m).queue.cells[CellHeld(s, t)] == s.queue.cells[CellHeld(s, t)]
    ensures EventOf(s, m).Took? ==> EventOf(s, m).pos % |s.queue.cells| != CellHeld(s, t)
  {
    if Critical(s.threads[m.thread]) {
      HoldersHaveDistinctCells(s, h, t, m.thread);
    }
  }

  /** A cell changes only under a thread that holds it. */
  lemma ChangeNeedsHolder(s: State, h: History, m: Move, i: nat)
    requires Inv(s, h) && Enabled(s, m) && i < |s.queue.cells|
    requires Next(s, m).queue.cells[i] != s.queue.cells[i]
    ensures Critical(s.threads[m.thread]) && CellHeld(s, m.thread) == i
  {
  }

  /** Positions and sequences never go back. */
  lemma NeverBack(s: State, h: History, m: Move)
    requires Inv(s, h) && Enabled(s, m)
    ensures var q, q' := s.queue, Next(s, m).queue;
            && q.head <= q'.head <= q'.tail <= q'.head + |q'.cells| && q.tail <= q'.tail
            && forall i :: 0 <= i < |q.cells| ==> q.cells[i].sequence <= q'.cells[i].sequence
  {
    StepInv(s, h, m);
    assert ThreadOk(s, h, s.threads[m.thread]);
  }

  // ----- refusals -----

  /** A push returns 0 exactly when its position is the current tail and the
      cell one lap back is still full or still being emptied. */
  lemma PushRefusedIff(s: State, h: History, m: Move)
    requires Inv(s, h) && Enabled(s, m) && s.threads[m.thread].PushCheck?
    ensures var pos, q := s.threads[m.thread].pos, s.queue;
            EventOf(s, m).PushRefused? <==>
              pos == q.tail && (q.tail == q.head + |q.cells| || (q.tail >= |q.cells| && HasReader(s, q.tail - |q.cells|)))
  {
    var pos, q := s.threads[m.thread].pos, s.queue;
    assert ThreadOk(s, h, s.threads[m.thread]);
    PushCheckFacts(s, h, pos);
    if pos == q.tail {
      if q.tail == q.head + |q.cells| {
        CellOfLap(q.head, |q.cells|);
        assert SlotOk(s, h, q.head);
      } else {
        assert SlotOk(s, h, pos);
        if pos >= |q.cells| && HasReader(s, pos - |q.cells|) {
          var u: nat :| ReaderAt(s, u, pos - |q.cells|);
          assert ThreadOk(s, h, s.threads[u]);
          CellOfLap(pos - |q.cells|, |q.cells|);
        }
      }
    }
  }

  /** A pull returns 0 exactly when its position is the current head and no
      value is published there: nothing was pushed, or the push is unfinished. */
  lemma PullRefusedIff(s: State, h: History, m: Move)
    requires Inv(s, h) && Enabled(s, m) && s.threads[m.thread].PullCheck?
    ensures var pos, q := s.threads[m.thread].pos, s.queue;
            EventOf(s, m).PullRefused? <==> pos == q.head && (q.head == q.tail || HasWriter(s, q.head))
  {
    var pos, q := s.threads[m.thread].pos, s.queue;
    assert ThreadOk(s, h, s.threads[m.thread]);
    PullCheckFacts(s, h, pos);
    assert SlotOk(s, h, q.head);
    if HasWriter(s, q.head) {
      var u: nat :| WriterAt(s, u, q.head);
      assert ThreadOk(s, h, s.threads[u]);
    }
  }
}
