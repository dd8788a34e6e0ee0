/** Every step of every interleaving keeps the invariant of the queue. */
module MpmcInvariant {
  import opened Common
  import opened Remainders
  import opened MpmcMachine

  predicate Critical(pc: Pc) {
    pc.PushWrite? || pc.PushPublish? || pc.PullRead? || pc.PullRelease?
  }

  lemma InitInv(size: nat, k: nat)
    requires size >= 2
    ensures Inv(Init(size, k), History([], []))
  {
    var s, h := Init(size, k), History([], []);
    forall p | 0 <= p < size
      ensures SlotOk(s, h, p)
    {
      Small(p, size);
    }
  }

  /** Two positions of the window [head, head + size) never share a cell. */
  lemma WindowCells(s: State, p: nat, q: nat)
    requires |s.queue.cells| > 0
    requires p != q && p < q + |s.queue.cells| && q < p + |s.queue.cells|
    ensures p % |s.queue.cells| != q % |s.queue.cells|
  {
    if p < q {
      CellsDiffer(p, q, |s.queue.cells|);
    } else {
      CellsDiffer(q, p, |s.queue.cells|);
    }
  }

  /** How the holders of positions change when only thread `t` moves. */
  lemma Holders(s: State, s': State, t: nat)
    requires t < |s.threads| == |s'.threads|
    requires s'.threads == s.threads[t := s'.threads[t]]
    requires Exclusive(s)
    requires forall u, p :: u != t && WriterAt(s, u, p) ==> !Writing(s'.threads[t], p)
    requires forall u, p :: u != t && ReaderAt(s, u, p) ==> !Reading(s'.threads[t], p)
    ensures Exclusive(s')
    ensures forall p :: HasWriter(s, p) && !Writing(s.threads[t], p) ==> HasWriter(s', p)
    ensures forall p :: HasReader(s, p) && !Reading(s.threads[t], p) ==> HasReader(s', p)
    ensures forall p :: Writing(s'.threads[t], p) ==> HasWriter(s', p)
    ensures forall p :: Reading(s'.threads[t], p) ==> HasReader(s', p)
  {
    forall u, v, p | WriterAt(s', u, p) && WriterAt(s', v, p)
      ensures u == v
    {
      assert u != t ==> WriterAt(s, u, p);
      assert v != t ==> WriterAt(s, v, p);
    }
    forall u, v, p | ReaderAt(s', u, p) && ReaderAt(s', v, p)
      ensures u == v
    {
      assert u != t ==> ReaderAt(s, u, p);
      assert v != t ==> ReaderAt(s, v, p);
    }
    forall p | HasWriter(s, p) && !Writing(s.threads[t], p)
      ensures HasWriter(s', p)
    {
      var u :| WriterAt(s, u, p);
      assert WriterAt(s', u, p);
    }
    forall p | HasReader(s, p) && !Reading(s.threads[t], p)
      ensures HasReader(s', p)
    {
      var u :| ReaderAt(s, u, p);
      assert ReaderAt(s', u, p);
    }
    forall p
      ensures Writing(s'.threads[t], p) ==> HasWriter(s', p)
      ensures Reading(s'.threads[t], p) ==> HasReader(s', p)
    {
      assert Writing(s'.threads[t], p) ==> WriterAt(s', t, p);
      assert Reading(s'.threads[t], p) ==> ReaderAt(s', t, p);
    }
  }

  /** The log of pulls stays right when no thread stops being about to read. */
  lemma TookKept(s: State, h: History, s': State, h': History, t: nat)
    requires Inv(s, h)
    requires t < |s.threads| == |s'.threads|
    requires s'.threads == s.threads[t := s'.threads[t]]
    requires s.threads[t].PullRead? ==> s'.threads[t] == s.threads[t]
    requires h.pulls <= h'.pulls && h.pushes <= h'.pushes
    ensures forall p :: 0 <= p < |h.pulls| ==> TookOk(s', h', p)
  {
    forall p | 0 <= p < |h.pulls|
      ensures TookOk(s', h', p)
    {
      assert TookOk(s, h, p);
      if h.pulls[p] == None {
        var u :| 0 <= u < |s.threads| && s.threads[u] == PullRead(p);
        assert s'.threads[u] == PullRead(p);
      }
    }
  }

  /** A step that changes neither the queue nor who holds a position. */
  lemma LocalStep(s: State, h: History, t: nat, pc: Pc)
    requires Inv(s, h) && t < |s.threads|
    requires !Critical(s.threads[t]) && !Critical(pc)
    requires ThreadOk(s, h, pc)
    ensures Inv(s.(threads := s.threads[t := pc]), h)
  {
    var s' := s.(threads := s.threads[t := pc]);
    Holders(s, s', t);
    TookKept(s, h, s', h, t);
    forall u | 0 <= u < |s'.threads|
      ensures ThreadOk(s', h, s'.threads[u])
    {
      assert ThreadOk(s, h, s.threads[u]);
    }
    forall p | s'.queue.head <= p < s'.queue.head + |s'.queue.cells|
      ensures SlotOk(s', h, p)
    {
      assert SlotOk(s, h, p);
    }
  }

  /** The position of the window that lies in the cell of p. */
  lemma LapIn(s: State, p: nat) returns (r: nat)
    requires |s.queue.cells| > 0 && p < s.queue.head + |s.queue.cells|
    ensures s.queue.head <= r < s.queue.head + |s.queue.cells|
    ensures r % |s.queue.cells| == p % |s.queue.cells|
    ensures p < s.queue.head ==> r >= p + |s.queue.cells|
    ensures p >= s.queue.head ==> r == p
    decreases s.queue.head + |s.queue.cells| - p
  {
    if p >= s.queue.head {
      r := p;
    } else {
      CellOfLap(p, |s.queue.cells|);
      r := LapIn(s, p + |s.queue.cells|);
    }
  }

  /** What the sequence of the cell of `pos` says about `pos` and the tail. */
  lemma PushCheckFacts(s: State, h: History, pos: nat)
    requires Inv(s, h) && pos <= s.queue.tail
    ensures pos < s.queue.tail ==> SequenceAt(s.queue, pos) >= pos
    ensures pos == s.queue.tail ==> SequenceAt(s.queue, pos) <= pos
    ensures pos == s.queue.tail && SequenceAt(s.queue, pos) == pos ==> pos < s.queue.head + |s.queue.cells|
  {
    var q, n := s.queue, |s.queue.cells|;
    if pos == q.head + n {
      CellOfLap(q.head, n);
      assert SlotOk(s, h, q.head);
    } else {
      var r := LapIn(s, pos);
      assert SlotOk(s, h, r);
    }
  }

  lemma PullCheckFacts(s: State, h: History, pos: nat)
    requires Inv(s, h) && pos <= s.queue.head
    ensures pos < s.queue.head ==> SequenceAt(s.queue, pos) >= pos + 1
    ensures pos == s.queue.head ==> SequenceAt(s.queue, pos) <= pos + 1
    ensures pos == s.queue.head && SequenceAt(s.queue, pos) == pos + 1 ==> pos < s.queue.tail
  {
    var r := LapIn(s, pos);
    assert SlotOk(s, h, r);
  }

  // ----- winning a position -----

  lemma PushClaimStep(s: State, h: History, t: nat, v: Ptr, pos: nat)
    requires Inv(s, h) && t < |s.threads| && s.threads[t] == PushClaim(v, pos)
    requires s.queue.tail == pos
    ensures Inv(State(s.queue.(tail := pos + 1), s.threads[t := PushWrite(v, pos)]),
                h.(pushes := h.pushes + [v]))
  {
    var s', h' := State(s.queue.(tail := pos + 1), s.threads[t := PushWrite(v, pos)]), h.(pushes := h.pushes + [v]);
    assert ThreadOk(s, h, s.threads[t]);
    PushCheckFacts(s, h, pos);
    forall u | 0 <= u < |s'.threads|
      ensures ThreadOk(s', h', s'.threads[u])
    {
      assert ThreadOk(s, h, s.threads[u]);
      if u != t { NotClaimedByReader(s, h, s.threads[u], pos); }
    }
    forall u: nat, p: nat | u != t && WriterAt(s, u, p)
      ensures p != pos
    {
      assert ThreadOk(s, h, s.threads[u]);
    }
    Holders(s, s', t);
    TookKept(s, h, s', h', t);
    forall p | s'.queue.head <= p < s'.queue.head + |s'.queue.cells|
      ensures SlotOk(s', h', p)
    {
      assert SlotOk(s, h, p);
    }
  }

  /** While the cell of `pos` is free, no thread still reads the lap before it. */
  lemma NotClaimedByReader(s: State, h: History, pc: Pc, pos: nat)
    requires |s.queue.cells| >= 2
    requires ThreadOk(s, h, pc)
    requires SequenceAt(s.queue, pos) == pos && pos == s.queue.tail
    ensures pc.PullRead? || pc.PullRelease? ==> pos + 1 <= pc.pos + |s.queue.cells|
  {
    if (pc.PullRead? || pc.PullRelease?) && pc.pos + |s.queue.cells| == pos {
      CellOfLap(pc.pos, |s.queue.cells|);
      assert false;
    }
  }

  lemma PullClaimStep(s: State, h: History, t: nat, pos: nat)
    requires Inv(s, h) && t < |s.threads| && s.threads[t] == PullClaim(pos)
    requires s.queue.head == pos
    ensures Inv(State(s.queue.(head := pos + 1), s.threads[t := PullRead(pos)]),
                h.(pulls := h.pulls + [None]))
  {
    var s', h' := State(s.queue.(head := pos + 1), s.threads[t := PullRead(pos)]), h.(pulls := h.pulls + [None]);
    var n := |s.queue.cells|;
    assert ThreadOk(s, h, s.threads[t]);
    PullCheckFacts(s, h, pos);
    assert SlotOk(s, h, pos);
    forall u | 0 <= u < |s'.threads|
      ensures ThreadOk(s', h', s'.threads[u])
    {
      assert ThreadOk(s, h, s.threads[u]);
    }
    forall u: nat, p: nat | u != t && ReaderAt(s, u, p)
      ensures p != pos
    {
      assert ThreadOk(s, h, s.threads[u]);
    }
    Holders(s, s', t);
    TookKept(s, h, s', h', t);
    assert s'.threads[t] == PullRead(pos);
    assert TookOk(s', h', pos);
    CellOfLap(pos, n);
    forall p | s'.queue.head <= p < s'.queue.head + n
      ensures SlotOk(s', h', p)
    {
      if p == pos + n {
        assert SequenceAt(s'.queue, p) == pos + 1;
        assert HasReader(s', pos);
      } else {
        assert SlotOk(s, h, p);
      }
    }
  }

  // ----- using a won position -----

  /** A write to the cell of `pos` leaves every other cell of the window alone. */
  lemma OtherCells(s: State, q: Queue, c: Cell, pos: nat)
    requires |s.queue.cells| > 0
    requires q == s.queue.(cells := s.queue.cells[pos % |s.queue.cells| := c])
    ensures forall p: nat | p != pos && p < pos + |q.cells| && pos < p + |q.cells| ::
              SequenceAt(q, p) == SequenceAt(s.queue, p) && DataAt(q, p) == DataAt(s.queue, p)
    ensures SequenceAt(q, pos) == c.sequence && DataAt(q, pos) == c.data
    ensures SequenceAt(q, pos + |q.cells|) == c.sequence
  {
    CellOfLap(pos, |q.cells|);
    forall p: nat | p != pos && p < pos + |q.cells| && pos < p + |q.cells|
      ensures SequenceAt(q, p) == SequenceAt(s.queue, p) && DataAt(q, p) == DataAt(s.queue, p)
    {
      WindowCells(s, p, pos);
    }
  }

  /** Thread `u` relies on the cell of a position: it holds it, or it has read
      its sequence and would still win it. */
  predicate ReliesOnCell(s: State, pc: Pc) {
    || Critical(pc)
    || (pc.PushClaim? && pc.pos == s.queue.tail)
    || (pc.PullClaim? && pc.pos == s.queue.head)
  }

  /** A holder's position differs, by less than a lap, from every position another thread relies on. */
  lemma Apart(s: State, h: History, t: nat, u: nat)
    requires Inv(s, h) && t < |s.threads| && u < |s.threads| && t != u
    requires Critical(s.threads[t]) && ReliesOnCell(s, s.threads[u])
    ensures s.threads[t].pos != s.threads[u].pos
    ensures s.threads[t].pos < s.threads[u].pos + |s.queue.cells|
    ensures s.threads[u].pos < s.threads[t].pos + |s.queue.cells|
  {
    var p, pu := s.threads[t].pos, s.threads[u].pos;
    assert ThreadOk(s, h, s.threads[t]);
    assert ThreadOk(s, h, s.threads[u]);
    CellOfLap(p, |s.queue.cells|);
    assert Writing(s.threads[t], p) ==> WriterAt(s, t, p);
    assert Reading(s.threads[t], p) ==> ReaderAt(s, t, p);
    assert Writing(s.threads[u], pu) ==> WriterAt(s, u, pu);
    assert Reading(s.threads[u], pu) ==> ReaderAt(s, u, pu);
  }

  /** The cell write of one holder keeps what the other threads rely on. */
  lemma OtherThread(s: State, h: History, t: nat, c: Cell, s': State, u: nat)
    requires Inv(s, h) && t < |s.threads| && u < |s.threads| && t != u
    requires Critical(s.threads[t])
    requires s'.queue == s.queue.(cells := s.queue.cells[s.threads[t].pos % |s.queue.cells| := c])
    ensures ThreadOk(s', h, s.threads[u])
  {
    OtherCells(s, s'.queue, c, s.threads[t].pos);
    assert ThreadOk(s, h, s.threads[u]);
    if ReliesOnCell(s, s.threads[u]) {
      Apart(s, h, t, u);
    }
  }

  lemma PushWriteStep(s: State, h: History, t: nat, v: Ptr, pos: nat)
    requires Inv(s, h) && t < |s.threads| && s.threads[t] == PushWrite(v, pos)
    ensures Inv(Next(s, Move(t, Advance)), h)
  {
    var s' := Next(s, Move(t, Advance));
    var c := s.queue.cells[pos % |s.queue.cells|].(data := v);
    assert ThreadOk(s, h, s.threads[t]);
    OtherCells(s, s'.queue, c, pos);
    assert WriterAt(s, t, pos);
    Holders(s, s', t);
    TookKept(s, h, s', h, t);
    forall p | s'.queue.head <= p < s'.queue.head + |s.queue.cells|
      ensures SlotOk(s', h, p)
    {
      assert SlotOk(s, h, p);
    }
    forall u | 0 <= u < |s'.threads|
      ensures ThreadOk(s', h, s'.threads[u])
    {
      if u != t { OtherThread(s, h, t, c, s', u); }
    }
  }

  lemma PushPublishStep(s: State, h: History, t: nat, v: Ptr, pos: nat)
    requires Inv(s, h) && t < |s.threads| && s.threads[t] == PushPublish(v, pos)
    ensures Inv(Next(s, Move(t, Advance)), h)
  {
    var s' := Next(s, Move(t, Advance));
    var c := s.queue.cells[pos % |s.queue.cells|].(sequence := pos + 1);
    assert ThreadOk(s, h, s.threads[t]);
    OtherCells(s, s'.queue, c, pos);
    Holders(s, s', t);
    TookKept(s, h, s', h, t);
    forall p | s'.queue.head <= p < s'.queue.head + |s.queue.cells|
      ensures SlotOk(s', h, p)
    {
      assert SlotOk(s, h, p);
    }
    forall u | 0 <= u < |s'.threads|
      ensures ThreadOk(s', h, s'.threads[u])
    {
      if u != t { OtherThread(s, h, t, c, s', u); }
    }
  }

  lemma PullReadStep(s: State, h: History, t: nat, pos: nat)
    requires Inv(s, h) && t < |s.threads| && s.threads[t] == PullRead(pos)
    ensures var m := Move(t, Advance);
            Inv(Next(s, m), Observe(h, EventOf(s, m)))
  {
    var m := Move(t, Advance);
    var s', h' := Next(s, m), Observe(h, EventOf(s, m));
    assert ThreadOk(s, h, s.threads[t]);
    assert ReaderAt(s, t, pos);
    Holders(s, s', t);
    forall p | 0 <= p < s'.queue.head
      ensures TookOk(s', h', p)
    {
      assert TookOk(s, h, p);
      if p != pos && h.pulls[p] == None {
        var u :| 0 <= u < |s.threads| && s.threads[u] == PullRead(p);
        assert s'.threads[u] == PullRead(p);
      }
    }
    forall p | s'.queue.head <= p < s'.queue.head + |s.queue.cells|
      ensures SlotOk(s', h', p)
    {
      assert SlotOk(s, h, p);
    }
    forall u | 0 <= u < |s'.threads|
      ensures ThreadOk(s', h', s'.threads[u])
    {
      assert ThreadOk(s, h, s.threads[u]);
    }
  }

  lemma PullReleaseStep(s: State, h: History, t: nat, pos: nat, got: Ptr)
    requires Inv(s, h) && t < |s.threads| && s.threads[t] == PullRelease(pos, got)
    ensures Inv(Next(s, Move(t, Advance)), h)
  {
    var s', n := Next(s, Move(t, Advance)), |s.queue.cells|;
    var c := s.queue.cells[pos % n].(sequence := pos + n);
    assert ThreadOk(s, h, s.threads[t]);
    OtherCells(s, s'.queue, c, pos);
    CellOfLap(pos, n);
    Holders(s, s', t);
    TookKept(s, h, s', h, t);
    forall p | s'.queue.head <= p < s'.queue.head + n
      ensures SlotOk(s', h, p)
    {
      assert SlotOk(s, h, p);
      if p != pos + n { OtherLap(s, s'.queue, c, pos, p); }
    }
    forall u | 0 <= u < |s'.threads|
      ensures ThreadOk(s', h, s'.threads[u])
    {
      if u != t { OtherThread(s, h, t, c, s', u); }
    }
  }

  /** As OtherCells, around the next lap of the written cell. */
  lemma OtherLap(s: State, q: Queue, c: Cell, pos: nat, p: nat)
    requires |s.queue.cells| > 0
    requires q == s.queue.(cells := s.queue.cells[pos % |s.queue.cells| := c])
    requires pos < p < pos + 2 * |q.cells| && p != pos + |q.cells|
    ensures SequenceAt(q, p) == SequenceAt(s.queue, p) && DataAt(q, p) == DataAt(s.queue, p)
  {
    CellOfLap(pos, |q.cells|);
    WindowCells(s, p, pos + |q.cells|);
  }

  // ----- every step -----

  /** The thread leaves every step but the winning and using of a position
      with a state that is right for the queue it saw. */
  lemma LocalPc(s: State, h: History, m: Move)
    requires Inv(s, h) && Enabled(s, m) && !Critical(s.threads[m.thread])
    ensures var (q, pc, e) := Effect(s.queue, s.threads[m.thread], m.action);
            || e.PushClaimed? || e.PullClaimed?
            || (q == s.queue && !Critical(pc) && ThreadOk(s, h, pc) && Observe(h, e) == h)
  {
    var pc := s.threads[m.thread];
    assert ThreadOk(s, h, pc);
    if pc.PushCheck? {
      PushCheckFacts(s, h, pc.pos);
    } else if pc.PullCheck? {
      PullCheckFacts(s, h, pc.pos);
    }
  }

  lemma StepInv(s: State, h: History, m: Move)
    requires Inv(s, h) && Enabled(s, m)
    ensures Inv(Next(s, m), Observe(h, EventOf(s, m)))
  {
    var t, pc := m.thread, s.threads[m.thread];
    if Critical(pc) {
      match pc {
        case PushWrite(v, pos) => PushWriteStep(s, h, t, v, pos);
        case PushPublish(v, pos) => PushPublishStep(s, h, t, v, pos);
        case PullRead(pos) => PullReadStep(s, h, t, pos);
        case PullRelease(pos, got) => PullReleaseStep(s, h, t, pos, got);
      }
    } else {
      LocalPc(s, h, m);
      var e := EventOf(s, m);
      if e.PushClaimed? {
        PushClaimStep(s, h, t, pc.v, pc.pos);
      } else if e.PullClaimed? {
        PullClaimStep(s, h, t, pc.pos);
      } else {
        LocalStep(s, h, t, Next(s, m).threads[t]);
      }
    }
  }
}
