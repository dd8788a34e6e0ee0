/** The bounded multi-producer multi-consumer queue as a step machine: any
    number of threads interleave at the grain of one atomic access each.

    Positions are unbounded here and the cell of a position is its remainder;
    module MpmcWrap relates this to 64-bit positions and mask indexing. */
module MpmcMachine {
  import opened Common

  /** The queued values are pointers. */
  type Ptr = nat

  datatype Cell = Cell(sequence: nat, data: Ptr)

  datatype Queue = Queue(cells: seq<Cell>, tail: nat, head: nat)

  /** What a thread does next. A push with value `v` at `pos` runs
      Load, Check, then Claim, Write, Publish, or back through Reload;
      a pull runs the mirror image on `head`. */
  datatype Pc =
    | Idle
    | PushLoad(v: Ptr)
    | PushCheck(v: Ptr, pos: nat)
    | PushReload(v: Ptr, pos: nat)
    | PushClaim(v: Ptr, pos: nat)
    | PushWrite(v: Ptr, pos: nat)
    | PushPublish(v: Ptr, pos: nat)
    | PullLoad
    | PullCheck(pos: nat)
    | PullReload(pos: nat)
    | PullClaim(pos: nat)
    | PullRead(pos: nat)
    | PullRelease(pos: nat, got: Ptr)

  datatype State = State(queue: Queue, threads: seq<Pc>)

  /** `Spurious` is a weak compare-exchange that fails although it may not
      have had to; `Advance` is any other next access of the thread. */
  datatype Action = CallPush(v: Ptr) | CallPull | Advance | Spurious

  datatype Move = Move(thread: nat, action: Action)

  datatype Event =
    | Silent
    | PushClaimed(v: Ptr)
    | PullClaimed
    | Took(pos: nat, got: Ptr)
    | PushRefused(pos: nat)
    | PullRefused(pos: nat)
    | PushRetried(pos: nat, next: nat)
    | PullRetried(pos: nat, next: nat)
    | Pushed
    | Pulled(got: Ptr)

  ghost predicate Enabled(s: State, m: Move) {
    && m.thread < |s.threads|
    && var pc := s.threads[m.thread];
    match m.action
    case CallPush(_) => pc.Idle?
    case CallPull => pc.Idle?
    case Advance => !pc.Idle?
    case Spurious => pc.PushClaim? || pc.PullClaim?
  }

  /** The queue, the thread and the event after thread state `pc` moves. */
  function Effect(q: Queue, pc: Pc, a: Action): (Queue, Pc, Event)
    requires |q.cells| > 0
  {
    var n := |q.cells|;
    match pc
    case Idle =>
      (match a
       case CallPush(v) => (q, PushLoad(v), Silent)
       case CallPull => (q, PullLoad, Silent)
       case _ => (q, pc, Silent))
    case PushLoad(v) => (q, PushCheck(v, q.tail), Silent)
    case PushCheck(v, pos) =>
      var sequence := q.cells[pos % n].sequence;
      if sequence == pos then (q, PushClaim(v, pos), Silent)
      else if sequence < pos then (q, Idle, PushRefused(pos))
      else (q, PushReload(v, pos), Silent)
    case PushReload(v, pos) => (q, PushCheck(v, q.tail), PushRetried(pos, q.tail))
    case PushClaim(v, pos) =>
      if q.tail != pos then (q, PushCheck(v, q.tail), PushRetried(pos, q.tail))
      else if a.Spurious? then (q, PushCheck(v, q.tail), Silent)
      else (q.(tail := pos + 1), PushWrite(v, pos), PushClaimed(v))
    case PushWrite(v, pos) =>
      var c := q.cells[pos % n];
      (q.(cells := q.cells[pos % n := c.(data := v)]), PushPublish(v, pos), Silent)
    case PushPublish(v, pos) =>
      var c := q.cells[pos % n];
      (q.(cells := q.cells[pos % n := c.(sequence := pos + 1)]), Idle, Pushed)
    case PullLoad => (q, PullCheck(q.head), Silent)
    case PullCheck(pos) =>
      var sequence := q.cells[pos % n].sequence;
      if sequence == pos + 1 then (q, PullClaim(pos), Silent)
      else if sequence < pos + 1 then (q, Idle, PullRefused(pos))
      else (q, PullReload(pos), Silent)
    case PullReload(pos) => (q, PullCheck(q.head), PullRetried(pos, q.head))
    case PullClaim(pos) =>
      if q.head != pos then (q, PullCheck(q.head), PullRetried(pos, q.head))
      else if a.Spurious? then (q, PullCheck(q.head), Silent)
      else (q.(head := pos + 1), PullRead(pos), PullClaimed)
    case PullRead(pos) =>
      var got := q.cells[pos % n].data;
      (q, PullRelease(pos, got), Took(pos, got))
    case PullRelease(pos, got) =>
      var c := q.cells[pos % n];
      (q.(cells := q.cells[pos % n := c.(sequence := pos + n)]), Idle, Pulled(got))
  }

  function Next(s: State, m: Move): State
    requires |s.queue.cells| > 0 && m.thread < |s.threads|
  {
    var (q, pc, _) := Effect(s.queue, s.threads[m.thread], m.action);
    State(q, s.threads[m.thread := pc])
  }

  function EventOf(s: State, m: Move): Event
    requires |s.queue.cells| > 0 && m.thread < |s.threads|
  {
    Effect(s.queue, s.threads[m.thread], m.action).2
  }

  /** The queue as initialised for `size` cells, and `k` threads that have not called yet. */
  function InitQueue(size: nat): Queue {
    Queue(seq(size, i requires 0 <= i < size => Cell(i, 0)), 0, 0)
  }

  function Init(size: nat, k: nat): State {
    State(InitQueue(size), seq(k, _ => Idle))
  }

  // ----- what an observer of the run has seen -----

  /** The values of the pushes in the order in which they won the tail, and one
      entry for each pull in the order in which they won the head: the value
      it took, or None until it has taken one. */
  datatype History = History(pushes: seq<Ptr>, pulls: seq<Option<Ptr>>)

  function Observe(h: History, e: Event): History {
    match e
    case PushClaimed(v) => h.(pushes := h.pushes + [v])
    case PullClaimed => h.(pulls := h.pulls + [None])
    case Took(pos, got) =>
      if pos < |h.pulls| then h.(pulls := h.pulls[pos := Some(got)]) else h
    case _ => h
  }

  // ----- the invariant -----

  predicate Writing(pc: Pc, p: nat) {
    (pc.PushWrite? || pc.PushPublish?) && pc.pos == p
  }

  predicate Reading(pc: Pc, p: nat) {
    (pc.PullRead? || pc.PullRelease?) && pc.pos == p
  }

  /** Thread `t` has won position `p` and not yet stored the sequence. */
  predicate WriterAt(s: State, t: nat, p: nat) {
    t < |s.threads| && Writing(s.threads[t], p)
  }

  predicate ReaderAt(s: State, t: nat, p: nat) {
    t < |s.threads| && Reading(s.threads[t], p)
  }

  function SequenceAt(q: Queue, p: nat): nat
    requires |q.cells| > 0
  {
    q.cells[p % |q.cells|].sequence
  }

  function DataAt(q: Queue, p: nat): Ptr
    requires |q.cells| > 0
  {
    q.cells[p % |q.cells|].data
  }

  ghost predicate HasWriter(s: State, p: nat) {
    exists t :: WriterAt(s, t, p)
  }

  ghost predicate HasReader(s: State, p: nat) {
    exists t :: ReaderAt(s, t, p)
  }

  /** The cell of position p, one of the `size` positions from `head` on. */
  ghost predicate SlotOk(s: State, h: History, p: nat)
    requires |s.queue.cells| > 0
  {
    var q := s.queue;
    var n := |q.cells|;
    if p < q.tail then
      || (SequenceAt(q, p) == p && HasWriter(s, p))
      || (SequenceAt(q, p) == p + 1 && p < |h.pushes| && DataAt(q, p) == h.pushes[p])
    else
      || SequenceAt(q, p) == p
      || (n <= p && SequenceAt(q, p) == p - n + 1 && HasReader(s, p - n))
  }

  ghost predicate ThreadOk(s: State, h: History, pc: Pc)
    requires |s.queue.cells| > 0
  {
    var q := s.queue;
    var n := |q.cells|;
    match pc
    case Idle => true
    case PushLoad(_) => true
    case PushCheck(_, pos) => pos <= q.tail
    case PushReload(_, pos) => pos < q.tail
    case PushClaim(_, pos) => pos <= q.tail && (pos == q.tail ==> SequenceAt(q, pos) == pos)
    case PushWrite(v, pos) => q.head <= pos < q.tail && SequenceAt(q, pos) == pos && pos < |h.pushes| && h.pushes[pos] == v
    case PushPublish(v, pos) =>
      && q.head <= pos < q.tail && SequenceAt(q, pos) == pos
      && pos < |h.pushes| && h.pushes[pos] == v && DataAt(q, pos) == v
    case PullLoad => true
    case PullCheck(pos) => pos <= q.head
    case PullReload(pos) => pos < q.head
    case PullClaim(pos) => pos <= q.head && (pos == q.head ==> SequenceAt(q, pos) == pos + 1)
    case PullRead(pos) =>
      && pos < q.head && q.tail <= pos + n && SequenceAt(q, pos) == pos + 1
      && pos < |h.pushes| && DataAt(q, pos) == h.pushes[pos]
    case PullRelease(pos, got) =>
      && pos < q.head && q.tail <= pos + n && SequenceAt(q, pos) == pos + 1
      && pos < |h.pushes| && got == h.pushes[pos]
  }

  /** No two threads hold the same won position. */
  ghost predicate Exclusive(s: State) {
    && (forall t, u, p :: WriterAt(s, t, p) && WriterAt(s, u, p) ==> t == u)
    && (forall t, u, p :: ReaderAt(s, t, p) && ReaderAt(s, u, p) ==> t == u)
  }

  ghost predicate TookOk(s: State, h: History, p: nat)
    requires p < |h.pulls| && p < |h.pushes|
  {
    || h.pulls[p] == Some(h.pushes[p])
    || (h.pulls[p] == None && exists t :: 0 <= t < |s.threads| && s.threads[t] == PullRead(p))
  }

  ghost predicate Inv(s: State, h: History) {
    && |s.queue.cells| >= 2
    && s.queue.head <= s.queue.tail <= s.queue.head + |s.queue.cells|
    && |h.pushes| == s.queue.tail
    && |h.pulls| == s.queue.head
    && (forall p :: s.queue.head <= p < s.queue.head + |s.queue.cells| ==> SlotOk(s, h, p))
    && (forall t :: 0 <= t < |s.threads| ==> ThreadOk(s, h, s.threads[t]))
    && Exclusive(s)
    && (forall p :: 0 <= p < s.queue.head ==> TookOk(s, h, p))
  }
}
