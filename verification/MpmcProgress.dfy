/** Every retry is paid for by another thread's success. */
module MpmcProgress {
  import opened MpmcMachine
  import opened MpmcRuns

  /** The two ends of the queue: pushes contend for the tail, pulls for the head. */
  datatype End = Tail | Head

  function PositionOf(q: Queue, end: End): nat {
    if end.Tail? then q.tail else q.head
  }

  /** The thread is in the retry loop of a call at this end. */
  predicate Trying(pc: Pc, end: End) {
    match end
    case Tail => pc.PushCheck? || pc.PushReload? || pc.PushClaim?
    case Head => pc.PullCheck? || pc.PullReload? || pc.PullClaim?
  }

  predicate IsRetry(e: Event, end: End) {
    match end
    case Tail => e.PushRetried?
    case Head => e.PullRetried?
  }

  predicate IsWin(e: Event, end: End) {
    match end
    case Tail => e.PushClaimed?
    case Head => e.PullClaimed?
  }

  /** Thread `t` stays in the retry loop of one call through every state of the run. */
  ghost predicate StaysTrying(s: State, moves: seq<Move>, t: nat, end: End)
    requires |s.queue.cells| > 0
    decreases |moves|
  {
    && t < |s.threads|
    && Trying(After(s, moves).threads[t], end)
    && (moves != [] ==> StaysTrying(s, Front(moves), t, end))
  }

  /** How often thread `t` started over in the run. */
  ghost function Retries(s: State, moves: seq<Move>, t: nat, end: End): nat
    requires |s.queue.cells| > 0
    decreases |moves|
  {
    if moves == [] then 0
    else
      var b, m := After(s, Front(moves)), Last(moves);
      Retries(s, Front(moves), t, end)
      + (if m.thread == t && t < |b.threads| && IsRetry(EventOf(b, m), end) then 1 else 0)
  }

  /** How often threads other than `t` won a position in the run. */
  ghost function WinsOfOthers(s: State, moves: seq<Move>, t: nat, end: End): nat
    requires |s.queue.cells| > 0
    decreases |moves|
  {
    if moves == [] then 0
    else
      var b, m := After(s, Front(moves)), Last(moves);
      WinsOfOthers(s, Front(moves), t, end)
      + (if m.thread != t && m.thread < |b.threads| && IsWin(EventOf(b, m), end) then 1 else 0)
  }

  /** A retry that is not a spurious failure starts from a strictly larger position. */
  lemma RetryMovesForward(s: State, h: History, m: Move)
    requires Inv(s, h) && Enabled(s, m)
    requires EventOf(s, m).PushRetried? || EventOf(s, m).PullRetried?
    ensures EventOf(s, m).pos < EventOf(s, m).next
    ensures Trying(Next(s, m).threads[m.thread], if EventOf(s, m).PushRetried? then Tail else Head)
    ensures Next(s, m).threads[m.thread].pos == EventOf(s, m).next
  {
    assert ThreadOk(s, h, s.threads[m.thread]);
  }

  /** One step of a run in which thread `t` keeps trying. */
  lemma TryingStep(s: State, h: History, m: Move, t: nat, end: End)
    requires Inv(s, h) && Enabled(s, m) && t < |s.threads|
    requires Trying(s.threads[t], end) && Trying(Next(s, m).threads[t], end)
    ensures s.threads[t].pos + (if m.thread == t && IsRetry(EventOf(s, m), end) then 1 else 0)
            <= Next(s, m).threads[t].pos
    ensures PositionOf(Next(s, m).queue, end)
         == PositionOf(s.queue, end) + (if m.thread != t && IsWin(EventOf(s, m), end) then 1 else 0)
  {
    assert ThreadOk(s, h, s.threads[t]);
  }

  /** While thread `t` keeps trying, its retries never outnumber the positions
      it has moved forward, and the end moves only when another thread wins. */
  lemma {:induction false} RetriesAccount(s: State, h: History, moves: seq<Move>, t: nat, end: End)
    requires Inv(s, h) && Legal(s, moves) && StaysTrying(s, moves, t, end)
    ensures Trying(s.threads[t], end)
    ensures s.threads[t].pos + Retries(s, moves, t, end) <= After(s, moves).threads[t].pos
    ensures PositionOf(After(s, moves).queue, end) == PositionOf(s.queue, end) + WinsOfOthers(s, moves, t, end)
    decreases |moves|
  {
    if moves != [] {
      var b, m := After(s, Front(moves)), Last(moves);
      RetriesAccount(s, h, Front(moves), t, end);
      RunInv(s, h, Front(moves));
      TryingStep(b, Seen(s, h, Front(moves)), m, t, end);
    }
  }

  /** The retries of one call are bounded by the successes of the other threads
      since it first loaded its position; spurious failures are not counted. */
  lemma RetriesPaidByOthers(s: State, h: History, moves: seq<Move>, t: nat, end: End)
    requires Inv(s, h) && Legal(s, moves) && StaysTrying(s, moves, t, end)
    requires Trying(s.threads[t], end) && s.threads[t].pos == PositionOf(s.queue, end)
    ensures Retries(s, moves, t, end) <= WinsOfOthers(s, moves, t, end)
  {
    RetriesAccount(s, h, moves, t, end);
    RunInv(s, h, moves);
    assert ThreadOk(After(s, moves), Seen(s, h, moves), After(s, moves).threads[t]);
  }
}
