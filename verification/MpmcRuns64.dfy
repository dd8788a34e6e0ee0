/** Runs of the 64-bit queue by itself, and the order of its values. */
module MpmcRuns64 {
  import opened Common
  import opened Bits
  import opened MpmcMachine
  import opened MpmcInvariant
  import opened MpmcRuns
  import opened MpmcWrap

  /** `moves` is a run of the 64-bit queue. */
  ghost predicate Legal64(s: State, moves: seq<Move>)
    requires IsPow2(|s.queue.cells|)
    decreases |moves|
  {
    moves == [] || (Legal64(s, Front(moves)) && Enabled(After64(s, Front(moves)), Last(moves)))
  }

  lemma EnabledWraps(s: State, m: Move)
    ensures Enabled(Wrap(s), m) <==> Enabled(s, m)
  {
  }

  /** What the 64-bit queue can do, the unbounded one can. */
  lemma {:induction false} LegalUnwraps(s: State, h: History, moves: seq<Move>)
    requires Inv(s, h) && IsPow2(|s.queue.cells|)
    requires Legal64(Wrap(s), moves) && AlwaysRecent(s, moves)
    ensures Legal(s, moves)
    decreases |moves|
  {
    if moves != [] {
      LegalUnwraps(s, h, Front(moves));
      RunWraps(s, h, Front(moves));
      EnabledWraps(After(s, Front(moves)), Last(moves));
    }
  }

  /** The latest position below `k` that reads as the word `p`. */
  function LatestBelow(k: nat, p: nat): int {
    k - 1 - (k - 1 - p) % WORD
  }

  /** The history as the events of the 64-bit queue tell it: a pull that takes a
      value at word `pos` is the latest one to have won that word. */
  function Observe64(h: History, e: Event): History {
    match e
    case Took(pos, got) =>
      var i := LatestBelow(|h.pulls|, pos);
      if 0 <= i < |h.pulls| then h.(pulls := h.pulls[i := Some(got)]) else h
    case _ => Observe(h, e)
  }

  ghost function Seen64(s: State, h: History, moves: seq<Move>): History
    requires IsPow2(|s.queue.cells|)
    decreases |moves|
  {
    if moves == [] then h
    else
      var b := After64(s, Front(moves));
      var seen := Seen64(s, h, Front(moves));
      if Last(moves).thread < |b.threads| then Observe64(seen, EventOf64(b, Last(moves))) else seen
  }

  lemma LatestIs(k: nat, p: nat)
    requires p < k < p + WORD
    ensures LatestBelow(k, p % WORD) == p
  {
    SubWraps(k - 1, p);
  }

  lemma SubWraps(a: nat, b: nat)
    requires b <= a < b + WORD
    ensures (a - b % WORD) % WORD == a - b
  {
  }

  lemma ObserveWraps(s: State, h: History, m: Move)
    requires Inv(s, h) && Enabled(s, m) && Recent(s)
    ensures Observe64(h, WrapEvent(EventOf(s, m))) == Observe(h, EventOf(s, m))
  {
    var pc := s.threads[m.thread];
    assert ThreadOk(s, h, pc);
    if EventOf(s, m).Took? {
      LatestIs(|h.pulls|, pc.pos);
    }
  }

  lemma {:induction false} SeenWraps(s: State, h: History, moves: seq<Move>)
    requires Inv(s, h) && Legal(s, moves)
    requires IsPow2(|s.queue.cells|) && AlwaysRecent(s, moves)
    ensures Seen64(Wrap(s), h, moves) == Seen(s, h, moves)
    decreases |moves|
  {
    if moves != [] {
      var front := Front(moves);
      SeenWraps(s, h, front);
      RunWraps(s, h, front);
      RunInv(s, h, front);
      NextWraps(After(s, front), Seen(s, h, front), Last(moves));
      ObserveWraps(After(s, front), Seen(s, h, front), Last(moves));
    }
  }

  /** In every run of the 64-bit queue in which no retry loop lags by 2^63 - size
      claims or more, the pull that won the head i-th takes the value of the push
      that won the tail i-th, or has not taken one yet. */
  lemma FirstInFirstOut64(size: nat, k: nat, moves: seq<Move>)
    requires 2 <= size < HALF && IsPow2(size)
    requires Legal64(Init(size, k), moves) && AlwaysRecent(Init(size, k), moves)
    ensures var h := Seen64(Init(size, k), History([], []), moves);
            && |h.pulls| <= |h.pushes| <= |h.pulls| + size
            && forall i :: 0 <= i < |h.pulls| && h.pulls[i].Some? ==> h.pulls[i].value == h.pushes[i]
  {
    var s0, h0 := Init(size, k), History([], []);
    InitInv(size, k);
    InitWraps(size, k);
    LegalUnwraps(s0, h0, moves);
    SeenWraps(s0, h0, moves);
    FirstInFirstOut(size, k, moves);
  }
}
