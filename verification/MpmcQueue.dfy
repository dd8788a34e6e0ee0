/** The queue's operations as the program text has them, on 64-bit words. While
    no other thread is inside an operation they implement a bounded FIFO. */
module MpmcQueue {
  import opened Common
  import opened Bits
  import opened Remainders
  import opened MpmcMachine
  import opened MpmcWrap

  /** The cells of `q` hold exactly `c` between head and tail and are free elsewhere. */
  ghost predicate Holds(q: Queue, c: seq<Ptr>) {
    && 2 <= |q.cells|
    && q.head + |c| == q.tail <= q.head + |q.cells|
    && (forall p :: q.head <= p < q.tail ==> SequenceAt(q, p) == p + 1 && DataAt(q, p) == c[p - q.head])
    && (forall p :: q.tail <= p < q.head + |q.cells| ==> SequenceAt(q, p) == p)
  }

  /** Filling the first free cell appends to the contents. */
  lemma HoldsPushed(q: Queue, c: seq<Ptr>, v: Ptr)
    requires Holds(q, c) && |c| < |q.cells|
    ensures var cell := Cell(q.tail + 1, v);
            Holds(Queue(q.cells[q.tail % |q.cells| := cell], q.tail + 1, q.head), c + [v])
  {
    var q' := Queue(q.cells[q.tail % |q.cells| := Cell(q.tail + 1, v)], q.tail + 1, q.head);
    forall p | q.head <= p < q.head + |q.cells| && p != q.tail
      ensures SequenceAt(q', p) == SequenceAt(q, p) && DataAt(q', p) == DataAt(q, p)
    {
      if p < q.tail { CellsDiffer(p, q.tail, |q.cells|); } else { CellsDiffer(q.tail, p, |q.cells|); }
    }
    assert SequenceAt(q', q.tail) == q.tail + 1 && DataAt(q', q.tail) == v;
  }

  /** Releasing the first full cell drops the first value. */
  lemma HoldsPulled(q: Queue, c: seq<Ptr>)
    requires Holds(q, c) && c != []
    ensures var cell := Cell(q.head + |q.cells|, c[0]);
            Holds(Queue(q.cells[q.head % |q.cells| := cell], q.tail, q.head + 1), c[1..])
  {
    var q' := Queue(q.cells[q.head % |q.cells| := Cell(q.head + |q.cells|, c[0])], q.tail, q.head + 1);
    CellOfLap(q.head, |q.cells|);
    assert SequenceAt(q', q.head + |q.cells|) == q.head + |q.cells|;
    forall p | q.head < p < q.head + |q.cells|
      ensures SequenceAt(q', p) == SequenceAt(q, p) && DataAt(q', p) == DataAt(q, p)
    {
      CellsDiffer(q.head, p, |q.cells|);
    }
  }

  /** A queue as initialised is empty. */
  lemma FreshHolds(size: nat)
    requires 2 <= size < HALF
    ensures Holds(InitQueue(size), []) && WrapQueue(InitQueue(size)) == InitQueue(size)
  {
    var q := InitQueue(size);
    forall p | 0 <= p < size
      ensures SequenceAt(q, p) == p
    {
      Small(p, size);
    }
    assert WrapQueue(q).cells == q.cells;
  }

  /** One cell and the head changed on words, and on unbounded positions. */
  lemma ReleaseWraps(q: Queue, d: Ptr)
    requires |q.cells| > 0
    ensures var n, i := |q.cells|, q.head % |q.cells|;
            WrapQueue(Queue(q.cells[i := Cell(q.head + n, d)], q.tail, q.head + 1)) ==
            Queue(WrapQueue(q).cells[i := Cell(Add64(q.head % WORD, n), d)], q.tail % WORD, Add64(q.head % WORD, 1))
  {
    AddWraps(q.head, 1);
    AddWraps(q.head, |q.cells|);
    var n, i := |q.cells|, q.head % |q.cells|;
    assert WrapQueue(Queue(q.cells[i := Cell(q.head + n, d)], q.tail, q.head + 1)).cells ==
           WrapQueue(q).cells[i := Cell(Add64(q.head % WORD, n), d)];
  }

  class MpmcQueue {
    var bufferMask: nat
    var buffer: array<Cell>
    var tail: nat
    var head: nat

    /** The same queue on unbounded positions, and what it holds. */
    ghost var unbounded: Queue
    ghost var contents: seq<Ptr>

    ghost predicate Valid()
      reads this, buffer
    {
      && IsPow2(buffer.Length) && buffer.Length < HALF && bufferMask == buffer.Length - 1
      && Queue(buffer[..], tail, head) == WrapQueue(unbounded)
      && Holds(unbounded, contents)
    }

    constructor ()
      ensures fresh(buffer)
    {
      buffer := new Cell[0];
      contents, unbounded := [], Queue([], 0, 0);
      bufferMask, tail, head := 0, 0, 0;
    }

    /** `memory` tells whether the allocation succeeds; one of 2^63 cells or more never does. */
    method Init(size: nat, memory: bool) returns (status: int)
      requires size < WORD && (memory ==> size < HALF)
      modifies this
      ensures status == -1 <==> size < 2 || !IsPow2(size)
      ensures status == -2 <==> size >= 2 && IsPow2(size) && !memory
      ensures status == 0 <==> size >= 2 && IsPow2(size) && memory
      ensures status == 0 ==> fresh(buffer) && buffer.Length == size && Valid() && contents == []
    {
      if size >= 1 { PowerOfTwoTest(size); }
      if size < 2 || And(size, size - 1) != 0 {
        return -1;
      }
      bufferMask := size - 1;
      if !memory {
        return -2;
      }
      buffer := new Cell[size](_ => Cell(0, 0));
      var i := 0;
      while i != size
        invariant 0 <= i <= size
        invariant fresh(buffer) && buffer.Length == size && bufferMask == size - 1
        invariant forall j :: 0 <= j < size ==> buffer[j] == Cell(if j < i then j else 0, 0)
      {
        buffer[i] := buffer[i].(sequence := i);
        i := i + 1;
      }
      tail, head := 0, 0;
      unbounded, contents := InitQueue(size), [];
      FreshHolds(size);
      assert buffer[..] == InitQueue(size).cells;
      return 0;
    }

    method Available() returns (n: nat)
      requires Valid()
      ensures n == |contents|
    {
      n := Sub64(tail, head);
    }

    /** `spurious` weak compare-exchanges fail for no reason before one succeeds. */
    method Push(ptr: Ptr, spurious: nat) returns (ok: bool)
      requires Valid()
      modifies this, buffer
      ensures Valid() && buffer == old(buffer)
      ensures ok <==> |old(contents)| < buffer.Length
      ensures contents == if ok then old(contents) + [ptr] else old(contents)
    {
      var pos := tail;
      var cell, failures := 0, spurious;
      ghost var p := unbounded.tail;
      TailCell();
      while true
        invariant Valid() && buffer == old(buffer) && contents == old(contents) && unbounded == old(unbounded)
        invariant pos == tail && cell < buffer.Length
        invariant buffer[..] == old(buffer[..])
        decreases failures
      {
        cell := Masked(pos, bufferMask + 1);
        var diff := Signed64(Sub64(buffer[cell].sequence, pos));
        if diff == 0 {
          if tail == pos && failures == 0 {
            tail := Add64(pos, 1);
            break;
          }
          failures := failures - 1;
          pos := tail;
        } else {
          // Only an operation of another thread can have moved the cell past this position.
          assert diff < 0;
          return false;
        }
      }
      buffer[cell] := buffer[cell].(data := ptr);
      buffer[cell] := buffer[cell].(sequence := Add64(pos, 1));
      ok := true;
      HoldsPushed(unbounded, contents, ptr);
      unbounded := Queue(unbounded.cells[p % buffer.Length := Cell(p + 1, ptr)], p + 1, unbounded.head);
      contents := contents + [ptr];
      AddWraps(p, 1);
      assert buffer[..] == WrapQueue(unbounded).cells;
    }

    method Pull(spurious: nat) returns (ok: bool, ptr: Ptr)
      requires Valid()
      modifies this, buffer
      ensures Valid() && buffer == old(buffer)
      ensures ok <==> old(contents) != []
      ensures ok ==> ptr == old(contents)[0]
      ensures contents == if ok then old(contents)[1..] else old(contents)
    {
      var pos := head;
      var cell, failures := 0, spurious;
      ptr := 0;
      ghost var p := unbounded.head;
      HeadCell();
      while true
        invariant Valid() && buffer == old(buffer) && contents == old(contents) && unbounded == old(unbounded)
        invariant pos == head && cell < buffer.Length
        invariant buffer[..] == old(buffer[..])
        decreases failures
      {
        cell := Masked(pos, bufferMask + 1);
        var diff := Signed64(Sub64(buffer[cell].sequence, Add64(pos, 1)));
        if diff == 0 {
          if head == pos && failures == 0 {
            head := Add64(pos, 1);
            break;
          }
          failures := failures - 1;
          pos := head;
        } else {
          // Only an operation of another thread can have moved the cell past this position.
          assert diff < 0;
          return false, ptr;
        }
      }
      ghost var cells := buffer[..];
      ptr := buffer[cell].data;
      buffer[cell] := buffer[cell].(sequence := Add64(pos, bufferMask + 1));
      ok := true;
      assert buffer[..] == cells[cell := Cell(Add64(pos, buffer.Length), ptr)];
      HoldsPulled(unbounded, contents);
      ReleaseWraps(unbounded, contents[0]);
      unbounded := Queue(unbounded.cells[p % buffer.Length := Cell(p + buffer.Length, contents[0])], unbounded.tail, p + 1);
      contents := contents[1..];
    }

    /** Pushes the longest prefix of `ptrs` that fits. */
    method PushMany(ptrs: seq<Ptr>, spurious: seq<nat>) returns (n: nat)
      requires Valid() && |spurious| == |ptrs|
      modifies this, buffer
      ensures Valid() && buffer == old(buffer)
      ensures n <= |ptrs| && contents == old(contents) + ptrs[..n]
      ensures n < |ptrs| ==> |contents| == buffer.Length
    {
      n := 0;
      while n < |ptrs|
        invariant n <= |ptrs| && Valid() && buffer == old(buffer)
        invariant contents == old(contents) + ptrs[..n]
      {
        var ok := Push(ptrs[n], spurious[n]);
        if !ok {
          break;
        }
        assert ptrs[..n + 1] == ptrs[..n] + [ptrs[n]];
        n := n + 1;
      }
    }

    /** Pulls into `ptrs` until it has `cnt` values or the queue is empty. */
    method PullMany(ptrs: array<Ptr>, cnt: nat, spurious: seq<nat>) returns (n: nat)
      requires Valid() && cnt <= ptrs.Length && |spurious| == cnt
      modifies this, buffer, ptrs
      ensures Valid() && buffer == old(buffer)
      ensures n <= cnt && n <= |old(contents)|
      ensures ptrs[..n] == old(contents)[..n] && ptrs[n..] == old(ptrs[n..])
      ensures contents == old(contents)[n..]
      ensures n < cnt ==> contents == []
    {
      n := 0;
      while n < cnt
        invariant n <= cnt && n <= |old(contents)| && Valid() && buffer == old(buffer)
        invariant ptrs[..n] == old(contents)[..n]
        invariant ptrs[n..] == old(ptrs[n..])
        invariant contents == old(contents)[n..]
      {
        var ok, ptr := Pull(spurious[n]);
        if !ok {
          break;
        }
        ptrs[n] := ptr;
        n := n + 1;
      }
    }

    /** The cell of position p of the window, as the machine finds it. */
    lemma CellOf(p: nat)
      requires Valid()
      ensures p % WORD % buffer.Length == p % buffer.Length
      ensures buffer[p % buffer.Length] == WrapCell(unbounded.cells[p % buffer.Length])
    {
      CellSurvives(p, buffer.Length);
      assert buffer[..][p % buffer.Length] == WrapQueue(unbounded).cells[p % buffer.Length];
    }

    /** The cell at the tail, as a push reads it. */
    lemma TailCell()
      requires Valid()
      ensures tail % buffer.Length == unbounded.tail % buffer.Length
      ensures |contents| < buffer.Length ==>
        Signed64(Sub64(buffer[tail % buffer.Length].sequence, tail)) == 0
      ensures |contents| == buffer.Length ==>
        Signed64(Sub64(buffer[tail % buffer.Length].sequence, tail)) < 0
    {
      var p := unbounded.tail;
      CellOf(p);
      if |contents| < buffer.Length {
        assert SequenceAt(unbounded, p) == p;
        DifferenceSurvives(p, p);
      } else {
        CellOfLap(unbounded.head, buffer.Length);
        assert SequenceAt(unbounded, unbounded.head) == unbounded.head + 1;
        DifferenceSurvives(unbounded.head + 1, p);
      }
    }

    /** The cell at the head, as a pull reads it. */
    lemma HeadCell()
      requires Valid()
      ensures head % buffer.Length == unbounded.head % buffer.Length
      ensures contents != [] ==>
        && Signed64(Sub64(buffer[head % buffer.Length].sequence, Add64(head, 1))) == 0
        && buffer[head % buffer.Length].data == contents[0]
      ensures contents == [] ==>
        Signed64(Sub64(buffer[head % buffer.Length].sequence, Add64(head, 1))) < 0
    {
      var p := unbounded.head;
      CellOf(p);
      AddWraps(p, 1);
      if contents != [] {
        assert SequenceAt(unbounded, p) == p + 1 && DataAt(unbounded, p) == contents[0];
        DifferenceSurvives(p + 1, p + 1);
      } else {
        assert SequenceAt(unbounded, p) == p;
        DifferenceSurvives(p, p + 1);
      }
    }
  }
}
