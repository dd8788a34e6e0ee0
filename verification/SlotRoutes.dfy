/** The slot clock, and the route matrix that is read at its slot. */
module SlotRoutes {
  import opened Common
  import opened Remainders
  import Topology

  const SLOTS: nat := Topology.SLOTS

  /** The shipped slot of 200 microseconds; the shipped cycle is 32 of them. */
  const SLOT_NS: nat := 200000

  // ----- the clock -----

  /** Which slot of the cycle a time falls in, counted from 1. */
  function SlotAt(ns: nat, slot: nat): (topo: nat)
    requires slot > 0
    ensures 1 <= topo <= SLOTS
  {
    ns / slot % SLOTS + 1
  }

  /** The program takes the remainder by the cycle first. */
  lemma SlotInCycle(ns: nat, slot: nat)
    requires slot > 0
    ensures ns % (SLOTS * slot) / slot + 1 == SlotAt(ns, slot)
  {
    var cycle := SLOTS * slot;
    var q, r := ns / cycle, ns % cycle;
    assert SLOTS * slot * q == slot * (SLOTS * q);
    var s := r / slot;
    assert slot * (SLOTS * q + s) == slot * (SLOTS * q) + slot * s;
    DivUnique(ns, slot, SLOTS * q + s, r % slot);
    if s >= SLOTS {
      AtLeast(slot, s, SLOTS);
      assert false;
    }
    DivUnique(SLOTS * q + s, SLOTS, q, s);
  }

  lemma AtLeast(x: nat, y: nat, z: nat)
    requires y >= z
    ensures x * y >= x * z
  {
    assert x * y == x * z + x * (y - z);
  }

  predicate CyclicNext(a: nat, b: nat) {
    b == if a == SLOTS then 1 else a + 1
  }

  /** Two times less than a slot apart fall in one slot or in two that follow
      each other around the cycle. */
  lemma NearTimes(t: nat, u: nat, slot: nat)
    requires slot > 0 && t <= u < t + slot
    ensures SlotAt(t, slot) == SlotAt(u, slot) || CyclicNext(SlotAt(t, slot), SlotAt(u, slot))
  {
    var a, r := t / slot, t % slot;
    assert slot * (a + 1) == slot * a + slot;
    if r + (u - t) < slot {
      DivUnique(u, slot, a, r + (u - t));
    } else {
      DivUnique(u, slot, a + 1, r + (u - t) - slot);
      if a % SLOTS == SLOTS - 1 {
        DivUnique(a + 1, SLOTS, a / SLOTS + 1, 0);
      } else {
        DivUnique(a + 1, SLOTS, a / SLOTS, a % SLOTS + 1);
      }
    }
  }

  /** With the shipped slot, and nanoseconds counted in 64 bits, that holds
      exactly when the count does not wrap between the two times. */
  lemma NearTimesIff(t: nat, u: nat)
    requires t < WORD && t <= u < t + SLOT_NS
    ensures (SlotAt(t, SLOT_NS) == SlotAt(u % WORD, SLOT_NS) || CyclicNext(SlotAt(t, SLOT_NS), SlotAt(u % WORD, SLOT_NS)))
            <==> u < WORD
  {
    if u < WORD {
      NearTimes(t, u, SLOT_NS);
    } else {
      BeforeWrap(t);
    }
  }

  /** The last slots that a 64-bit count reaches are the third and the fourth. */
  lemma BeforeWrap(t: nat)
    requires WORD - SLOT_NS < t < WORD
    ensures 3 <= SlotAt(t, SLOT_NS) <= 4
  {
    var a := t / SLOT_NS;
    assert WORD == SLOT_NS * 92233720368547 + 151616;
    assert a == 92233720368546 || a == 92233720368547;
  }

  lemma IntoCycle(ns: nat, cycle: nat)
    requires cycle > 0
    ensures exists q: nat :: ns == cycle * q + ns % cycle
  {
    assert ns == cycle * (ns / cycle) + ns % cycle;
  }

  /** read_time and its globals. Until the first reading the slot shown is 0. */
  class Clock {
    const cycleNs: nat
    const slotNs: nat
    var timeIntoCycle: nat
    var topo: nat
    ghost var readings: nat

    ghost predicate Valid()
      reads this
    {
      && slotNs > 0 && cycleNs == SLOTS * slotNs
      && topo <= SLOTS && (topo == 0 <==> readings == 0)
    }

    constructor (slotNs: nat)
      requires slotNs > 0
      ensures Valid() && this.slotNs == slotNs && topo == readings == 0
    {
      this.slotNs, cycleNs := slotNs, SLOTS * slotNs;
      timeIntoCycle, topo, readings := 0, 0, 0;
    }

    /** `sec` and `nsec` are what the NIC's clock says. */
    method ReadTime(sec: nat, nsec: nat)
      requires Valid()
      modifies this
      ensures Valid() && readings == old(readings) + 1
      ensures topo == SlotAt(Nsec(sec, nsec), slotNs)
      ensures timeIntoCycle < cycleNs && exists q: nat :: Nsec(sec, nsec) == cycleNs * q + timeIntoCycle
    {
      var current := Nsec(sec, nsec);
      timeIntoCycle := current % cycleNs;
      IntoCycle(current, cycleNs);
      SlotInCycle(current, slotNs);
      topo := (timeIntoCycle / slotNs + 1) % 256;
      readings := readings + 1;
    }
  }

  /** get_nsec */
  function Nsec(sec: nat, nsec: nat): (ns: nat)
    ensures ns < WORD
  {
    (sec * 1000000000 + nsec) % WORD
  }

  /** A second is 10^9 nanoseconds, and the count wraps at 64 bits. */
  lemma NsecCounts(sec: nat, nsec: nat)
    ensures nsec < 1000000000 ==> Nsec(0, nsec) == nsec
    ensures Nsec(sec + 1, nsec) == (Nsec(sec, nsec) + 1000000000) % WORD
    ensures Nsec(sec, nsec + 1) == (Nsec(sec, nsec) + 1) % WORD
  {
    WrapSum(sec * 1000000000 + nsec, 1000000000);
    WrapSum(sec * 1000000000 + nsec, 1);
  }

  lemma WrapSum(x: nat, y: nat)
    ensures (x % WORD + y) % WORD == (x + y) % WORD
  {
  }

  /** Two readings on either side of a full second, less than a slot apart, show
      the same slot or two that follow each other, as long as the count does not wrap. */
  lemma ReadingsAcrossSecond(sec: nat, before: nat, after: nat, slot: nat)
    requires slot > 0 && before < 1000000000 && after < 1000000000
    requires 1000000000 - before + after < slot
    requires (sec + 1) * 1000000000 + after < WORD
    ensures var t, u := SlotAt(Nsec(sec, before), slot), SlotAt(Nsec(sec + 1, after), slot);
            t == u || CyclicNext(t, u)
  {
    var t, u := sec * 1000000000 + before, (sec + 1) * 1000000000 + after;
    NoWrap(t);
    NoWrap(u);
    NearTimes(t, u, slot);
  }

  lemma NoWrap(x: nat)
    requires x < WORD
    ensures x % WORD == x
  {
  }

  // ----- the column-major matrix -----

  predicate InRange(rows: int, cols: int, row: int, col: int) {
    0 < row <= rows && 0 < col <= cols
  }

  function Elem(rows: int, row: int, col: int): int {
    (col - 1) * rows + (row - 1)
  }

  lemma ElemInRange(rows: int, cols: int, row: int, col: int)
    requires InRange(rows, cols, row, col)
    ensures 0 <= Elem(rows, row, col) < rows * cols
  {
    assert rows * cols == (col - 1) * rows + rows * (cols - col + 1);
    Multiple(rows, cols - col + 1);
    assert (col - 1) * rows == rows * (col - 1);
    if col > 1 { Multiple(rows, col - 1); }
  }

  /** No two elements share a cell of the data. */
  lemma ElemInjective(rows: int, cols: int, row: int, col: int, row': int, col': int)
    requires InRange(rows, cols, row, col) && InRange(rows, cols, row', col')
    requires Elem(rows, row, col) == Elem(rows, row', col')
    ensures row == row' && col == col'
  {
    DivUnique(Elem(rows, row, col), rows, col - 1, row - 1);
    DivUnique(Elem(rows, row', col'), rows, col' - 1, row' - 1);
  }

  /** Columns lie one after another, and the rows of a column next to each other. */
  lemma ColumnMajor(rows: int, row: int, col: int)
    ensures Elem(rows, 1, 1) == 0
    ensures Elem(rows, row + 1, col) == Elem(rows, row, col) + 1
    ensures Elem(rows, row, col + 1) == Elem(rows, row, col) + rows
  {
  }

  class RouteMatrix {
    const rows: int
    const cols: int
    const data: array<int>

    ghost predicate Valid() {
      rows > 0 && cols > 0 && data.Length == rows * cols
    }

    /** newRouteMatrix, when it does not return NULL; nothing is said of the values. */
    constructor (rows: int, cols: int)
      requires rows > 0 && cols > 0
      ensures Valid() && this.rows == rows && this.cols == cols && fresh(data)
    {
      this.rows, this.cols := rows, cols;
      Multiple(rows, cols);
      data := new int[rows * cols];
    }

    /** The value at a row and a column. */
    ghost function At(row: int, col: int): int
      reads data
      requires Valid() && InRange(rows, cols, row, col)
    {
      ElemInRange(rows, cols, row, col);
      data[Elem(rows, row, col)]
    }
  }

  /** The element set changes, and no other. */
  method SetRouteElement(mtx: RouteMatrix?, row: int, col: int, val: int) returns (status: int)
    requires mtx != null ==> mtx.Valid()
    modifies if mtx == null then {} else {mtx.data}
    ensures status == if mtx == null then -1 else if !InRange(mtx.rows, mtx.cols, row, col) then -2 else 0
    ensures mtx != null ==> forall r, c :: InRange(mtx.rows, mtx.cols, r, c) ==>
      mtx.At(r, c) == if r == row && c == col then val else old(mtx.At(r, c))
  {
    if mtx == null {
      return -1;
    }
    if row <= 0 || row > mtx.rows || col <= 0 || col > mtx.cols {
      return -2;
    }
    ElemInRange(mtx.rows, mtx.cols, row, col);
    mtx.data[Elem(mtx.rows, row, col)] := val;
    forall r, c | InRange(mtx.rows, mtx.cols, r, c)
      ensures mtx.At(r, c) == if r == row && c == col then val else old(mtx.At(r, c))
    {
      ElemInRange(mtx.rows, mtx.cols, r, c);
      if Elem(mtx.rows, r, c) == Elem(mtx.rows, row, col) {
        ElemInjective(mtx.rows, mtx.cols, r, c, row, col);
      }
    }
    return 0;
  }

  /** `val` is the caller's variable. */
  method GetRouteElement(mtx: RouteMatrix?, row: int, col: int, val: array?<int>) returns (status: int)
    requires mtx != null ==> mtx.Valid() && mtx.data != val
    requires val != null ==> val.Length == 1
    modifies if val == null then {} else {val}
    ensures status == if mtx == null || val == null then -1 else if !InRange(mtx.rows, mtx.cols, row, col) then -2 else 0
    ensures status == 0 ==> val[0] == mtx.At(row, col)
    ensures status != 0 && val != null ==> val[0] == old(val[0])
  {
    if mtx == null || val == null {
      return -1;
    }
    if row <= 0 || row > mtx.rows || col <= 0 || col > mtx.cols {
      return -2;
    }
    ElemInRange(mtx.rows, mtx.cols, row, col);
    val[0] := mtx.data[Elem(mtx.rows, row, col)];
    return 0;
  }

  /** The first i lines and the first j values of the next are in the matrix. */
  ghost predicate Loaded(mtx: RouteMatrix, lines: seq<seq<int>>, i: nat, j: nat)
    reads mtx.data
    requires mtx.Valid() && mtx.rows == SLOTS && mtx.cols == SLOTS
    requires forall i :: 0 <= i < |lines| ==> |lines[i]| == SLOTS
  {
    forall r, c :: 0 < r <= |lines| && 0 < r <= SLOTS && 0 < c <= SLOTS && (r <= i || (r == i + 1 && c <= j)) ==>
      mtx.At(r, c) == lines[r - 1][c - 1]
  }

  /** The loop that reads the route file: one line for each destination, one
      number for each slot; lines beyond the matrix are refused. */
  method LoadRoutes(lines: seq<seq<int>>) returns (mtx: RouteMatrix)
    requires forall i :: 0 <= i < |lines| ==> |lines[i]| == SLOTS
    ensures mtx.Valid() && mtx.rows == SLOTS && mtx.cols == SLOTS && fresh(mtx) && fresh(mtx.data)
    ensures forall r, c :: 0 < r <= |lines| && 0 < r <= SLOTS && 0 < c <= SLOTS ==> mtx.At(r, c) == lines[r - 1][c - 1]
  {
    mtx := new RouteMatrix(SLOTS, SLOTS);
    var i := 0;
    while i < |lines|
      invariant 0 <= i <= |lines| && fresh(mtx.data) && Loaded(mtx, lines, i, 0)
    {
      var j := 0;
      while j < SLOTS
        invariant 0 <= j <= SLOTS && fresh(mtx.data) && Loaded(mtx, lines, i, j)
      {
        var _ := SetRouteElement(mtx, i + 1, j + 1, lines[i][j]);
        j := j + 1;
      }
      i := i + 1;
    }
  }

  /** What encapsulation looks up, for a node v whose matrix is `mtx`: the hop
      that the routes give for the destination in the slot that the clock shows.
      Before the clock's first reading the lookup fails, and the caller, which
      does not ask for the status, goes on with an unset `macIndex`. */
  method LookUp(mtx: RouteMatrix, destIndex: nat, clock: Clock, macIndex: array<int>,
                ghost t: Topology.Tables, ghost v: nat)
    returns (status: int)
    requires clock.Valid() && macIndex.Length == 1 && macIndex != mtx.data
    requires Topology.Routed(t) && Topology.IsNode(t, v) && Topology.IsNode(t, destIndex + 1)
    requires Holds(mtx, t, v)
    modifies macIndex
    ensures status == if clock.readings == 0 then -2 else 0
    ensures status == 0 ==> macIndex[0] == Topology.Hop(Topology.Route(t, destIndex + 1, clock.topo), v)
    ensures status != 0 ==> macIndex[0] == old(macIndex[0])
  {
    status := GetRouteElement(mtx, destIndex + 1, clock.topo, macIndex);
  }

  /** The matrix has the routes of node v. */
  ghost predicate Holds(mtx: RouteMatrix, t: Topology.Tables, v: nat)
    reads mtx.data
    requires Topology.Routed(t) && Topology.IsNode(t, v)
  {
    && mtx.Valid() && mtx.rows == SLOTS && mtx.cols == SLOTS && |t| <= SLOTS
    && forall d, s :: 0 < d <= |t| && 0 < s <= SLOTS ==> mtx.At(d, s) == t[v - 1][d - 1][s - 1]
  }

  /** The input that fails: a lookup by a clock as the program starts with it. */
  method LookUpTooEarly(mtx: RouteMatrix, destIndex: nat, macIndex: array<int>, ghost t: Topology.Tables, ghost v: nat)
    returns (status: int)
    requires macIndex.Length == 1 && macIndex != mtx.data
    requires Topology.Routed(t) && Topology.IsNode(t, v) && Topology.IsNode(t, destIndex + 1)
    requires Holds(mtx, t, v)
    modifies macIndex
    ensures status == -2 && macIndex[0] == old(macIndex[0])
  {
    var clock := new Clock(SLOT_NS);
    status := LookUp(mtx, destIndex, clock, macIndex, t, v);
  }
}
