/** The growing key table: an array of nodes scanned from the start, where key 0
    marks a hole that a later add may take. */
module KeyTable {
  import opened Common

  /** Keys are unsigned 32-bit numbers. */
  type Key = k: int | 0 <= k < 0x1_0000_0000

  datatype Node = Node(key: Key, value: seq<Byte>)

  const HOLE: Key := 0

  function Hole(size: nat): Node {
    Node(HOLE, seq(size, _ => 0))
  }

  function Holes(count: nat, size: nat): (r: seq<Node>)
    ensures |r| == count && forall i :: 0 <= i < count ==> r[i] == Hole(size)
  {
    seq(count, _ => Hole(size))
  }

  /** The first node of a key, or the number of nodes. */
  function First(nodes: seq<Node>, key: Key): (i: nat)
    ensures i <= |nodes|
    ensures i < |nodes| ==> nodes[i].key == key
    ensures forall j :: 0 <= j < i ==> nodes[j].key != key
  {
    if nodes == [] || nodes[0].key == key then 0 else First(nodes[1..], key) + 1
  }

  lemma FirstIs(nodes: seq<Node>, key: Key, i: nat)
    requires i <= |nodes| && (i < |nodes| ==> nodes[i].key == key)
    requires forall j :: 0 <= j < i ==> nodes[j].key != key
    ensures First(nodes, key) == i
  {
  }

  predicate Present(nodes: seq<Node>, key: Key) {
    key != HOLE && First(nodes, key) < |nodes|
  }

  function Lookup(nodes: seq<Node>, key: Key): Option<seq<Byte>> {
    if Present(nodes, key) then Some(nodes[First(nodes, key)].value) else None
  }

  // ----- the writes, as functions on the nodes -----

  /** The nodes with room for one more key: doubled when there is no hole. */
  function Grown(nodes: seq<Node>, size: nat): seq<Node> {
    if First(nodes, HOLE) < |nodes| then nodes else nodes + Holes(|nodes|, size)
  }

  lemma GrownHasHole(nodes: seq<Node>, size: nat)
    requires nodes != []
    ensures First(Grown(nodes, size), HOLE) == First(nodes, HOLE) < |Grown(nodes, size)|
  {
    FirstIs(Grown(nodes, size), HOLE, First(nodes, HOLE));
  }

  function Added(nodes: seq<Node>, key: Key, value: seq<Byte>, size: nat): seq<Node>
    requires nodes != []
  {
    GrownHasHole(nodes, size);
    Grown(nodes, size)[First(nodes, HOLE) := Node(key, value)]
  }

  function Updated(nodes: seq<Node>, key: Key, value: seq<Byte>, size: nat): seq<Node>
    requires nodes != []
  {
    if Present(nodes, key) then nodes[First(nodes, key) := Node(key, value)] else Added(nodes, key, value, size)
  }

  function Deleted(nodes: seq<Node>, key: Key, size: nat): seq<Node> {
    if Present(nodes, key) then nodes[First(nodes, key) := Hole(size)] else nodes
  }

  // ----- the table is a map -----

  /** At most one node for each key. */
  ghost predicate Unique(nodes: seq<Node>) {
    forall i, j :: 0 <= i < |nodes| && 0 <= j < |nodes| && nodes[i].key == nodes[j].key != HOLE ==> i == j
  }

  /** The node of one key changes, to that key or another that was not there. */
  lemma OneNode(nodes: seq<Node>, i: nat, node: Node, q: Key)
    requires i < |nodes| && Unique(nodes) && q != HOLE
    requires node.key != HOLE && nodes[i].key != node.key ==> !Present(nodes, node.key)
    ensures Unique(nodes[i := node])
    ensures Lookup(nodes[i := node], q) ==
            if q == node.key then Some(node.value)
            else if q == nodes[i].key then None
            else Lookup(nodes, q)
  {
    var nodes' := nodes[i := node];
    assert forall j :: 0 <= j < |nodes| && j != i && node.key != HOLE ==> nodes[j].key != node.key by {
      if nodes[i].key != node.key && node.key != HOLE {
        assert First(nodes, node.key) == |nodes|;
      }
    }
    if q == node.key {
      FirstIs(nodes', q, i);
    } else if q == nodes[i].key {
      FirstIs(nodes', q, |nodes|);
    } else {
      FirstIs(nodes', q, First(nodes, q));
    }
  }

  lemma GrownSame(nodes: seq<Node>, size: nat, q: Key)
    requires Unique(nodes) && q != HOLE
    ensures Unique(Grown(nodes, size)) && Lookup(Grown(nodes, size), q) == Lookup(nodes, q)
  {
    var grown := Grown(nodes, size);
    if First(nodes, q) < |nodes| {
      FirstIs(grown, q, First(nodes, q));
    } else {
      FirstIs(grown, q, |grown|);
    }
  }

  /** Adding an absent key maps it and keeps every other key, also across holes
      taken again and across doubling. */
  lemma AddMaps(nodes: seq<Node>, key: Key, value: seq<Byte>, size: nat, q: Key)
    requires nodes != [] && Unique(nodes) && key != HOLE && q != HOLE && !Present(nodes, key)
    ensures Unique(Added(nodes, key, value, size))
    ensures Lookup(Added(nodes, key, value, size), q) == if q == key then Some(value) else Lookup(nodes, q)
  {
    GrownHasHole(nodes, size);
    GrownSame(nodes, size, q);
    GrownSame(nodes, size, key);
    OneNode(Grown(nodes, size), First(nodes, HOLE), Node(key, value), q);
  }

  /** An add keeps one node for each key exactly when its key was absent. */
  lemma AddUniqueIff(nodes: seq<Node>, key: Key, value: seq<Byte>, size: nat)
    requires nodes != [] && Unique(nodes) && key != HOLE
    ensures Unique(Added(nodes, key, value, size)) <==> !Present(nodes, key)
  {
    if !Present(nodes, key) {
      AddMaps(nodes, key, value, size, key);
    } else {
      var added, i, j := Added(nodes, key, value, size), First(nodes, HOLE), First(nodes, key);
      GrownHasHole(nodes, size);
      assert added[i].key == added[j].key == key && i != j;
    }
  }

  /** An add maps its key to the value if and only if the hole it takes comes
      before any node of that key, or that node has the value already. */
  lemma AddFoundIff(nodes: seq<Node>, key: Key, value: seq<Byte>, size: nat)
    requires nodes != [] && key != HOLE
    ensures Lookup(Added(nodes, key, value, size), key) == Some(value) <==>
            !Present(nodes, key) || First(nodes, HOLE) < First(nodes, key) || Lookup(nodes, key) == Some(value)
  {
    var i, j := First(nodes, HOLE), First(nodes, key);
    GrownHasHole(nodes, size);
    FirstIs(Added(nodes, key, value, size), key, if j < i then j else i);
  }

  lemma SetMaps(nodes: seq<Node>, key: Key, value: seq<Byte>, size: nat, q: Key)
    requires nodes != [] && Unique(nodes) && key != HOLE && q != HOLE
    ensures Unique(Updated(nodes, key, value, size))
    ensures Lookup(Updated(nodes, key, value, size), q) == if q == key then Some(value) else Lookup(nodes, q)
  {
    if Present(nodes, key) {
      OneNode(nodes, First(nodes, key), Node(key, value), q);
    } else {
      AddMaps(nodes, key, value, size, q);
    }
  }

  lemma DeleteMaps(nodes: seq<Node>, key: Key, size: nat, q: Key)
    requires Unique(nodes) && key != HOLE && q != HOLE
    ensures Unique(Deleted(nodes, key, size))
    ensures Lookup(Deleted(nodes, key, size), q) == if q == key then None else Lookup(nodes, q)
  {
    if Present(nodes, key) {
      OneNode(nodes, First(nodes, key), Hole(size), q);
    }
  }

  // ----- whole runs -----

  /** The writing calls, with keys and objects that are not null. */
  datatype Op = Add(key: Key, value: seq<Byte>) | Put(key: Key, value: seq<Byte>) | Delete(key: Key)

  function Apply(nodes: seq<Node>, op: Op, size: nat): (r: seq<Node>)
    requires nodes != []
    ensures r != []
  {
    match op
    case Add(key, value) => Added(nodes, key, value, size)
    case Put(key, value) => Updated(nodes, key, value, size)
    case Delete(key) => Deleted(nodes, key, size)
  }

  function Run(nodes: seq<Node>, ops: seq<Op>, size: nat): (r: seq<Node>)
    requires nodes != []
    ensures r != []
    decreases |ops|
  {
    if ops == [] then nodes else Run(Apply(nodes, ops[0], size), ops[1..], size)
  }

  function Model(m: map<Key, seq<Byte>>, op: Op): map<Key, seq<Byte>> {
    match op
    case Add(key, value) => m[key := value]
    case Put(key, value) => m[key := value]
    case Delete(key) => m - {key}
  }

  function ModelRun(m: map<Key, seq<Byte>>, ops: seq<Op>): map<Key, seq<Byte>>
    decreases |ops|
  {
    if ops == [] then m else ModelRun(Model(m, ops[0]), ops[1..])
  }

  /** No call has key 0, and adds are of keys that are absent. */
  ghost predicate Proper(m: map<Key, seq<Byte>>, ops: seq<Op>)
    decreases |ops|
  {
    ops == [] || (ops[0].key != HOLE && (ops[0].Add? ==> ops[0].key !in m) && Proper(Model(m, ops[0]), ops[1..]))
  }

  ghost predicate Agrees(nodes: seq<Node>, m: map<Key, seq<Byte>>, q: Key) {
    Lookup(nodes, q) == if q in m then Some(m[q]) else None
  }

  ghost predicate Represents(nodes: seq<Node>, m: map<Key, seq<Byte>>) {
    && nodes != [] && Unique(nodes)
    && forall q: Key :: q != HOLE ==> Agrees(nodes, m, q)
  }

  lemma ApplyAgrees(nodes: seq<Node>, m: map<Key, seq<Byte>>, op: Op, size: nat, q: Key)
    requires Represents(nodes, m) && op.key != HOLE && (op.Add? ==> op.key !in m) && q != HOLE
    ensures Unique(Apply(nodes, op, size)) && Agrees(Apply(nodes, op, size), Model(m, op), q)
  {
    assert Agrees(nodes, m, q) && Agrees(nodes, m, op.key);
    match op
    case Add(key, value) => AddMaps(nodes, key, value, size, q);
    case Put(key, value) => SetMaps(nodes, key, value, size, q);
    case Delete(key) => DeleteMaps(nodes, key, size, q);
  }

  lemma ApplyRepresents(nodes: seq<Node>, m: map<Key, seq<Byte>>, op: Op, size: nat)
    requires Represents(nodes, m) && op.key != HOLE && (op.Add? ==> op.key !in m)
    ensures Represents(Apply(nodes, op, size), Model(m, op))
  {
    ApplyAgrees(nodes, m, op, size, op.key);
    forall q: Key | q != HOLE
      ensures Agrees(Apply(nodes, op, size), Model(m, op), q)
    {
      ApplyAgrees(nodes, m, op, size, q);
    }
  }

  /** From an initialised table, any run of sets, deletes, and adds of absent
      keys is a run on a finite map, with one node for each key. */
  lemma {:induction false} RunRepresents(nodes: seq<Node>, m: map<Key, seq<Byte>>, ops: seq<Op>, size: nat)
    requires Represents(nodes, m) && Proper(m, ops)
    ensures Represents(Run(nodes, ops, size), ModelRun(m, ops))
    decreases |ops|
  {
    if ops != [] {
      ApplyRepresents(nodes, m, ops[0], size);
      RunRepresents(Apply(nodes, ops[0], size), Model(m, ops[0]), ops[1..], size);
    }
  }

  lemma FreshRepresents(count: nat, size: nat)
    requires count > 0
    ensures Represents(Holes(count, size), map[])
  {
  }

  /** The table grows only by doubling, and only when every node is in use. */
  lemma AddSize(nodes: seq<Node>, key: Key, value: seq<Byte>, size: nat)
    requires nodes != []
    ensures |Added(nodes, key, value, size)| ==
            if exists i :: 0 <= i < |nodes| && nodes[i].key == HOLE then |nodes| else 2 * |nodes|
  {
  }

  /** Every value has the table's size, and a hole holds zeros. */
  ghost predicate Clean(nodes: seq<Node>, size: nat) {
    && (forall i :: 0 <= i < |nodes| ==> |nodes[i].value| == size)
    && (forall i, j :: 0 <= i < |nodes| && nodes[i].key == HOLE && 0 <= j < |nodes[i].value| ==> nodes[i].value[j] == 0)
  }

  /** No call leaves bytes of a deleted value behind. */
  lemma ApplyClean(nodes: seq<Node>, op: Op, size: nat)
    requires nodes != [] && Clean(nodes, size) && op.key != HOLE && (!op.Delete? ==> |op.value| == size)
    ensures Clean(Apply(nodes, op, size), size)
  {
  }

  lemma FreshClean(count: nat, size: nat)
    ensures Clean(Holes(count, size), size)
  {
  }

  // ----- the code -----

  /** Memory allocations succeed; the table starts with no data. */
  class Table {
    var data: array?<Node>
    var valueSize: nat

    constructor ()
      ensures data == null
    {
      data, valueSize := null, 0;
    }

    ghost predicate Valid()
      reads this, data
    {
      data != null && data.Length > 0 && valueSize > 0
    }

    method Init(size: nat, initialCount: nat) returns (status: int)
      modifies this
      ensures status == if size == 0 then -10 else if initialCount == 0 then -11
                        else if old(data) != null then -20 else 0
      ensures status == 0 ==> Valid() && fresh(data) && valueSize == size && data[..] == Holes(initialCount, size)
      ensures status != 0 ==> data == old(data) && valueSize == old(valueSize)
    {
      if size == 0 {
        return -10;
      }
      if initialCount == 0 {
        return -11;
      }
      if data != null {
        return -20;
      }
      valueSize := size;
      data := new Node[initialCount](_ => Hole(size));
      return 0;
    }

    /** The place of a key's value, as the number of its node. */
    method Get(key: Key) returns (place: Option<nat>)
      ensures place.Some? <==> data != null && Present(data[..], key)
      ensures place.Some? ==> place.value == First(data[..], key) < data.Length
      ensures place.Some? ==> Lookup(data[..], key) == Some(data[place.value].value)
    {
      if data == null || key == HOLE {
        return None;
      }
      var i := Scan(key);
      return if i < data.Length then Some(i) else None;
    }

    /** The loop over the nodes that get and add share. */
    method Scan(key: Key) returns (i: nat)
      requires data != null
      ensures i == First(data[..], key)
    {
      i := 0;
      while i < data.Length
        invariant i <= data.Length
        invariant forall j :: 0 <= j < i ==> data[j].key != key
      {
        if data[i].key == key {
          break;
        }
        i := i + 1;
      }
      FirstIs(data[..], key, i);
    }

    method Add(key: Key, obj: Option<seq<Byte>>) returns (status: int)
      requires data != null ==> Valid()
      requires obj.Some? ==> |obj.value| >= valueSize
      modifies this`data, data
      ensures status == if old(data) == null then -2 else if key == HOLE then -3 else if obj.None? then -4 else 0
      ensures status == 0 ==>
        && Valid() && (data == old(data) || fresh(data))
        && data[..] == Added(old(data[..]), key, obj.value[..valueSize], valueSize)
      ensures status != 0 ==> data == old(data) && (data != null ==> data[..] == old(data[..]))
    {
      if data == null {
        return -2;
      }
      if key == HOLE {
        return -3;
      }
      if obj.None? {
        return -4;
      }
      ghost var nodes := data[..];
      var place := Scan(HOLE);
      GrownHasHole(nodes, valueSize);
      if place == data.Length {
        Double();
      }
      data[place] := Node(key, obj.value[..valueSize]);
      return 0;
    }

    /** realloc to twice the size, with the new half zeroed. */
    method Double()
      requires Valid()
      modifies this`data
      ensures Valid() && fresh(data)
      ensures data[..] == old(data[..]) + Holes(|old(data[..])|, valueSize)
    {
      var was, n := data, data.Length;
      var hole := Hole(valueSize);
      data := new Node[2 * n](i requires 0 <= i < 2 * n reads was => if i < n then was[i] else hole);
    }

    method Set(key: Key, obj: Option<seq<Byte>>) returns (status: int)
      requires data != null ==> Valid()
      requires obj.Some? ==> |obj.value| >= valueSize
      modifies this`data, data
      ensures status == if old(data) == null then -2 else if key == HOLE then -3 else if obj.None? then -4 else 0
      ensures status == 0 ==>
        && Valid() && (data == old(data) || fresh(data))
        && data[..] == Updated(old(data[..]), key, obj.value[..valueSize], valueSize)
      ensures status != 0 ==> data == old(data) && (data != null ==> data[..] == old(data[..]))
    {
      if data == null {
        return -2;
      }
      if key == HOLE {
        return -3;
      }
      if obj.None? {
        return -4;
      }
      var place := Get(key);
      if place.None? {
        var _ := Add(key, obj);
      } else {
        data[place.value] := Node(key, obj.value[..valueSize]);
      }
      return 0;
    }

    method Delete(key: Key) returns (status: int)
      requires data != null ==> Valid()
      modifies data
      ensures status == if data == null then -2 else if key == HOLE then -3 else 0
      ensures status == 0 ==> Valid() && data[..] == Deleted(old(data[..]), key, valueSize)
      ensures status == -3 ==> data[..] == old(data[..])
    {
      if data == null {
        return -2;
      }
      if key == HOLE {
        return -3;
      }
      var place := Get(key);
      if place.Some? {
        data[place.value] := Hole(valueSize);
      }
      return 0;
    }
  }
}
