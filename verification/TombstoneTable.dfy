/** The open-addressed table with tombstones: linear probing over cells that
    are null, live, or point to the one dummy item of key -1. */
module TombstoneTable {
  import opened Remainders

  /** The fields of an item never change once it is made. */
  class DataItem {
    const key: int
    const data: int

    constructor (key: int, data: int)
      ensures this.key == key && this.data == data
    {
      this.key, this.data := key, data;
    }
  }

  type Cells = seq<DataItem?>

  function HashCode(key: nat, n: nat): (h: nat)
    requires n > 0
    ensures h < n
  {
    key % n
  }

  /** Keys below the table's size start at their own cell, and every n-th key shares one. */
  lemma HashIs(key: nat, n: nat)
    requires n > 0
    ensures key < n ==> HashCode(key, n) == key
    ensures HashCode(key + n, n) == HashCode(key, n)
  {
    if key < n { Small(key, n); }
    CellOfLap(key, n);
  }

  /** The cell that a probe from cell h reads after d steps. */
  function Probed(h: nat, d: nat, n: nat): (j: nat)
    requires h < n && d < n
    ensures j < n
  {
    if h + d < n then h + d else h + d - n
  }

  /** The number of steps from cell h to cell j. */
  function Steps(h: nat, j: nat, n: nat): (d: nat)
    requires h < n && j < n
    ensures d < n && Probed(h, d, n) == j
    ensures forall e :: 0 <= e < n && Probed(h, e, n) == j ==> e == d
  {
    if h <= j then j - h else j + n - h
  }

  predicate Live(cells: Cells, j: nat) {
    j < |cells| && cells[j] != null && cells[j].key >= 0
  }

  /** A probe from cell h reads no null cell in its first d steps. */
  ghost predicate Unbroken(cells: Cells, h: nat, d: nat)
    requires h < |cells| && d <= |cells|
  {
    forall e :: 0 <= e < d ==> cells[Probed(h, e, |cells|)] != null
  }

  /** The item of cell j is found by probing for its key. */
  ghost predicate Reachable(cells: Cells, j: nat)
    requires Live(cells, j)
  {
    var h := HashCode(cells[j].key, |cells|);
    Unbroken(cells, h, Steps(h, j, |cells|))
  }

  /** Where each present key is kept. */
  type Places = map<int, nat>

  ghost predicate Kept(cells: Cells, places: Places, j: nat) {
    Live(cells, j) ==> cells[j].key in places && places[cells[j].key] == j && Reachable(cells, j)
  }

  ghost predicate Placed(cells: Cells, places: Places, key: int) {
    key in places ==> key >= 0 && Live(cells, places[key]) && cells[places[key]].key == key
  }

  ghost predicate AllPlaced(cells: Cells, places: Places) {
    forall key: int :: Placed(cells, places, key)
  }

  predicate Sorted(cells: Cells, dummy: DataItem, j: nat)
    requires j < |cells|
  {
    cells[j] == null || cells[j] == dummy || cells[j].key >= 0
  }

  /** Every cell is null, the dummy or live; each present key has exactly one
      cell, which a probe for it reaches. */
  ghost predicate Tied(cells: Cells, dummy: DataItem, places: Places) {
    && |cells| > 0 && dummy.key == -1
    && (forall j: nat :: j < |cells| ==> Sorted(cells, dummy, j))
    && (forall j: nat :: Kept(cells, places, j))
    && AllPlaced(cells, places)
  }

  /** The items of the present keys. */
  ghost function Contents(cells: Cells, places: Places): map<int, DataItem>
    requires AllPlaced(cells, places)
  {
    map key | key in places :: Item(cells, places, key)
  }

  ghost function Item(cells: Cells, places: Places, key: int): DataItem
    requires Placed(cells, places, key) && key in places
  {
    cells[places[key]]
  }

  function NullCells(cells: Cells): set<nat> {
    set j | 0 <= j < |cells| && cells[j] == null
  }

  // ----- what one probe finds -----

  predicate Stops(cell: DataItem?, key: int) {
    cell == null || cell.key == key
  }

  /** A probe for `key` ends: with its item if it is present, else at a null cell. */
  ghost predicate Ends(cells: Cells, key: nat)
    requires |cells| > 0
  {
    exists d: nat :: d < |cells| && Stops(cells[Probed(HashCode(key, |cells|), d, |cells|)], key)
  }

  /** That is so exactly when the key is present or a null cell is left. */
  lemma EndsIff(cells: Cells, dummy: DataItem, places: Places, key: nat)
    requires Tied(cells, dummy, places)
    ensures Ends(cells, key) <==> key in places || NullCells(cells) != {}
  {
    var n := |cells|;
    var h := HashCode(key, n);
    assert Placed(cells, places, key);
    if Ends(cells, key) {
      var d: nat :| d < n && Stops(cells[Probed(h, d, n)], key);
      var j := Probed(h, d, n);
      assert cells[j] == null ==> j in NullCells(cells);
      assert Kept(cells, places, j);
    } else if key in places {
      assert Stops(cells[Probed(h, Steps(h, places[key], n), n)], key);
    } else if j :| j in NullCells(cells) {
      assert Stops(cells[Probed(h, Steps(h, j, n), n)], key);
    }
  }

  /** A present key comes before every null cell of its probe. */
  lemma FoundBefore(cells: Cells, dummy: DataItem, places: Places, key: nat, d: nat)
    requires Tied(cells, dummy, places) && d < |cells| && key in places
    requires cells[Probed(HashCode(key, |cells|), d, |cells|)] == null
    ensures places[key] < |cells|
    ensures var h := HashCode(key, |cells|);
            var m := Steps(h, places[key], |cells|);
            m < d && Stops(cells[Probed(h, m, |cells|)], key)
  {
    assert Placed(cells, places, key) && Kept(cells, places, places[key]);
  }

  /** Where a probe for `key` ends at a null cell, the key is absent. */
  lemma NullMeansAbsent(cells: Cells, dummy: DataItem, places: Places, key: nat, d: nat)
    requires Tied(cells, dummy, places) && d < |cells|
    requires var h := HashCode(key, |cells|);
             && cells[Probed(h, d, |cells|)] == null
             && forall e :: 0 <= e < d ==> !Stops(cells[Probed(h, e, |cells|)], key)
    ensures key !in places
  {
    if key in places {
      FoundBefore(cells, dummy, places, key, d);
    }
  }

  // ----- what the writes keep -----

  /** Filling cells and changing live ones breaks no probe. */
  lemma StillReachable(cells: Cells, item: DataItem, j: nat, i: nat)
    requires j < |cells| && i != j && Live(cells, i) && Reachable(cells, i)
    ensures Reachable(cells[j := item], i)
  {
  }

  ghost predicate HasFree(cells: Cells) {
    exists j: nat :: j < |cells| && !Live(cells, j)
  }

  /** Where insert writes: at the first cell of the key's probe that is null or dummy. */
  ghost predicate FirstFree(cells: Cells, key: nat, d: nat) {
    && d < |cells|
    && var h := HashCode(key, |cells|);
       !Live(cells, Probed(h, d, |cells|)) && forall e :: 0 <= e < d ==> Live(cells, Probed(h, e, |cells|))
  }

  /** The cells after an insert that writes after d steps of its probe. */
  function Inserted(cells: Cells, item: DataItem, d: nat): Cells
    requires item.key >= 0 && d < |cells|
  {
    cells[Probed(HashCode(item.key, |cells|), d, |cells|) := item]
  }

  /** The write ties an absent key to the item and keeps every other key. */
  lemma InsertKeeps(cells: Cells, dummy: DataItem, places: Places, item: DataItem, d: nat)
    requires Tied(cells, dummy, places) && item.key >= 0 && FirstFree(cells, item.key, d)
    requires item.key !in places
    ensures var j := Probed(HashCode(item.key, |cells|), d, |cells|);
            Tied(Inserted(cells, item, d), dummy, places[item.key := j])
  {
    var j := Probed(HashCode(item.key, |cells|), d, |cells|);
    var cells', places' := cells[j := item], places[item.key := j];
    forall i: nat
      ensures Kept(cells', places', i)
    {
      assert Kept(cells, places, i);
      if Live(cells, i) {
        StillReachable(cells, item, j, i);
      }
    }
    forall key: int
      ensures Placed(cells', places', key)
    {
      assert Placed(cells, places, key);
    }
    forall i: nat | i < |cells|
      ensures Sorted(cells', dummy, i)
    {
      assert Sorted(cells, dummy, i);
    }
  }

  // ----- a second item of a present key -----

  /** Each key has at most one live cell. */
  ghost predicate OneEach(cells: Cells) {
    forall i: nat, j: nat :: Live(cells, i) && Live(cells, j) && cells[i].key == cells[j].key ==> i == j
  }

  /** After an insert each key has one cell if and only if the key was absent. */
  lemma OneEachIff(cells: Cells, dummy: DataItem, places: Places, item: DataItem, d: nat)
    requires Tied(cells, dummy, places) && item.key >= 0 && FirstFree(cells, item.key, d)
    ensures OneEach(Inserted(cells, item, d)) <==> item.key !in places
  {
    var j, cells' := Probed(HashCode(item.key, |cells|), d, |cells|), Inserted(cells, item, d);
    assert Placed(cells, places, item.key);
    if item.key !in places {
      InsertKeeps(cells, dummy, places, item, d);
      TiedIsOneEach(cells', dummy, places[item.key := j]);
    } else {
      assert Live(cells', places[item.key]) && Live(cells', j);
    }
  }

  lemma TiedIsOneEach(cells: Cells, dummy: DataItem, places: Places)
    requires Tied(cells, dummy, places)
    ensures OneEach(cells)
  {
    forall i: nat, j: nat | Live(cells, i) && Live(cells, j) && cells[i].key == cells[j].key
      ensures i == j
    {
      assert Kept(cells, places, i) && Kept(cells, places, j);
    }
  }

  /** A search for `key` returns what is in the cell it reads after m steps. */
  ghost predicate FindsAfter(cells: Cells, key: nat, m: nat) {
    && m < |cells|
    && var h := HashCode(key, |cells|);
       && cells[Probed(h, m, |cells|)] != null && Stops(cells[Probed(h, m, |cells|)], key)
       && forall e :: 0 <= e < m ==> !Stops(cells[Probed(h, e, |cells|)], key)
  }

  /** For a present key, the next search returns the new item exactly when the
      free cell comes before the old item on the probe; else the old one. */
  lemma SecondItemFoundIff(cells: Cells, dummy: DataItem, places: Places, item: DataItem, d: nat)
    requires Tied(cells, dummy, places) && item.key >= 0 && FirstFree(cells, item.key, d)
    requires item.key in places
    ensures places[item.key] < |cells|
    ensures var m := Steps(HashCode(item.key, |cells|), places[item.key], |cells|);
            && (FindsAfter(Inserted(cells, item, d), item.key, d) <==> d < m)
            && (FindsAfter(Inserted(cells, item, d), item.key, m) <==> m < d)
  {
    var n, key := |cells|, item.key;
    var h := HashCode(key, n);
    assert Placed(cells, places, key);
    var m, cells' := Steps(h, places[key], n), Inserted(cells, item, d);
    assert Probed(h, m, n) == places[key] && m != d;
    forall e | 0 <= e < n && e != m && e != d
      ensures cells'[Probed(h, e, n)] == cells[Probed(h, e, n)]
      ensures cells[Probed(h, e, n)] != null ==> cells[Probed(h, e, n)].key != key
    {
      assert Probed(h, e, n) != Probed(h, d, n);
      assert Kept(cells, places, Probed(h, e, n));
    }
    assert Stops(cells'[Probed(h, d, n)], key) && Stops(cells'[Probed(h, m, n)], key);
    assert Kept(cells, places, places[key]);
  }

  /** Two cells, and inserts of 2 and 0, a delete of 2 and an insert of 0: the
      last item lands in the tombstone and hides the earlier one. */
  lemma LaterItemHides(dummy: DataItem, two: DataItem, zero: DataItem, again: DataItem)
    requires dummy.key == -1 && two.key == 2 && zero.key == again.key == 0
    ensures var start: Cells := [null, null];
            && FirstFree(start, 2, 0) && Inserted(start, two, 0) == [two, null]
            && FirstFree([two, null], 0, 1) && Inserted([two, null], zero, 1) == [two, zero]
            && Tied([dummy, zero], dummy, map[0 := 1])
            && FirstFree([dummy, zero], 0, 0) && Inserted([dummy, zero], again, 0) == [again, zero]
            && FindsAfter([again, zero], 0, 0)
  {
    assert HashCode(2, 2) == 0 && HashCode(0, 2) == 0;
    var start: Cells, one: Cells, last: Cells := [null, null], [two, null], [dummy, zero];
    assert Probed(0, 0, 2) == 0 && Probed(0, 1, 2) == 1;
    assert Steps(0, 1, 2) == 1;
    assert Live(one, 0) && !Live(one, 1) && Live(last, 1) && !Live(last, 0);
    assert !Live(start, 0);
    forall j: nat
      ensures Kept(last, map[0 := 1], j)
    {
    }
  }

  /** A live cell may be turned into a tombstone. */
  lemma DeleteKeeps(cells: Cells, dummy: DataItem, places: Places, j: nat)
    requires Tied(cells, dummy, places) && Live(cells, j)
    ensures Tied(cells[j := dummy], dummy, places - {cells[j].key})
  {
    var cells', places' := cells[j := dummy], places - {cells[j].key};
    assert Kept(cells, places, j);
    forall i: nat
      ensures Kept(cells', places', i)
    {
      assert Kept(cells, places, i);
      if Live(cells, i) && i != j {
        StillReachable(cells, dummy, j, i);
      }
    }
    forall key: int
      ensures Placed(cells', places', key)
    {
      assert Placed(cells, places, key);
    }
    forall i: nat | i < |cells|
      ensures Sorted(cells', dummy, i)
    {
      assert Sorted(cells, dummy, i);
    }
  }

  /** `++hashIndex; hashIndex %= DEST_COUNT` is one more step of the probe. */
  lemma NextProbed(h: nat, d: nat, n: nat)
    requires h < n && d + 1 < n
    ensures (Probed(h, d, n) + 1) % n == Probed(h, d + 1, n)
  {
    var j := Probed(h, d, n) + 1;
    if j == n {
      assert j % n == 0;
    } else {
      assert j % n == j;
    }
  }

  /** A probe that has not ended has cells left to read. */
  lemma Onward(cells: Cells, key: nat, d: nat)
    requires |cells| > 0 && Ends(cells, key) && d < |cells|
    requires forall e :: 0 <= e <= d ==> !Stops(cells[Probed(HashCode(key, |cells|), e, |cells|)], key)
    ensures d + 1 < |cells|
  {
    var h := HashCode(key, |cells|);
    var m: nat :| m < |cells| && Stops(cells[Probed(h, m, |cells|)], key);
  }

  lemma InsertContents(cells: Cells, places: Places, item: DataItem, j: nat)
    requires j < |cells| && !Live(cells, j) && AllPlaced(cells, places)
    requires AllPlaced(cells[j := item], places[item.key := j])
    ensures Contents(cells[j := item], places[item.key := j]) == Contents(cells, places)[item.key := item]
  {
    var cells', places' := cells[j := item], places[item.key := j];
    forall key | key in places'
      ensures Contents(cells', places')[key] == Contents(cells, places)[item.key := item][key]
    {
      assert Placed(cells, places, key) && Placed(cells', places', key);
    }
  }

  lemma InsertNulls(cells: Cells, item: DataItem, j: nat)
    requires j < |cells|
    ensures NullCells(cells[j := item]) <= NullCells(cells)
    ensures |NullCells(cells)| <= |NullCells(cells[j := item])| + 1
  {
    assert NullCells(cells[j := item]) == NullCells(cells) - {j};
  }

  lemma DeleteContents(cells: Cells, places: Places, dummy: DataItem, j: nat)
    requires Live(cells, j) && AllPlaced(cells, places) && AllPlaced(cells[j := dummy], places - {cells[j].key})
    ensures Contents(cells[j := dummy], places - {cells[j].key}) == Contents(cells, places) - {cells[j].key}
  {
    var cells', places' := cells[j := dummy], places - {cells[j].key};
    forall key | key in places'
      ensures Contents(cells', places')[key] == Contents(cells, places)[key]
    {
      assert Placed(cells, places, key) && Placed(cells', places', key);
    }
  }

  class Table {
    const hashArray: array<DataItem?>
    const dummyItem: DataItem
    ghost var places: Places

    ghost predicate Valid()
      reads this, hashArray
    {
      Tied(hashArray[..], dummyItem, places)
    }

    ghost function Items(): map<int, DataItem>
      reads this, hashArray
      requires Valid()
    {
      Contents(hashArray[..], places)
    }

    constructor (destCount: nat)
      requires destCount > 0
      ensures Valid() && fresh(hashArray) && hashArray.Length == destCount && Items() == map[]
      ensures forall j :: 0 <= j < destCount ==> hashArray[j] == null
    {
      hashArray := new DataItem?[destCount](_ => null);
      dummyItem := new DataItem(-1, -1);
      places := map[];
    }

    method Search(key: nat) returns (item: DataItem?)
      requires Valid() && (key in places || NullCells(hashArray[..]) != {})
      ensures item == if key in Items() then Items()[key] else null
    {
      ghost var cells := hashArray[..];
      var n := hashArray.Length;
      var hashIndex := HashCode(key, n);
      EndsIff(cells, dummyItem, places, key);
      ghost var h, d := hashIndex, 0;
      while hashArray[hashIndex] != null
        invariant d < n && hashIndex == Probed(h, d, n)
        invariant forall e :: 0 <= e < d ==> !Stops(cells[Probed(h, e, n)], key)
        decreases n - d
      {
        if hashArray[hashIndex].key == key {
          assert Kept(cells, places, hashIndex);
          return hashArray[hashIndex];
        }
        Onward(cells, key, d);
        NextProbed(h, d, n);
        hashIndex := (hashIndex + 1) % n;
        d := d + 1;
      }
      NullMeansAbsent(cells, dummyItem, places, key, d);
      return null;
    }

    /** The write goes to the first null or dummy cell of the probe, whether or
        not the key is present; an absent key is then mapped to the new item. */
    method Insert(key: nat, data: int) returns (ghost item: DataItem, ghost d: nat)
      requires Valid() && HasFree(hashArray[..])
      modifies this, hashArray
      ensures fresh(item) && item.key == key && item.data == data
      ensures FirstFree(old(hashArray[..]), key, d) && hashArray[..] == Inserted(old(hashArray[..]), item, d)
      ensures key !in old(places) ==> Valid() && Items() == old(Items())[key := item]
      ensures key in old(places) ==> places == old(places)
      ensures NullCells(hashArray[..]) <= old(NullCells(hashArray[..]))
      ensures |old(NullCells(hashArray[..]))| <= |NullCells(hashArray[..])| + 1
    {
      ghost var cells := hashArray[..];
      var made := new DataItem(key, data);
      var n := hashArray.Length;
      var hashIndex := HashCode(key, n);
      ghost var h := hashIndex;
      ghost var j: nat :| j < n && !Live(cells, j);
      item, d := made, 0;
      while hashArray[hashIndex] != null && hashArray[hashIndex].key != -1
        invariant d < n && hashIndex == Probed(h, d, n)
        invariant hashArray[..] == cells && places == old(places)
        invariant forall e :: 0 <= e < d ==> Live(cells, Probed(h, e, n))
        decreases n - d
      {
        assert Sorted(cells, dummyItem, hashIndex);
        assert Probed(h, Steps(h, j, n), n) == j;
        NextProbed(h, d, n);
        hashIndex := (hashIndex + 1) % n;
        d := d + 1;
      }
      InsertNulls(cells, item, hashIndex);
      if key !in places {
        InsertKeeps(cells, dummyItem, places, item, d);
        InsertContents(cells, places, item, hashIndex);
      }
      hashArray[hashIndex] := made;
      assert hashArray[..] == cells[hashIndex := item];
      if key !in places {
        places := places[key := hashIndex];
      }
    }

    /** delete looks the key of `item` up again; it returns what the table held. */
    method Delete(item: DataItem) returns (deleted: DataItem?)
      requires Valid() && item.key >= 0
      requires item.key in places || NullCells(hashArray[..]) != {}
      modifies this, hashArray
      ensures Valid() && Items() == old(Items()) - {item.key}
      ensures deleted == if item.key in old(Items()) then old(Items())[item.key] else null
      ensures NullCells(hashArray[..]) == old(NullCells(hashArray[..]))
    {
      ghost var cells := hashArray[..];
      var key: nat := item.key;
      var n := hashArray.Length;
      var hashIndex := HashCode(key, n);
      EndsIff(cells, dummyItem, places, key);
      ghost var h, d := hashIndex, 0;
      while hashArray[hashIndex] != null
        invariant d < n && hashIndex == Probed(h, d, n)
        invariant hashArray[..] == cells && places == old(places)
        invariant forall e :: 0 <= e < d ==> !Stops(cells[Probed(h, e, n)], key)
        decreases n - d
      {
        if hashArray[hashIndex].key == key {
          DeleteKeeps(cells, dummyItem, places, hashIndex);
          assert Kept(cells, places, hashIndex);
          deleted := hashArray[hashIndex];
          hashArray[hashIndex] := dummyItem;
          places := places - {key};
          assert hashArray[..] == cells[hashIndex := dummyItem];
          DeleteContents(cells, old(places), dummyItem, hashIndex);
          return;
        }
        Onward(cells, key, d);
        NextProbed(h, d, n);
        hashIndex := (hashIndex + 1) % n;
        d := d + 1;
      }
      NullMeansAbsent(cells, dummyItem, places, key, d);
      return null;
    }
  }
}
