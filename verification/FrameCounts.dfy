/** Sums of multisets, and the frames that a list of addresses names. */
module FrameCounts {
  import opened Slabs

  /** The frames of a list of addresses: an address may carry an offset into its frame. */
  function FrameOf(a: Addr, bufferSize: nat): nat
    requires bufferSize > 0
  {
    a / bufferSize
  }

  function Ids(s: seq<Addr>, bufferSize: nat): multiset<nat>
    requires bufferSize > 0
  {
    multiset(seq(|s|, i requires 0 <= i < |s| => FrameOf(s[i], bufferSize)))
  }

  lemma IdsEmpty(bufferSize: nat)
    requires bufferSize > 0
    ensures Ids([], bufferSize) == multiset{}
  {
  }

  lemma IdsAppend(a: seq<Addr>, b: seq<Addr>, bs: nat)
    requires bs > 0
    ensures Ids(a + b, bs) == Ids(a, bs) + Ids(b, bs)
  {
    var x := seq(|a|, i requires 0 <= i < |a| => FrameOf(a[i], bs));
    var y := seq(|b|, i requires 0 <= i < |b| => FrameOf(b[i], bs));
    assert seq(|a + b|, i requires 0 <= i < |a + b| => FrameOf((a + b)[i], bs)) == x + y;
  }

  lemma IdsOne(a: Addr, bs: nat)
    requires bs > 0
    ensures Ids([a], bs) == multiset{FrameOf(a, bs)}
  {
    assert seq(1, i requires 0 <= i < 1 => FrameOf([a][i], bs)) == [FrameOf(a, bs)];
  }

  lemma IdsSnoc(s: seq<Addr>, a: Addr, bs: nat)
    requires bs > 0
    ensures Ids(s + [a], bs) == Ids(s, bs) + multiset{FrameOf(a, bs)}
  {
    IdsAppend(s, [a], bs);
    IdsOne(a, bs);
  }

  /** A list with one entry taken out. */
  function Without(s: seq<Addr>, i: nat): (r: seq<Addr>)
    requires i < |s|
    ensures |r| == |s| - 1
  {
    s[..i] + s[i + 1..]
  }

  lemma IdsWithout(s: seq<Addr>, i: nat, bs: nat)
    requires bs > 0 && i < |s|
    ensures Ids(s, bs) == multiset{FrameOf(s[i], bs)} + Ids(Without(s, i), bs)
  {
    assert s == s[..i] + ([s[i]] + s[i + 1..]);
    IdsAppend(s[..i], [s[i]] + s[i + 1..], bs);
    IdsAppend([s[i]], s[i + 1..], bs);
    IdsOne(s[i], bs);
    IdsAppend(s[..i], s[i + 1..], bs);
  }

  lemma IdsTail(s: seq<Addr>, bs: nat)
    requires bs > 0 && s != []
    ensures Ids(s, bs) == multiset{FrameOf(s[0], bs)} + Ids(s[1..], bs)
  {
    assert s == [s[0]] + s[1..];
    IdsAppend([s[0]], s[1..], bs);
    IdsOne(s[0], bs);
  }

  /** n * size, as n additions: the solver then meets no products. */
  function Times(n: nat, size: nat): nat {
    if n == 0 then 0 else Times(n - 1, size) + size
  }

  lemma {:induction false} TimesIs(n: nat, size: nat)
    ensures Times(n, size) == n * size
  {
    if n > 0 {
      TimesIs(n - 1, size);
      assert n * size == (n - 1) * size + size;
    }
  }

  lemma {:induction false} TimesSum(a: nat, b: nat, size: nat)
    ensures Times(a + b, size) == Times(a, size) + Times(b, size)
  {
    if b > 0 {
      TimesSum(a, b - 1, size);
      assert a + b - 1 == a + (b - 1);
    }
  }

  lemma TimesMonotone(a: nat, b: nat, size: nat)
    ensures a <= b ==> Times(a, size) <= Times(b, size)
  {
    if a <= b {
      TimesSum(a, b - a, size);
    }
  }

  lemma {:induction false} TimesDifference(n: nat, size: nat, less: nat)
    requires less <= size
    ensures Times(n, size - less) + Times(n, less) == Times(n, size)
  {
    if n > 0 {
      TimesDifference(n - 1, size, less);
    }
  }

  function Sum(parts: seq<multiset<nat>>): multiset<nat>
    decreases |parts|
  {
    if parts == [] then multiset{} else Sum(parts[..|parts| - 1]) + parts[|parts| - 1]
  }

  lemma {:induction false} SumUpdate(parts: seq<multiset<nat>>, i: nat, m: multiset<nat>)
    requires i < |parts|
    ensures Sum(parts[i := m]) + parts[i] == Sum(parts) + m
    decreases |parts|
  {
    var n := |parts| - 1;
    if i == n {
      assert parts[i := m][..n] == parts[..n];
    } else {
      SumUpdate(parts[..n], i, m);
      var front, last := Sum(parts[..n][i := m]), parts[n];
      assert parts[i := m][..n] == parts[..n][i := m];
      assert Sum(parts[i := m]) == front + last;
      assert front + parts[i] == Sum(parts[..n]) + m;
      assert (front + last) + parts[i] == (front + parts[i]) + last;
    }
  }

  lemma SumSnoc(parts: seq<multiset<nat>>, m: multiset<nat>)
    ensures Sum(parts + [m]) == Sum(parts) + m
  {
    assert (parts + [m])[..|parts|] == parts;
  }

  /** Parts of one size each add up to their number times that size. */
  lemma {:induction false} SumSize(parts: seq<multiset<nat>>, size: nat)
    requires forall i :: 0 <= i < |parts| ==> |parts[i]| == size
    ensures |Sum(parts)| == Times(|parts|, size)
    decreases |parts|
  {
    if parts != [] {
      SumSize(parts[..|parts| - 1], size);
    }
  }

  /** Parts of at least one size each, one of them larger by `more`. */
  lemma {:induction false} SumAtLeast(parts: seq<multiset<nat>>, size: nat, i: nat, more: nat)
    requires i < |parts|
    requires forall j :: 0 <= j < |parts| ==> |parts[j]| >= if j == i then size + more else size
    ensures |Sum(parts)| >= Times(|parts|, size) + more
    decreases |parts|
  {
    var n := |parts| - 1;
    if i == n {
      SumNoLess(parts[..n], size);
    } else {
      SumAtLeast(parts[..n], size, i, more);
    }
  }

  lemma {:induction false} SumNoLess(parts: seq<multiset<nat>>, size: nat)
    requires forall i :: 0 <= i < |parts| ==> |parts[i]| >= size
    ensures |Sum(parts)| >= Times(|parts|, size)
    decreases |parts|
  {
    if parts != [] {
      SumNoLess(parts[..|parts| - 1], size);
    }
  }

  /** Frames 0 to n - 1, once each. */
  function AllFrames(n: nat): multiset<nat> {
    multiset(seq(n, i => i))
  }

  lemma AllFramesOnce(n: nat, f: nat)
    ensures AllFrames(n)[f] == if f < n then 1 else 0
  {
    if n > 0 {
      AllFramesOnce(n - 1, f);
      assert seq(n, i => i) == seq(n - 1, i => i) + [n - 1];
    }
  }
}
