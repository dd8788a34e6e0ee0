/** Jenkins' hash in its forms over bytes, over words and over one to three words. */
module Jhash {
  import opened Common
  import opened Remainders

  const WRAP: int := 0x1_0000_0000

  /** Unsigned 32-bit words, with the wrap-around of C's operators written out. */
  type Word = w: int | 0 <= w < WRAP

  function Add(x: Word, y: Word): Word {
    if x + y < WRAP then x + y else x + y - WRAP
  }

  function Sub(x: Word, y: Word): Word {
    if x >= y then x - y else x - y + WRAP
  }

  function Pow2(n: nat): (r: int)
    ensures r > 0
  {
    if n == 0 then 1 else 2 * Pow2(n - 1)
  }

  /** Exclusive or of the lowest n bits. */
  function XorBits(x: nat, y: nat, n: nat): (r: nat)
    ensures r < Pow2(n)
  {
    if n == 0 then 0 else (if x % 2 == y % 2 then 0 else 1) + 2 * XorBits(x / 2, y / 2, n - 1)
  }

  lemma WrapIsPow2()
    ensures Pow2(32) == WRAP
  {
    assert Pow2(8) == 256;
    PowSum(8, 8);
    PowSum(16, 16);
  }

  function Xor(x: Word, y: Word): Word {
    WrapIsPow2();
    XorBits(x, y, 32)
  }

  lemma {:induction false} XorBitsTwice(x: nat, y: nat, n: nat)
    requires x < Pow2(n)
    ensures XorBits(XorBits(x, y, n), y, n) == x
  {
    if n > 0 {
      XorBitsTwice(x / 2, y / 2, n - 1);
      Halves(if x % 2 == y % 2 then 0 else 1, XorBits(x / 2, y / 2, n - 1));
    }
  }

  lemma Halves(bit: nat, rest: nat)
    requires bit < 2
    ensures (bit + 2 * rest) % 2 == bit && (bit + 2 * rest) / 2 == rest
  {
  }

  lemma XorTwice(x: Word, y: Word)
    ensures Xor(Xor(x, y), y) == x
  {
    WrapIsPow2();
    XorBitsTwice(x, y, 32);
  }

  /** Bit i of a number. */
  function BitAt(x: nat, i: nat): nat {
    if i == 0 then x % 2 else BitAt(x / 2, i - 1)
  }

  /** Each bit of an exclusive or tells whether the two bits at its place differ. */
  lemma {:induction false} XorAtBit(x: nat, y: nat, n: nat, i: nat)
    requires i < n
    ensures BitAt(XorBits(x, y, n), i) == if BitAt(x, i) == BitAt(y, i) then 0 else 1
  {
    Halves(if x % 2 == y % 2 then 0 else 1, XorBits(x / 2, y / 2, n - 1));
    if i > 0 {
      XorAtBit(x / 2, y / 2, n - 1, i - 1);
    }
  }

  /** Addition and subtraction wrap around at 32 bits. */
  lemma WrapsAround(x: Word, y: Word)
    ensures Add(x, y) == (x + y) % WRAP && Sub(x, y) == (x - y) % WRAP
  {
  }

  /** One place to the left, the top bit coming in at the bottom. */
  function Turn(w: Word): Word {
    if 2 * w < WRAP then 2 * w else 2 * w - WRAP + 1
  }

  function Rol32(word: Word, shift: nat): Word {
    if shift == 0 then word else Turn(Rol32(word, shift - 1))
  }

  lemma {:induction false} PowSum(a: nat, b: nat)
    ensures Pow2(a) * Pow2(b) == Pow2(a + b)
  {
    if a > 0 {
      PowSum(a - 1, b);
      assert Pow2(a) * Pow2(b) == 2 * (Pow2(a - 1) * Pow2(b));
    }
  }

  /** Rotation is `(word << shift) | (word >> (32 - shift))`: the top bits
      become the bottom bits and the others move up. */
  lemma {:induction false} Rol32IsShifts(w: Word, top: nat, rest: nat, shift: nat, p: nat, q: nat)
    requires shift <= 32 && p == Pow2(shift) && q == Pow2(32 - shift)
    requires w == top * q + rest && top < p && rest < q
    ensures Rol32(w, shift) == rest * p + top
  {
    if shift > 0 {
      var h := Pow2(shift - 1);
      Cycle(shift - 1, h, q);
      Regroup(top, rest, q);
      Rol32IsShifts(w, top / 2, top % 2 * q + rest, shift - 1, h, 2 * q);
      Turned(top, rest, h, q);
    }
  }

  lemma Cycle(n: nat, p: nat, q: nat)
    requires n <= 31 && p == Pow2(n) && q == Pow2(31 - n)
    ensures p * (2 * q) == WRAP
  {
    PowSum(n, 32 - n);
    WrapIsPow2();
  }

  lemma InRange(top: nat, rest: nat, p: nat, q: nat)
    requires top < p && rest < q
    ensures top * q + rest < p * q
  {
    assert top * q <= (p - 1) * q;
  }

  lemma Regroup(top: nat, rest: nat, q: nat)
    ensures top / 2 * (2 * q) + (top % 2 * q + rest) == top * q + rest
    ensures rest < q ==> top % 2 * q + rest < 2 * q
  {
    var half, bit := top / 2, top % 2;
    assert (2 * half + bit) * q == half * (2 * q) + bit * q;
    if bit == 1 {
      assert 1 * q == q;
    } else {
      assert 0 * q == 0;
    }
  }

  lemma Turned(top: nat, rest: nat, p: nat, q: nat)
    requires top < 2 * p && rest < q && p * (2 * q) == WRAP
    ensures var x := (top % 2 * q + rest) * p + top / 2;
            x < WRAP && Turn(x) == rest * (2 * p) + top
  {
    var half, x := top / 2, (top % 2 * q + rest) * p + top / 2;
    InRange(rest, half, q, p);
    assert p * (2 * q) == 2 * (p * q);
    assert rest * (2 * p) == 2 * (rest * p);
    if top % 2 == 1 {
      assert (1 * q + rest) * p == p * q + rest * p;
    } else {
      assert (0 * q + rest) * p == rest * p;
    }
  }

  // ----- mixing, and its inverse -----

  datatype Abc = Abc(a: Word, b: Word, c: Word)

  /** `x -= z; x ^= rol32(z, shift)` */
  function Line(x: Word, z: Word, shift: nat): Word {
    Xor(Sub(x, z), Rol32(z, shift))
  }

  function Unline(x: Word, z: Word, shift: nat): Word {
    Add(Xor(x, Rol32(z, shift)), z)
  }

  lemma LineUndone(x: Word, z: Word, shift: nat)
    ensures Unline(Line(x, z, shift), z, shift) == x && Line(Unline(x, z, shift), z, shift) == x
  {
    XorTwice(Sub(x, z), Rol32(z, shift));
    XorTwice(x, Rol32(z, shift));
  }

  /** Three lines of the mixing step; after each, one variable is added to another. */
  function Half(s: Abc, k: nat, l: nat, m: nat): Abc {
    var a := Line(s.a, s.c, k);
    var c := Add(s.c, s.b);
    var b := Line(s.b, a, l);
    var a' := Add(a, c);
    var c' := Line(c, b, m);
    Abc(a', Add(b, a'), c')
  }

  function Unhalf(s: Abc, k: nat, l: nat, m: nat): Abc {
    var b := Sub(s.b, s.a);
    var c := Unline(s.c, b, m);
    var a := Sub(s.a, c);
    var b' := Unline(b, a, l);
    var c' := Sub(c, b');
    Abc(Unline(a, c', k), b', c')
  }

  lemma HalfThenBack(s: Abc, k: nat, l: nat, m: nat)
    ensures Unhalf(Half(s, k, l, m), k, l, m) == s
  {
    var a, c := Line(s.a, s.c, k), Add(s.c, s.b);
    var b := Line(s.b, a, l);
    LineUndone(s.a, s.c, k);
    LineUndone(s.b, a, l);
    LineUndone(c, b, m);
    SubOfAdd(b, Add(a, c));
    SubOfAdd(a, c);
    SubOfAdd(s.c, s.b);
  }

  lemma BackThenHalf(s: Abc, k: nat, l: nat, m: nat)
    ensures Half(Unhalf(s, k, l, m), k, l, m) == s
  {
    var b := Sub(s.b, s.a);
    var c := Unline(s.c, b, m);
    var a := Sub(s.a, c);
    var b' := Unline(b, a, l);
    LineUndone(s.c, b, m);
    LineUndone(b, a, l);
    LineUndone(a, Sub(c, b'), k);
    SubOfAdd(s.b, s.a);
    SubOfAdd(s.a, c);
    SubOfAdd(c, b');
  }

  lemma SubOfAdd(x: Word, y: Word)
    ensures Sub(Add(x, y), y) == x && Add(Sub(x, y), y) == x
  {
  }

  function Mix(s: Abc): Abc {
    Half(Half(s, 4, 6, 8), 16, 19, 4)
  }

  function Unmix(s: Abc): Abc {
    Unhalf(Unhalf(s, 16, 19, 4), 4, 6, 8)
  }

  /** Mixing is a bijection on the three words. */
  lemma MixBijective(s: Abc)
    ensures Unmix(Mix(s)) == s && Mix(Unmix(s)) == s
  {
    HalfThenBack(s, 4, 6, 8);
    HalfThenBack(Half(s, 4, 6, 8), 16, 19, 4);
    BackThenHalf(s, 16, 19, 4);
    BackThenHalf(Unhalf(s, 16, 19, 4), 4, 6, 8);
  }

  /** The eighteen assignments of the mixing step, in their order. */
  lemma MixIs(a0: Word, b0: Word, c0: Word)
    ensures var a1 := Xor(Sub(a0, c0), Rol32(c0, 4));
            var c1 := Add(c0, b0);
            var b1 := Xor(Sub(b0, a1), Rol32(a1, 6));
            var a2 := Add(a1, c1);
            var c2 := Xor(Sub(c1, b1), Rol32(b1, 8));
            var b2 := Add(b1, a2);
            var a3 := Xor(Sub(a2, c2), Rol32(c2, 16));
            var c3 := Add(c2, b2);
            var b3 := Xor(Sub(b2, a3), Rol32(a3, 19));
            var a4 := Add(a3, c3);
            var c4 := Xor(Sub(c3, b3), Rol32(b3, 4));
            Mix(Abc(a0, b0, c0)) == Abc(a4, Add(b3, a4), c4)
  {
  }

  /** `x ^= y; x -= rol32(y, shift)` */
  function FinalLine(x: Word, y: Word, shift: nat): Word {
    Sub(Xor(x, y), Rol32(y, shift))
  }

  function Final(s: Abc): Abc {
    var c1 := FinalLine(s.c, s.b, 14);
    var a1 := FinalLine(s.a, c1, 11);
    var b1 := FinalLine(s.b, a1, 25);
    var c2 := FinalLine(c1, b1, 16);
    var a2 := FinalLine(a1, c2, 4);
    var b2 := FinalLine(b1, a2, 14);
    Abc(a2, b2, FinalLine(c2, b2, 24))
  }

  /** The fourteen assignments of the final step, in their order. */
  lemma FinalIs(a0: Word, b0: Word, c0: Word)
    ensures var c1 := Sub(Xor(c0, b0), Rol32(b0, 14));
            var a1 := Sub(Xor(a0, c1), Rol32(c1, 11));
            var b1 := Sub(Xor(b0, a1), Rol32(a1, 25));
            var c2 := Sub(Xor(c1, b1), Rol32(b1, 16));
            var a2 := Sub(Xor(a1, c2), Rol32(c2, 4));
            var b2 := Sub(Xor(b1, a2), Rol32(a2, 14));
            Final(Abc(a0, b0, c0)) == Abc(a2, b2, Sub(Xor(c2, b2), Rol32(b2, 24)))
  {
  }

  function UnfinalLine(x: Word, y: Word, shift: nat): Word {
    Xor(Add(x, Rol32(y, shift)), y)
  }

  lemma FinalLineUndone(x: Word, y: Word, shift: nat)
    ensures UnfinalLine(FinalLine(x, y, shift), y, shift) == x && FinalLine(UnfinalLine(x, y, shift), y, shift) == x
  {
    SubOfAdd(Xor(x, y), Rol32(y, shift));
    XorTwice(x, y);
    SubOfAdd(x, Rol32(y, shift));
    XorTwice(Add(x, Rol32(y, shift)), y);
  }

  function Unfinal(s: Abc): Abc {
    var c2 := UnfinalLine(s.c, s.b, 24);
    var b1 := UnfinalLine(s.b, s.a, 14);
    var a1 := UnfinalLine(s.a, c2, 4);
    var c1 := UnfinalLine(c2, b1, 16);
    var b0 := UnfinalLine(b1, a1, 25);
    var a0 := UnfinalLine(a1, c1, 11);
    Abc(a0, b0, UnfinalLine(c1, b0, 14))
  }

  lemma FinalThenBack(s: Abc)
    ensures Unfinal(Final(s)) == s
  {
    var c1 := FinalLine(s.c, s.b, 14);
    var a1 := FinalLine(s.a, c1, 11);
    var b1 := FinalLine(s.b, a1, 25);
    var c2 := FinalLine(c1, b1, 16);
    var a2 := FinalLine(a1, c2, 4);
    FinalLineUndone(s.c, s.b, 14);
    FinalLineUndone(s.a, c1, 11);
    FinalLineUndone(s.b, a1, 25);
    FinalLineUndone(c1, b1, 16);
    FinalLineUndone(a1, c2, 4);
    FinalLineUndone(b1, a2, 14);
    FinalLineUndone(c2, FinalLine(b1, a2, 14), 24);
  }

  lemma BackThenFinal(s: Abc)
    ensures Final(Unfinal(s)) == s
  {
    var c2 := UnfinalLine(s.c, s.b, 24);
    var b1 := UnfinalLine(s.b, s.a, 14);
    var a1 := UnfinalLine(s.a, c2, 4);
    var c1 := UnfinalLine(c2, b1, 16);
    var b0 := UnfinalLine(b1, a1, 25);
    FinalLineUndone(s.c, s.b, 24);
    FinalLineUndone(s.b, s.a, 14);
    FinalLineUndone(s.a, c2, 4);
    FinalLineUndone(c2, b1, 16);
    FinalLineUndone(b1, a1, 25);
    FinalLineUndone(a1, c1, 11);
    FinalLineUndone(c1, b0, 14);
  }

  /** The final step is a bijection on the three words as well. */
  lemma FinalBijective(s: Abc)
    ensures Unfinal(Final(s)) == s && Final(Unfinal(s)) == s
  {
    FinalThenBack(s);
    BackThenFinal(s);
  }

  // ----- the hash of a key taken as words -----

  const INITVAL: Word := 0xdeadbeef

  /** A length as an unsigned 32-bit word. */
  function U32(n: nat): Word {
    n % WRAP
  }

  /** `x << 2` */
  function Times4(x: Word): Word {
    4 * x % WRAP
  }

  function Plus(s: Abc, a: Word, b: Word, c: Word): Abc {
    Abc(Add(s.a, a), Add(s.b, b), Add(s.c, c))
  }

  function Start(length: Word, initval: Word): Abc {
    var x := Add(Add(INITVAL, length), initval);
    Abc(x, x, x)
  }

  lemma StartIs(length: Word, initval: Word)
    ensures Start(length, initval).a == (0xdeadbeef + length + initval) % WRAP
    ensures Start(length, initval).a == Start(length, initval).b == Start(length, initval).c
  {
  }

  /** Takes in all but the last block. */
  function Absorb(s: Abc, k: seq<Word>): Abc
    decreases |k|
  {
    if |k| <= 3 then s else Absorb(Mix(Plus(s, k[0], k[1], k[2])), k[3..])
  }

  function LastBlock(k: seq<Word>): seq<Word> {
    if |k| <= 3 then k else LastBlock(k[3..])
  }

  function At(k: seq<Word>, i: nat): Word {
    if i < |k| then k[i] else 0
  }

  /** Takes in the last block; an empty key is not finished off. */
  function Close(s: Abc, k: seq<Word>): Word {
    if k == [] then s.c else Final(Plus(s, At(k, 0), At(k, 1), At(k, 2))).c
  }

  function Hash(k: seq<Word>, length: Word, initval: Word): Word {
    Close(Absorb(Start(length, initval), k), LastBlock(k))
  }

  /** Which blocks are mixed in: none of an empty key, one of up to three words,
      and three words at a time of more. */
  lemma HashIs(k: seq<Word>, length: Word, initval: Word)
    ensures k == [] ==> Hash(k, length, initval) == (0xdeadbeef + length + initval) % WRAP
    ensures |k| == 1 ==> Hash(k, length, initval) == Final(Plus(Start(length, initval), k[0], 0, 0)).c
    ensures |k| == 2 ==> Hash(k, length, initval) == Final(Plus(Start(length, initval), k[0], k[1], 0)).c
    ensures |k| == 3 ==> Hash(k, length, initval) == Final(Plus(Start(length, initval), k[0], k[1], k[2])).c
  {
    StartIs(length, initval);
  }

  lemma LongKeyIs(s: Abc, k: seq<Word>)
    requires |k| > 3
    ensures Close(Absorb(s, k), LastBlock(k)) ==
            Close(Absorb(Mix(Plus(s, k[0], k[1], k[2])), k[3..]), LastBlock(k[3..]))
  {
  }

  /** Different states never meet while the same blocks are taken in: no block
      loses what the earlier ones left. */
  lemma {:induction false} AbsorbInjective(s: Abc, t: Abc, k: seq<Word>)
    requires s != t
    ensures Absorb(s, k) != Absorb(t, k)
    decreases |k|
  {
    if |k| > 3 {
      var s1, t1 := Plus(s, k[0], k[1], k[2]), Plus(t, k[0], k[1], k[2]);
      PlusInjective(s, t, k[0], k[1], k[2]);
      MixBijective(s1);
      MixBijective(t1);
      AbsorbInjective(Mix(s1), Mix(t1), k[3..]);
    }
  }

  lemma PlusInjective(s: Abc, t: Abc, a: Word, b: Word, c: Word)
    requires s != t
    ensures Plus(s, a, b, c) != Plus(t, a, b, c)
  {
  }

  // ----- bytes as words -----

  function ByteAt(k: seq<Byte>, i: nat): (r: int)
    ensures 0 <= r < 256
  {
    if i < |k| then k[i] else 0
  }

  /** The little-endian word at the start of `k`, zeros standing for missing bytes. */
  function Load(k: seq<Byte>): Word {
    ByteAt(k, 0) + 0x100 * ByteAt(k, 1) + 0x1_0000 * ByteAt(k, 2) + 0x100_0000 * ByteAt(k, 3)
  }

  /** Byte i of a loaded word is byte i of the key: the order of a little-endian host. */
  lemma LoadIs(k: seq<Byte>)
    ensures Load(k) % 0x100 == ByteAt(k, 0) && Load(k) / 0x100 % 0x100 == ByteAt(k, 1)
    ensures Load(k) / 0x1_0000 % 0x100 == ByteAt(k, 2) && Load(k) / 0x100_0000 == ByteAt(k, 3)
    ensures forall i :: 0 <= i < |k| ==> ByteAt(k, i) == k[i]
    ensures forall i: nat :: |k| <= i ==> ByteAt(k, i) == 0
  {
    BytesOfWord(ByteAt(k, 0), ByteAt(k, 1), ByteAt(k, 2), ByteAt(k, 3));
  }

  lemma BytesOfWord(a: Byte, b: Byte, c: Byte, d: Byte)
    ensures var w: int := a + 0x100 * b + 0x1_0000 * c + 0x100_0000 * d;
            && w % 0x100 == a && w / 0x100 % 0x100 == b && w / 0x1_0000 % 0x100 == c && w / 0x100_0000 == d
  {
    var u: int := c + 0x100 * d;
    var v: int := b + 0x100 * u;
    var w: int := a + 0x100 * v;
    DivUnique(v, 0x100, u, b);
    DivUnique(w, 0x100, v, a);
    DivUnique(u, 0x100, d, c);
    DivUnique(w, 0x1_0000, u, a + 0x100 * b);
    DivUnique(w, 0x100_0000, d, a + 0x100 * b + 0x1_0000 * c);
  }

  function Drop(k: seq<Byte>, n: nat): (r: seq<Byte>)
    ensures |r| == if |k| <= n then 0 else |k| - n
  {
    if |k| <= n then [] else k[n..]
  }

  function Words(k: seq<Byte>): (w: seq<Word>)
    ensures |w| == (|k| + 3) / 4
    decreases |k|
  {
    if k == [] then [] else [Load(k)] + Words(Drop(k, 4))
  }

  lemma {:induction false} WordsAt(k: seq<Byte>, i: nat)
    requires 4 * i < |k|
    ensures i < |Words(k)| && Words(k)[i] == Load(k[4 * i..])
    ensures Words(k)[i..] == Words(k[4 * i..])
  {
    if i == 0 {
      assert k[0..] == k;
    } else {
      WordsAt(Drop(k, 4), i - 1);
      assert Drop(k, 4)[4 * (i - 1)..] == k[4 * i..];
      assert Words(k)[i..] == Words(Drop(k, 4))[i - 1..];
    }
  }

  /** Hashing 4n bytes is hashing the n words that a little-endian host reads in them. */
  lemma BytesAsWords(k: seq<Byte>, initval: Word)
    requires |k| % 4 == 0
    ensures 4 * |Words(k)| == |k|
    ensures Hash(Words(k), U32(|k|), initval) == Hash(Words(k), Times4(U32(|Words(k)|)), initval)
  {
    LengthInBytes(|Words(k)|);
  }

  /** Different last blocks, taken in from the same state, end in different states. */
  lemma LastBlockCounts(s: Abc, a: Word, b: Word, c: Word, a': Word, b': Word, c': Word)
    requires a != a' || b != b' || c != c'
    ensures Final(Plus(s, a, b, c)) != Final(Plus(s, a', b', c'))
  {
    FinalBijective(Plus(s, a, b, c));
    FinalBijective(Plus(s, a', b', c'));
  }

  lemma LengthInBytes(n: nat)
    ensures U32(4 * n) == Times4(U32(n))
  {
    var q := n / WRAP;
    assert 4 * n == WRAP * (4 * q) + 4 * (n % WRAP);
    DropLaps(4 * (n % WRAP), 4 * q);
  }

  lemma DropLaps(x: nat, q: nat)
    ensures (WRAP * q + x) % WRAP == x % WRAP
  {
  }

  // ----- the code -----

  /** __jhash_mix */
  method JhashMix(a0: Word, b0: Word, c0: Word) returns (a: Word, b: Word, c: Word)
    ensures Abc(a, b, c) == Mix(Abc(a0, b0, c0))
  {
    a, b, c := HalfLines(a0, b0, c0, 4, 6, 8);
    a, b, c := HalfLines(a, b, c, 16, 19, 4);
  }

  method HalfLines(a0: Word, b0: Word, c0: Word, k: nat, l: nat, m: nat) returns (a: Word, b: Word, c: Word)
    ensures Abc(a, b, c) == Half(Abc(a0, b0, c0), k, l, m)
  {
    a, b, c := a0, b0, c0;
    a := Sub(a, c);
    a := Xor(a, Rol32(c, k));
    c := Add(c, b);
    b := Sub(b, a);
    b := Xor(b, Rol32(a, l));
    a := Add(a, c);
    c := Sub(c, b);
    c := Xor(c, Rol32(b, m));
    b := Add(b, a);
  }

  /** __jhash_final */
  method JhashFinal(a0: Word, b0: Word, c0: Word) returns (a: Word, b: Word, c: Word)
    ensures Abc(a, b, c) == Final(Abc(a0, b0, c0))
  {
    a, b, c := a0, b0, c0;
    c := FinalLine(c, b, 14);
    a := FinalLine(a, c, 11);
    b := FinalLine(b, a, 25);
    c := FinalLine(c, b, 16);
    a := FinalLine(a, c, 4);
    b := FinalLine(b, a, 14);
    c := FinalLine(c, b, 24);
  }

  /** The body of the loop of both forms: the next three words are x, y and z. */
  method JhashBlock(a0: Word, b0: Word, c0: Word, x: Word, y: Word, z: Word, ghost k: seq<Word>)
    returns (a: Word, b: Word, c: Word)
    requires |k| > 3 && k[0] == x && k[1] == y && k[2] == z
    ensures Absorb(Abc(a, b, c), k[3..]) == Absorb(Abc(a0, b0, c0), k)
  {
    a, b, c := JhashMix(Add(a0, x), Add(b0, y), Add(c0, z));
  }

  method Jhash2(k: seq<Word>, initval: Word) returns (hash: Word)
    ensures hash == Hash(k, Times4(U32(|k|)), initval)
  {
    var a := Add(Add(INITVAL, Times4(U32(|k|))), initval);
    var b, c := a, a;
    ghost var start := Abc(a, b, c);
    var i := 0;
    while |k| - i > 3
      invariant 0 <= i <= |k|
      invariant Absorb(Abc(a, b, c), k[i..]) == Absorb(start, k)
      invariant LastBlock(k[i..]) == LastBlock(k)
    {
      assert k[i..][3..] == k[i + 3..];
      a, b, c := JhashBlock(a, b, c, k[i], k[i + 1], k[i + 2], k[i..]);
      i := i + 3;
    }
    ghost var last := k[i..];
    ghost var s := Abc(a, b, c);
    if |k| - i >= 3 { c := Add(c, k[i + 2]); }
    if |k| - i >= 2 { b := Add(b, k[i + 1]); }
    if |k| - i >= 1 {
      a := Add(a, k[i]);
      assert Abc(a, b, c) == Plus(s, At(last, 0), At(last, 1), At(last, 2));
      a, b, c := JhashFinal(a, b, c);
    }
    return c;
  }

  method Jhash(k: seq<Byte>, initval: Word) returns (hash: Word)
    ensures hash == Hash(Words(k), U32(|k|), initval)
  {
    var a := Add(Add(INITVAL, U32(|k|)), initval);
    var b, c := a, a;
    ghost var start, w := Abc(a, b, c), Words(k);
    var i := 0;
    ghost var j := 0;
    while |k| - i > 12
      invariant 0 <= i <= |k| && i == 4 * j && j <= |w|
      invariant Absorb(Abc(a, b, c), w[j..]) == Absorb(start, w)
      invariant LastBlock(w[j..]) == LastBlock(w)
    {
      var x, y, z := ReadBlock(k, i, j);
      a, b, c := JhashBlock(a, b, c, x, y, z, w[j..]);
      i := i + 12;
      j := j + 3;
    }
    hash := JhashSwitch(a, b, c, k, i, j);
  }

  /** Three words read at word j of the key. */
  method ReadBlock(k: seq<Byte>, i: nat, ghost j: nat) returns (x: Word, y: Word, z: Word)
    requires i == 4 * j && i + 12 < |k|
    ensures j + 3 < |Words(k)|
    ensures var w := Words(k)[j..]; w[0] == x && w[1] == y && w[2] == z && w[3..] == Words(k)[j + 3..]
  {
    x, y, z := Load(k[i..]), Load(k[i + 4..]), Load(k[i + 8..]);
    WordsAt(k, j);
    WordsAt(k, j + 1);
    WordsAt(k, j + 2);
  }

  /** The switch on what is left, at word j of the key. */
  method JhashSwitch(a0: Word, b0: Word, c0: Word, k: seq<Byte>, i: nat, ghost j: nat) returns (hash: Word)
    requires i == 4 * j && i <= |k| <= i + 12 && j <= |Words(k)|
    ensures hash == Close(Abc(a0, b0, c0), LastBlock(Words(k)[j..]))
  {
    LastWords(k, j);
    ghost var last := Words(k)[j..];
    var c := AddBytes(c0, k, i + 8);
    var b := AddBytes(b0, k, i + 4);
    var a := AddBytes(a0, k, i);
    assert Abc(a, b, c) == Plus(Abc(a0, b0, c0), At(last, 0), At(last, 1), At(last, 2));
    if |k| - i >= 1 {
      a, b, c := JhashFinal(a, b, c);
    } else {
      assert last == [];
    }
    return c;
  }

  /** Four cases of the switch on the length: the bytes from `at` that are there. */
  method AddBytes(x0: Word, k: seq<Byte>, at: nat) returns (x: Word)
    ensures x == Add(x0, Load(Drop(k, at)))
  {
    x := x0;
    if |k| > at + 3 { x := Add(x, 0x100_0000 * ByteAt(k, at + 3)); }
    if |k| > at + 2 { x := Add(x, 0x1_0000 * ByteAt(k, at + 2)); }
    if |k| > at + 1 { x := Add(x, 0x100 * ByteAt(k, at + 1)); }
    if |k| > at { x := Add(x, k[at]); }
  }

  lemma LastWords(k: seq<Byte>, j: nat)
    requires 4 * j <= |k| <= 4 * j + 12
    ensures j <= |Words(k)|
    ensures var last, i := Words(k)[j..], 4 * j;
            && |last| <= 3 && (last == [] <==> i == |k|)
            && At(last, 0) == Load(Drop(k, i)) && At(last, 1) == Load(Drop(k, i + 4)) && At(last, 2) == Load(Drop(k, i + 8))
  {
    if 4 * j < |k| { WordsAt(k, j); }
    if 4 * j + 4 < |k| { WordsAt(k, j + 1); }
    if 4 * j + 8 < |k| { WordsAt(k, j + 2); }
  }

  /** __jhash_nwords */
  method JhashNWords(a0: Word, b0: Word, c0: Word, initval: Word) returns (hash: Word)
    ensures hash == Final(Plus(Abc(a0, b0, c0), initval, initval, initval)).c
  {
    var a, b, c := JhashFinal(Add(a0, initval), Add(b0, initval), Add(c0, initval));
    return c;
  }

  /** The short forms add the same start value, in another order. */
  lemma SameStart(x: Word, length: Word, initval: Word)
    ensures Add(x, Add(Add(initval, INITVAL), length)) == Add(Add(Add(INITVAL, length), initval), x)
  {
  }

  method Jhash3Words(a: Word, b: Word, c: Word, initval: Word) returns (hash: Word)
    ensures hash == Hash([a, b, c], Times4(U32(3)), initval)
  {
    SameStart(a, 12, initval);
    SameStart(b, 12, initval);
    SameStart(c, 12, initval);
    hash := JhashNWords(a, b, c, Add(Add(initval, INITVAL), 12));
  }

  method Jhash2Words(a: Word, b: Word, initval: Word) returns (hash: Word)
    ensures hash == Hash([a, b], Times4(U32(2)), initval)
  {
    SameStart(a, 8, initval);
    SameStart(b, 8, initval);
    SameStart(0, 8, initval);
    hash := JhashNWords(a, b, 0, Add(Add(initval, INITVAL), 8));
  }

  method Jhash1Word(a: Word, initval: Word) returns (hash: Word)
    ensures hash == Hash([a], Times4(U32(1)), initval)
  {
    SameStart(a, 4, initval);
    SameStart(0, 4, initval);
    hash := JhashNWords(a, 0, 0, Add(Add(initval, INITVAL), 4));
  }

  /** Both forms, called on the same key: one result. */
  method BytesOrWords(k: seq<Byte>, initval: Word) returns (bytes: Word, words: Word)
    requires |k| % 4 == 0
    ensures bytes == words == Hash(Words(k), U32(|k|), initval)
  {
    bytes := Jhash(k, initval);
    words := Jhash2(Words(k), initval);
    BytesAsWords(k, initval);
  }
}
