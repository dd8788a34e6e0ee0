/** The Internet checksum of IP, TCP and UDP headers: one's complement sums over
    the 16-bit words that a little-endian host reads. */
module Checksum {
  import opened Common
  import opened Encap
  import opened Bits

  const MOD: nat := 0xFFFF

  /** The word sum of some bytes; an odd last byte counts as if a zero followed it. */
  function WordSum(b: seq<Byte>): nat {
    if |b| == 0 then 0
    else if |b| == 1 then b[0]
    else Word16(b[1], b[0]) + WordSum(b[2..])
  }

  /** The same over words in network byte order. */
  function NetworkSum(b: seq<Byte>): nat {
    if |b| == 0 then 0
    else if |b| == 1 then Word16(b[0], 0)
    else Word16(b[0], b[1]) + NetworkSum(b[2..])
  }

  /** The one's complement sum in 16 bits: 0 only for 0, else the residue from 1 to 65535. */
  function Folded(sum: nat): (r: nat)
    ensures r <= MOD && r % MOD == sum % MOD && (r == 0 <==> sum == 0)
  {
    if sum == 0 then 0 else (sum - 1) % MOD + 1
  }

  lemma FoldedIs(sum: nat, r: nat)
    requires r <= MOD && r % MOD == sum % MOD && (r == 0 <==> sum == 0)
    ensures r == Folded(sum)
  {
  }

  function Checksum(b: seq<Byte>): nat {
    MOD - Folded(WordSum(b))
  }

  lemma OneFold(sum: nat)
    ensures (sum % 0x1_0000 + sum / 0x1_0000) % MOD == sum % MOD
  {
    var h, l := sum / 0x1_0000, sum % 0x1_0000;
    assert sum == (h + l) + MOD * h;
    AddLaps(h + l, h);
  }

  lemma AddLaps(x: nat, k: nat)
    ensures (x + MOD * k) % MOD == x % MOD
  {
  }

  // ----- storing a word -----

  function Put(b: seq<Byte>, k: nat, low: Byte, high: Byte): (r: seq<Byte>)
    requires k + 2 <= |b|
    ensures |r| == |b|
  {
    b[k := low][k + 1 := high]
  }

  /** Writing a word at an even place adds the difference to the sum. */
  lemma {:induction false} WordSumStored(b: seq<Byte>, k: nat, low: Byte, high: Byte)
    requires k % 2 == 0 && k + 2 <= |b|
    ensures WordSum(Put(b, k, low, high)) + Word16(b[k + 1], b[k]) == WordSum(b) + Word16(high, low)
    decreases k
  {
    var c := Put(b, k, low, high);
    if k == 0 {
      assert c[2..] == b[2..];
    } else {
      WordSumStored(b[2..], k - 2, low, high);
      assert c[2..] == Put(b[2..], k - 2, low, high);
    }
  }

  lemma {:induction false} WordSumJoined(a: seq<Byte>, b: seq<Byte>)
    requires |a| % 2 == 0
    ensures WordSum(a + b) == WordSum(a) + WordSum(b)
    decreases |a|
  {
    if a == [] {
      assert a + b == b;
    } else {
      WordSumJoined(a[2..], b);
      assert (a + b)[2..] == a[2..] + b;
    }
  }

  /** A sum with its own complement added folds to all ones. */
  lemma ComplementCancels(sum: nat, check: nat)
    requires check == MOD - Folded(sum) || (check == MOD && Folded(sum) == MOD)
    ensures Folded(sum + check) == MOD
  {
    var f := Folded(sum);
    var q := sum / MOD;
    assert sum == MOD * q + sum % MOD;
    if f == MOD {
      AddLaps(sum, 1);
    } else {
      assert f == sum % MOD;
      AddLaps(MOD, q);
    }
    FoldedIs(sum + check, MOD);
  }

  lemma {:induction false} SumBound(b: seq<Byte>)
    ensures 2 * WordSum(b) <= MOD * (|b| + 1)
    decreases |b|
  {
    if |b| >= 2 {
      SumBound(b[2..]);
    }
  }

  /** No sum over a 32-bit number of bytes, with a pseudo header, overflows 64 bits. */
  lemma SumFits(header: seq<Byte>, b: seq<Byte>)
    requires |header| <= 12 && |b| < 0x1_0000_0000
    ensures WordSum(header) + WordSum(b) < WORD
  {
    SumBound(header);
    SumBound(b);
  }

  /** An odd last byte counts as if a zero byte followed it. */
  lemma {:induction false} OddIsPadded(b: seq<Byte>)
    requires |b| % 2 == 1
    ensures WordSum(b) == WordSum(b + [0])
    decreases |b|
  {
    if |b| > 1 {
      OddIsPadded(b[2..]);
      assert (b + [0])[2..] == b[2..] + [0];
    } else {
      assert (b + [0])[2..] == [];
    }
  }

  /** The example of section 3 of RFC 1071: eight bytes whose network-order words
      sum to ddf2 when the carry is folded. */
  lemma Example()
    ensures var b: seq<Byte> := [0x00, 0x01, 0xf2, 0x03, 0xf4, 0xf5, 0xf6, 0xf7];
            && NetworkSum(b) == 0x2ddf0 && Folded(NetworkSum(b)) == 0xddf2
            && WordSum(b) == 0x1f2dc && Folded(WordSum(b)) == 0xf2dd && Checksum(b) == 0x0d22
  {
    var b: seq<Byte> := [0x00, 0x01, 0xf2, 0x03, 0xf4, 0xf5, 0xf6, 0xf7];
    assert b[2..] == [0xf2, 0x03, 0xf4, 0xf5, 0xf6, 0xf7];
    assert b[2..][2..] == [0xf4, 0xf5, 0xf6, 0xf7];
    assert b[2..][2..][2..] == [0xf6, 0xf7];
    assert b[2..][2..][2..][2..] == [];
  }

  // ----- byte order -----

  function OddBytes(b: seq<Byte>): nat {
    if |b| < 2 then 0 else b[1] + OddBytes(b[2..])
  }

  lemma {:induction false} SumInBothOrders(b: seq<Byte>)
    ensures 256 * WordSum(b) == NetworkSum(b) + MOD * OddBytes(b)
    ensures WordSum(b) == 0 <==> NetworkSum(b) == 0
    decreases |b|
  {
    if |b| >= 2 {
      SumInBothOrders(b[2..]);
    }
  }

  /** ntohs on a little-endian host */
  function Swapped(x: nat): nat {
    Word16(Low(x), High(x))
  }

  lemma BytesOf(h: Byte, l: Byte)
    ensures High(Word16(h, l)) == h && Low(Word16(h, l)) == l
  {
  }

  lemma SwapWord(h: Byte, l: Byte)
    ensures Swapped(Word16(h, l)) == Word16(l, h)
  {
    BytesOf(h, l);
  }

  lemma AsWord(x: nat) returns (h: Byte, l: Byte)
    requires x <= MOD
    ensures x == Word16(h, l)
  {
    h, l := x / 256, x % 256;
  }

  lemma SwapIsTimes256(x: nat) returns (k: nat)
    requires x <= MOD
    ensures 256 * x == Swapped(x) + MOD * k
    ensures Swapped(x) <= MOD && (Swapped(x) == 0 <==> x == 0)
  {
    var h, l := AsWord(x);
    SwapWord(h, l);
    k := h;
  }

  lemma SwapOfComplement(x: nat)
    requires x <= MOD
    ensures Swapped(MOD - x) == MOD - Swapped(x)
  {
    var h, l := AsWord(x);
    SwapWord(h, l);
    SwapWord(255 - h, 255 - l);
    assert MOD - x == Word16(255 - h, 255 - l);
  }

  /** 256 times a sum, and 256 times its folding, leave the same residue. */
  lemma FoldedTimes256(sum: nat)
    ensures (256 * Folded(sum)) % MOD == (256 * sum) % MOD
  {
    if sum > 0 {
      var k := (sum - 1) / MOD;
      assert sum == MOD * k + Folded(sum);
      AddLaps(256 * Folded(sum), 256 * k);
    }
  }

  lemma SameFolding(n: nat, w: nat, k: nat, f: nat, h: nat, r: nat)
    requires 256 * w == n + MOD * k && 256 * f == r + MOD * h && (256 * f) % MOD == (256 * w) % MOD
    requires r <= MOD && (r == 0 <==> n == 0)
    ensures r == Folded(n)
  {
    AddLaps(n, k);
    AddLaps(r, h);
    FoldedIs(n, r);
  }

  lemma SwappedFolding(n: nat, w: nat, k: nat)
    requires 256 * w == n + MOD * k && (w == 0 <==> n == 0)
    ensures Folded(n) == Swapped(Folded(w))
  {
    var f := Folded(w);
    var h := SwapIsTimes256(f);
    FoldedTimes256(w);
    SameFolding(n, w, k, f, h, Swapped(f));
  }

  lemma FoldedInBothOrders(b: seq<Byte>)
    ensures Folded(NetworkSum(b)) == Swapped(Folded(WordSum(b)))
  {
    SumInBothOrders(b);
    SwappedFolding(NetworkSum(b), WordSum(b), OddBytes(b));
  }

  lemma ComplementOf(f: nat, n: nat, c: nat)
    requires f <= MOD && n == Swapped(f) && c == MOD - f
    ensures Swapped(c) == MOD - n
  {
    SwapOfComplement(f);
  }

  /** The host's checksum, stored as it is, reads in network order as the
      one's complement of the one's complement sum of network-order words. */
  lemma ChecksumInNetworkOrder(b: seq<Byte>)
    ensures Swapped(Checksum(b)) == MOD - Folded(NetworkSum(b))
  {
    FoldedInBothOrders(b);
    ComplementOf(Folded(WordSum(b)), Folded(NetworkSum(b)), Checksum(b));
  }

  // ----- what the checksum notices -----

  lemma SameResidue(w: nat, x: nat, rest: nat)
    requires w <= MOD && x <= MOD && (rest + w) % MOD == (rest + x) % MOD
    ensures w == x || (w == 0 && x == MOD) || (w == MOD && x == 0)
  {
  }

  lemma SameFoldingIff(rest: nat, w: nat, x: nat)
    requires w <= MOD && x <= MOD
    ensures Folded(rest + w) == Folded(rest + x) <==>
              w == x || (rest > 0 && ((w == 0 && x == MOD) || (w == MOD && x == 0)))
  {
    if Folded(rest + w) == Folded(rest + x) {
      SameResidue(w, x, rest);
    } else if rest > 0 {
      AddLaps(rest, 1);
    }
  }

  lemma TwoSums(b: seq<Byte>, c: seq<Byte>, rest: nat, w: nat, x: nat)
    requires w <= MOD && x <= MOD && WordSum(b) == rest + w && WordSum(c) == rest + x
    ensures Checksum(c) == Checksum(b) <==>
              w == x || (rest > 0 && ((w == 0 && x == MOD) || (w == MOD && x == 0)))
  {
    SameFoldingIff(rest, w, x);
  }

  /** Changing one word goes unnoticed exactly when it changes all zeros to all
      ones or back among bytes that are not all zero otherwise. */
  lemma OneWordNoticed(b: seq<Byte>, k: nat, low: Byte, high: Byte)
    requires k % 2 == 0 && k + 2 <= |b|
    ensures var c := Put(b, k, low, high);
            var w, x, rest := Word16(b[k + 1], b[k]), Word16(high, low), WordSum(Put(b, k, 0, 0));
            Checksum(c) == Checksum(b) <==>
              w == x || (rest > 0 && ((w == 0 && x == MOD) || (w == MOD && x == 0)))
  {
    var zeroed := Put(b, k, 0, 0);
    assert Put(zeroed, k, b[k], b[k + 1]) == b && Put(zeroed, k, low, high) == Put(b, k, low, high);
    WordAdded(zeroed, k, b[k], b[k + 1], Word16(b[k + 1], b[k]));
    WordAdded(zeroed, k, low, high, Word16(high, low));
    TwoSums(b, Put(b, k, low, high), WordSum(zeroed), Word16(b[k + 1], b[k]), Word16(high, low));
  }

  lemma SumStored(b: seq<Byte>, k: nat, check: nat)
    requires k % 2 == 0 && k + 2 <= |b| && b[k] == b[k + 1] == 0 && check <= MOD
    ensures WordSum(Put(b, k, Low(check), High(check))) == WordSum(b) + check
  {
    StoredWord(check);
    WordAdded(b, k, Low(check), High(check), check);
  }

  lemma StoredWord(check: nat)
    requires check <= MOD
    ensures Word16(High(check), Low(check)) == check
  {
    TwoBytes(check);
    LowPart(check, 0, check);
  }

  lemma WordAdded(b: seq<Byte>, k: nat, low: Byte, high: Byte, check: nat)
    requires k % 2 == 0 && k + 2 <= |b| && b[k] == b[k + 1] == 0 && check == Word16(high, low)
    ensures WordSum(Put(b, k, low, high)) == WordSum(b) + check
  {
    WordSumStored(b, k, low, high);
  }

  /** Bytes whose sum is larger by the checksum verify. */
  lemma LargerVerifies(b: seq<Byte>, c: seq<Byte>, check: nat)
    requires check == Checksum(b) || (Checksum(b) == 0 && check == MOD)
    requires WordSum(c) == WordSum(b) + check
    ensures Checksum(c) == 0
  {
    ComplementCancels(WordSum(b), check);
  }

  /** A stored checksum makes the bytes around it verify. */
  lemma StoredVerifies(b: seq<Byte>, k: nat, check: nat)
    requires k % 2 == 0 && k + 2 <= |b| && b[k] == b[k + 1] == 0 && check <= MOD
    requires check == Checksum(b) || (Checksum(b) == 0 && check == MOD)
    ensures Checksum(Put(b, k, Low(check), High(check))) == 0
  {
    SumStored(b, k, check);
    LargerVerifies(b, Put(b, k, Low(check), High(check)), check);
  }

  // ----- the code -----

  /** The bytes that the loop reads: with an odd count, one beyond the last. */
  function Padded(count: nat): nat {
    count + count % 2
  }

  /** The loop that the three checksums share: words in host order, the last
      odd byte kept by the mask htons(0xFF00). */
  method SumWords(b: array<Byte>, len: nat, start: nat) returns (sum: nat)
    requires Padded(len) <= b.Length
    ensures sum == start + WordSum(b[..len])
  {
    sum := start;
    var i: nat, count: nat := 0, len;
    ghost var all := b[..len];
    while count > 1
      invariant i + count == len && i % 2 == 0
      invariant sum + WordSum(all[i..]) == start + WordSum(all)
    {
      assert all[i..][2..] == all[i + 2..];
      sum := sum + Word16(b[i + 1], b[i]);
      i := i + 2;
      count := count - 2;
    }
    if count > 0 {
      MaskIsRemainder(Word16(b[i + 1], b[i]), 256);
      LowByte(b[i + 1], b[i]);
      sum := sum + And(Word16(b[i + 1], b[i]), 0x00FF);
    }
  }

  lemma LowByte(high: Byte, low: Byte)
    ensures Word16(high, low) % 256 == low
  {
  }

  /** Adding the carries back until there are none. */
  method Fold(start: nat) returns (sum: nat)
    ensures sum == Folded(start)
  {
    sum := start;
    while sum / 0x1_0000 != 0
      invariant sum % MOD == start % MOD && (sum == 0 <==> start == 0)
      decreases sum
    {
      OneFold(sum);
      sum := sum % 0x1_0000 + sum / 0x1_0000;
    }
    FoldedIs(start, sum);
  }

  method ComputeChecksum(b: array<Byte>, count: nat) returns (check: nat)
    requires Padded(count) <= b.Length
    ensures check == Checksum(b[..count])
  {
    var sum := SumWords(b, count, 0);
    sum := Fold(sum);
    check := MOD - sum;
  }

  /** Stores a 16-bit number as the host does. */
  method Store(b: array<Byte>, at: nat, x: nat)
    requires at + 2 <= b.Length
    modifies b
    ensures b[..] == Put(old(b[..]), at, Low(x), High(x))
    ensures forall i :: 0 <= i < b.Length && i != at && i != at + 1 ==> b[i] == old(b[i])
    ensures x <= MOD ==> Host16(b[..], at) == x
  {
    TwoBytes(x);
    b[at], b[at + 1] := Low(x), High(x);
  }

  method Clear(b: array<Byte>, at: nat)
    requires at + 2 <= b.Length
    modifies b
    ensures b[at] == b[at + 1] == 0
    ensures forall i :: 0 <= i < b.Length && i != at && i != at + 1 ==> b[i] == old(b[i])
  {
    b[at], b[at + 1] := 0, 0;
  }

  const IP_CHECK: nat := 10
  const TCP_CHECK: nat := 16
  const UDP_CHECK: nat := 6

  function HeaderLength(ihl: nat): nat {
    ihl * 4
  }

  lemma EvenHeader(ihl: nat)
    ensures Padded(HeaderLength(ihl)) == HeaderLength(ihl)
    ensures ihl >= 3 ==> IP_CHECK + 2 <= HeaderLength(ihl)
  {
    Even(2 * ihl);
  }

  lemma Even(m: nat)
    ensures 2 * m % 2 == 0
  {
  }

  /** The low four bits of the first byte of an IP header. */
  function Ihl(first: Byte): nat {
    first % 16
  }

  /** The header verifies once its checksum is stored. */
  lemma HeaderVerifies(b: seq<Byte>, len: nat, check: nat)
    requires IP_CHECK + 2 <= len <= |b| && b[IP_CHECK] == b[IP_CHECK + 1] == 0
    requires check == Checksum(b[..len])
    ensures Checksum(Put(b, IP_CHECK, Low(check), High(check))[..len]) == 0
  {
    StoredVerifies(b[..len], IP_CHECK, check);
    assert Put(b, IP_CHECK, Low(check), High(check))[..len] == Put(b[..len], IP_CHECK, Low(check), High(check));
  }

  /** A header of fewer than three words does not hold its own check field. */
  method ComputeIpChecksum(h: array<Byte>)
    requires h.Length >= IP_LEN && h.Length >= HeaderLength(Ihl(h[0]))
    modifies h
    ensures forall i :: 0 <= i < h.Length && i != 10 && i != 11 ==> h[i] == old(h[i])
    ensures Host16(h[..], 10) == Checksum(Put(old(h[..]), 10, 0, 0)[..HeaderLength(Ihl(old(h[0])))])
    ensures Ihl(old(h[0])) >= 3 ==> Checksum(h[..HeaderLength(Ihl(old(h[0])))]) == 0
  {
    var ihl := Ihl(h[0]);
    EvenHeader(ihl);
    Clear(h, IP_CHECK);
    ghost var b, header := h[..], h[..HeaderLength(ihl)];
    assert b == Put(old(h[..]), IP_CHECK, 0, 0);
    var check := ComputeChecksum(h, HeaderLength(ihl));
    assert header == b[..HeaderLength(ihl)];
    Store(h, IP_CHECK, check);
    if ihl >= 3 {
      HeaderVerifies(b, HeaderLength(ihl), check);
    }
  }

  /** The pseudo header that TCP and UDP sum before their segment. */
  function Pseudo(ip: seq<Byte>, protocol: Byte, len: nat): seq<Byte>
    requires |ip| >= IP_LEN
  {
    ip[12..20] + [0, protocol, High(len), Low(len)]
  }

  /** Source and destination address, a zero, the protocol and the length: the
      pseudo header of RFC 768 and RFC 793. */
  lemma PseudoIs(ip: seq<Byte>, protocol: Byte, len: nat)
    requires |ip| >= IP_LEN && len < 0x1_0000
    ensures var p := Pseudo(ip, protocol, len);
            && |p| == 12 && p[..4] == ip[12..16] && p[4..8] == ip[16..20]
            && p[8] == 0 && p[9] == protocol && 256 * (p[10] as int) + (p[11] as int) == len
  {
    LengthBytes(len);
  }

  /** The length of a TCP segment and its IP header are the total length. */
  lemma TcpLengthIs(ip: seq<Byte>)
    requires |ip| >= IP_LEN
    ensures TcpLength(ip) < 0x1_0000
    ensures (TcpLength(ip) + 4 * (ip[0] as int % 16)) % 0x1_0000 == 256 * (ip[2] as int) + (ip[3] as int)
    ensures 4 * (ip[0] as int % 16) <= 256 * (ip[2] as int) + (ip[3] as int) ==>
              TcpLength(ip) == 256 * (ip[2] as int) + (ip[3] as int) - 4 * (ip[0] as int % 16)
  {
    ShorterBy(256 * (ip[2] as int) + (ip[3] as int), 4 * (ip[0] as int % 16));
  }

  lemma ShorterBy(total: int, header: int)
    requires 0 <= total < 0x1_0000 && 0 <= header <= 60
    ensures ((total - header) % 0x1_0000 + header) % 0x1_0000 == total
    ensures header <= total ==> (total - header) % 0x1_0000 == total - header
  {
  }

  lemma FirstWord(low: Byte, high: Byte, b: seq<Byte>)
    ensures WordSum([low, high] + b) == Word16(high, low) + WordSum(b)
  {
    assert ([low, high] + b)[2..] == b;
  }

  lemma FourWords(b: seq<Byte>)
    requires |b| == 8
    ensures WordSum(b) == Word16(b[1], b[0]) + Word16(b[3], b[2]) + Word16(b[5], b[4]) + Word16(b[7], b[6])
  {
    FirstWord(b[0], b[1], b[2..]);
    FirstWord(b[2], b[3], b[4..]);
    FirstWord(b[4], b[5], b[6..]);
    FirstWord(b[6], b[7], []);
    assert b == [b[0], b[1]] + b[2..] && b[2..] == [b[2], b[3]] + b[4..];
    assert b[4..] == [b[4], b[5]] + b[6..] && b[6..] == [b[6], b[7]] + [];
  }

  lemma PseudoSum(ip: seq<Byte>, protocol: Byte, len: nat)
    requires |ip| >= IP_LEN
    ensures WordSum(Pseudo(ip, protocol, len)) ==
            Word16(ip[13], ip[12]) + Word16(ip[15], ip[14]) + Word16(ip[17], ip[16]) + Word16(ip[19], ip[18])
            + Word16(protocol, 0) + Word16(Low(len), High(len))
  {
    FirstWord(High(len), Low(len), []);
    FirstWord(0, protocol, [High(len), Low(len)]);
    WordSumJoined(ip[12..20], [0, protocol] + [High(len), Low(len)]);
    assert Pseudo(ip, protocol, len) == ip[12..20] + ([0, protocol] + [High(len), Low(len)]);
    FourWords(ip[12..20]);
  }

  method PseudoWords(ip: array<Byte>, protocol: Byte, len: nat) returns (sum: nat)
    requires ip.Length >= IP_LEN
    ensures sum == WordSum(Pseudo(ip[..], protocol, len))
  {
    PseudoSum(ip[..], protocol, len);
    sum := Word16(ip[15], ip[14]) + Word16(ip[13], ip[12]);
    sum := sum + Word16(ip[19], ip[18]) + Word16(ip[17], ip[16]);
    sum := sum + Word16(protocol, 0) + Word16(Low(len), High(len));
  }

  function TcpLength(ip: seq<Byte>): nat
    requires |ip| >= IP_LEN
  {
    (Big16(ip, 2) - HeaderLength(Ihl(ip[0]))) % 0x1_0000
  }

  /** The segment verifies once its checksum is stored. */
  lemma SegmentVerifies(pseudo: seq<Byte>, b: seq<Byte>, len: nat, k: nat, check: nat)
    requires |pseudo| % 2 == 0 && k % 2 == 0 && k + 2 <= len <= |b| && b[k] == b[k + 1] == 0 && check <= MOD
    requires var sum := Checksum(pseudo + b[..len]); check == sum || (sum == 0 && check == MOD)
    ensures Checksum(pseudo + Put(b, k, Low(check), High(check))[..len]) == 0
  {
    var segment := pseudo + b[..len];
    StoredVerifies(segment, |pseudo| + k, check);
    assert Put(segment, |pseudo| + k, Low(check), High(check))
        == pseudo + Put(b, k, Low(check), High(check))[..len];
  }

  /** The rest of the two functions: the segment summed after the pseudo header. */
  method SegmentChecksum(pseudo: nat, payload: array<Byte>, len: nat, ghost header: seq<Byte>) returns (check: nat)
    requires Padded(len) <= payload.Length && |header| % 2 == 0 && pseudo == WordSum(header)
    ensures check == Checksum(header + payload[..len]) <= MOD
  {
    var sum := SumWords(payload, len, pseudo);
    sum := Fold(sum);
    WordSumJoined(header, payload[..len]);
    check := MOD - sum;
  }

  /** Stores a segment's checksum in its cleared field. */
  method StoreCheck(payload: array<Byte>, at: nat, check: nat, len: nat, ghost header: seq<Byte>)
    requires at % 2 == 0 && at + 2 <= payload.Length && payload[at] == payload[at + 1] == 0
    requires len <= payload.Length && |header| % 2 == 0 && check <= MOD
    requires var sum := Checksum(header + payload[..len]); check == sum || (sum == 0 && check == MOD)
    modifies payload
    ensures forall i :: 0 <= i < payload.Length && i != at && i != at + 1 ==> payload[i] == old(payload[i])
    ensures Host16(payload[..], at) == check
    ensures at + 2 <= len ==> Checksum(header + payload[..len]) == 0
  {
    ghost var b := payload[..];
    assert b[..len] == payload[..len];
    Store(payload, at, check);
    if at + 2 <= len {
      SegmentVerifies(header, b, len, at, check);
    }
  }

  /** The checksum of a segment whose field at `at` is taken as 0, after its pseudo header. */
  function SegmentSum(ip: seq<Byte>, protocol: Byte, segment: seq<Byte>, at: nat, len: nat): nat
    requires |ip| >= IP_LEN && at + 2 <= |segment| && len <= |segment|
  {
    Checksum(Pseudo(ip, protocol, len) + Put(segment, at, 0, 0)[..len])
  }

  /** The first two thirds of both functions: the field cleared, the sum taken. */
  method ClearAndSum(ip: array<Byte>, payload: array<Byte>, protocol: Byte, at: nat, len: nat) returns (check: nat)
    requires ip.Length >= IP_LEN && at + 2 <= payload.Length && Padded(len) <= payload.Length
    modifies payload
    ensures payload[..] == Put(old(payload[..]), at, 0, 0)
    ensures check == SegmentSum(old(ip[..]), protocol, old(payload[..]), at, len) <= MOD
  {
    ghost var header := Pseudo(ip[..], protocol, len);
    var pseudo := PseudoWords(ip, protocol, len);
    ghost var was := payload[..];
    Clear(payload, at);
    assert payload[..] == Put(was, at, 0, 0);
    check := SegmentChecksum(pseudo, payload, len, header);
    assert payload[..len] == Put(was, at, 0, 0)[..len];
  }

  /** What both functions do; only UDP stores all ones for a checksum of 0. */
  method SetCheck(ip: array<Byte>, payload: array<Byte>, protocol: Byte, at: nat, len: nat, neverZero: bool)
    requires ip.Length >= IP_LEN && at % 2 == 0 && at + 2 <= payload.Length && Padded(len) <= payload.Length
    modifies payload
    ensures forall i :: 0 <= i < payload.Length && i != at && i != at + 1 ==> payload[i] == old(payload[i])
    ensures Host16(payload[..], at) == Stored(SegmentSum(old(ip[..]), protocol, old(payload[..]), at, len), neverZero)
    ensures at + 2 <= len ==> Checksum(Pseudo(old(ip[..]), protocol, len) + payload[..len]) == 0
  {
    ghost var header := Pseudo(ip[..], protocol, len);
    var check := ClearAndSum(ip, payload, protocol, at, len);
    assert payload[..][at] == payload[..][at + 1] == 0;
    StoreCheck(payload, at, if neverZero && check == 0 then MOD else check, len, header);
  }

  function Stored(sum: nat, neverZero: bool): nat {
    if neverZero && sum == 0 then 0xFFFF else sum
  }

  method ComputeTcpChecksum(ip: array<Byte>, payload: array<Byte>)
    requires ip.Length >= IP_LEN && payload.Length >= TCP_CHECK + 2
    requires Padded(TcpLength(ip[..])) <= payload.Length
    modifies payload
    ensures forall i :: 0 <= i < payload.Length && i != 16 && i != 17 ==> payload[i] == old(payload[i])
    ensures Host16(payload[..], 16) == SegmentSum(old(ip[..]), 6, old(payload[..]), 16, TcpLength(old(ip[..])))
    ensures var len := TcpLength(old(ip[..]));
            18 <= len ==> Checksum(Pseudo(old(ip[..]), 6, len) + payload[..len]) == 0
  {
    var len := TcpLength(ip[..]);
    SetCheck(ip, payload, 6, TCP_CHECK, len, false);
  }

  method ComputeUdpChecksum(ip: array<Byte>, payload: array<Byte>)
    requires ip.Length >= IP_LEN && payload.Length >= UDP_CHECK + 2
    requires Padded(Big16(payload[..], 4)) <= payload.Length
    modifies payload
    ensures forall i :: 0 <= i < payload.Length && i != 6 && i != 7 ==> payload[i] == old(payload[i])
    ensures Host16(payload[..], 6) != 0
    ensures var sum := SegmentSum(old(ip[..]), 17, old(payload[..]), 6, Big16(old(payload[..]), 4));
            Host16(payload[..], 6) == if sum == 0 then 0xFFFF else sum
    ensures var len := Big16(old(payload[..]), 4);
            8 <= len ==> Checksum(Pseudo(old(ip[..]), 17, len) + payload[..len]) == 0
  {
    var len := Big16(payload[..], 4);
    SetCheck(ip, payload, 17, UDP_CHECK, len, true);
  }
}
