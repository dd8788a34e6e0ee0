/** The outer headers of a forwarded frame, byte by byte: put on at the first
    node, rewritten by every relay, taken off at the last node. */
module Encap {
  import opened Common

  const ETH_LEN: nat := 14
  const IP_LEN: nat := 20
  const GRE_LEN: nat := 6
  /** What encapsulation adds: Ethernet, IPv4 and the GRE-like header. */
  const OUTER: nat := 40
  const PROTO_GRE: Byte := 47

  /** The shortest frame with an Ethernet and an IPv4 header. */
  const MIN_FRAME: nat := 34

  /** Offsets of the fields the code touches, from the start of a frame. */
  const ETH_PROTO: nat := 12
  const TOT_LEN: nat := 16
  const PROTOCOL: nat := 23
  const DADDR: nat := 30
  const GRE_PROTO: nat := 36
  const HOPCOUNT: nat := 38

  predicate IsMac(mac: seq<Byte>) {
    |mac| == 6
  }

  function Word16(high: Byte, low: Byte): (r: nat)
    ensures r < 0x1_0000
  {
    var h: int := high;
    256 * h + low
  }

  /** A 16-bit number in network byte order. */
  function Big16(f: seq<Byte>, at: nat): nat
    requires at + 2 <= |f|
  {
    Word16(f[at], f[at + 1])
  }

  /** A 16-bit number as the little-endian host reads it. */
  function Host16(f: seq<Byte>, at: nat): nat
    requires at + 2 <= |f|
  {
    Word16(f[at + 1], f[at])
  }

  function High(x: nat): Byte {
    x / 256 % 256
  }

  function Low(x: nat): Byte {
    x % 256
  }

  /** The node address of a destination: its last number replaced by 1. */
  function Gateway(ip: seq<Byte>): seq<Byte>
    requires |ip| == 4
  {
    [ip[0], ip[1], ip[2], 1]
  }

  function Daddr(f: seq<Byte>): seq<Byte>
    requires MIN_FRAME <= |f|
  {
    f[DADDR..DADDR + 4]
  }

  function InnerDaddr(f: seq<Byte>): seq<Byte>
    requires OUTER + MIN_FRAME <= |f|
  {
    f[OUTER + DADDR..OUTER + DADDR + 4]
  }

  /** The outer total length: the code adds 20 for the 26 bytes that follow the outer IP header. */
  function OuterLength(f: seq<Byte>): nat
    requires MIN_FRAME <= |f|
  {
    (ETH_LEN + GRE_LEN + Big16(f, TOT_LEN)) % 0x1_0000
  }

  // ----- the three rewrites, as functions on the buffer -----

  function OuterByte(f: seq<Byte>, mac: seq<Byte>, i: nat): Byte
    requires MIN_FRAME <= |f| && IsMac(mac) && i < |f|
  {
    if i < 6 then mac[i]
    else if i == ETH_PROTO then 0x08
    else if i == ETH_PROTO + 1 then 0x00
    else if i == TOT_LEN then High(OuterLength(f))
    else if i == TOT_LEN + 1 then Low(OuterLength(f))
    else if i == PROTOCOL then PROTO_GRE
    else if i == DADDR + 3 then 1
    else if i == GRE_PROTO then 0x65
    else if i == GRE_PROTO + 1 then 0x58
    else if i == HOPCOUNT || i == HOPCOUNT + 1 then 0
    else f[i]
  }

  function Encapsulated(f: seq<Byte>, len: nat, mac: seq<Byte>): (r: seq<Byte>)
    requires MIN_FRAME <= len && len + OUTER <= |f| && IsMac(mac)
  {
    seq(|f|, i requires 0 <= i < |f| => if OUTER <= i < OUTER + len then f[i - OUTER] else OuterByte(f, mac, i))
  }

  function RelayedByte(f: seq<Byte>, next: seq<Byte>, own: seq<Byte>, i: nat): Byte
    requires OUTER + MIN_FRAME <= |f| && IsMac(next) && IsMac(own) && i < |f|
  {
    if i < 6 then next[i]
    else if i < 12 then own[i - 6]
    else if DADDR <= i < DADDR + 4 then Gateway(InnerDaddr(f))[i - DADDR]
    else if i == HOPCOUNT then Low(Host16(f, HOPCOUNT) + 1)
    else if i == HOPCOUNT + 1 then High(Host16(f, HOPCOUNT) + 1)
    else f[i]
  }

  function Relayed(f: seq<Byte>, next: seq<Byte>, own: seq<Byte>): (r: seq<Byte>)
    requires OUTER + MIN_FRAME <= |f| && IsMac(next) && IsMac(own)
    ensures |r| == |f|
  {
    seq(|f|, i requires 0 <= i < |f| => RelayedByte(f, next, own, i))
  }

  function Decapsulated(f: seq<Byte>, len: nat): (r: seq<Byte>)
    requires OUTER <= len <= |f|
  {
    seq(|f|, i requires 0 <= i < |f| => if i < len - OUTER then f[i + OUTER] else f[i])
  }

  /** What the NIC's receive thread does with a frame: pass it to a local port,
      or queue it for another node. A local frame shorter than its outer headers
      would make it copy a negative number of bytes, which nothing prevents. */
  datatype Verdict = Local(veth: int, newLen: nat) | Forward | NegativeCopy

  /** The tests under which the receive thread looks at a frame at all. */
  predicate WellFormed(f: seq<Byte>) {
    && OUTER + MIN_FRAME <= |f|
    && Big16(f, ETH_PROTO) == 0x0800 && f[PROTOCOL] == PROTO_GRE
    && Big16(f, GRE_PROTO) == 0x6558 && Big16(f, OUTER + ETH_PROTO) == 0x0800
  }

  /** A byte held in a C char, which is signed on the target. */
  function SignedChar(b: Byte): int {
    if b < 128 then b else b - 256
  }

  function Classified(f: seq<Byte>, len: nat, ip: seq<Byte>): Verdict
    requires WellFormed(f)
  {
    if Daddr(f) != ip then Forward
    else if len < OUTER then NegativeCopy
    else Local(SignedChar(f[OUTER + DADDR + 3]) - 2, len - OUTER)
  }

  /** How the program codes the verdict: as the new length, with 1 for forwarding. */
  function NewLength(v: Verdict, len: nat): int {
    if v.Forward? then 1 else len - OUTER
  }

  /** The code is read back rightly except for a local frame of one byte more
      than its outer headers. */
  lemma ReadBackIff(f: seq<Byte>, len: nat, ip: seq<Byte>)
    requires WellFormed(f)
    ensures var v := Classified(f, len, ip);
            (NewLength(v, len) == 1 <==> v.Forward?) <==> Daddr(f) != ip || len != OUTER + 1
  {
  }

  /** No frame with an Ethernet and an IPv4 header inside is that short. */
  lemma CarriedReadsBack(f: seq<Byte>, inner: seq<Byte>, ip: seq<Byte>)
    requires Carries(f, inner) && |ip| == 4
    ensures var v := Classified(f, |inner| + OUTER, ip);
            !v.NegativeCopy? && (NewLength(v, |inner| + OUTER) == 1 <==> v.Forward?)
  {
    ReadBackIff(f, |inner| + OUTER, ip);
  }

  // ----- the code, in place -----

  /** encap_veth; the copy, whose ranges overlap, is taken as a move. */
  method EncapVeth(frame: array<Byte>, len: nat, mac: seq<Byte>) returns (newLen: nat)
    requires MIN_FRAME <= len && len + OUTER <= frame.Length && IsMac(mac)
    modifies frame
    ensures newLen == len + OUTER
    ensures frame[..] == Encapsulated(old(frame[..]), len, mac)
  {
    newLen := len + OUTER;
    forall i | 0 <= i < len {
      frame[OUTER + i] := frame[i];
    }
    assert forall i :: 0 <= i < OUTER ==> frame[i] == old(frame[i]);
    CopyMac(frame, 0, mac);
    frame[ETH_PROTO], frame[ETH_PROTO + 1] := 0x08, 0x00;
    // The outer IP header is copied from the inner one's old place, which is its own.
    var length := (ETH_LEN + GRE_LEN + Word16(frame[TOT_LEN], frame[TOT_LEN + 1])) % 0x1_0000;
    frame[PROTOCOL] := PROTO_GRE;
    frame[TOT_LEN], frame[TOT_LEN + 1] := High(length), Low(length);
    frame[DADDR + 3] := 1;
    frame[GRE_PROTO], frame[GRE_PROTO + 1] := 0x65, 0x58;
    frame[HOPCOUNT], frame[HOPCOUNT + 1] := 0, 0;
  }

  /** ether_addr_copy_assignment */
  method CopyMac(frame: array<Byte>, at: nat, mac: seq<Byte>)
    requires at + 6 <= frame.Length && IsMac(mac)
    modifies frame
    ensures forall i :: 0 <= i < frame.Length ==>
      frame[i] == if at <= i < at + 6 then mac[i - at] else old(frame[i])
  {
    forall i | 0 <= i < 6 {
      frame[at + i] := mac[i];
    }
  }

  /** encap_indirection */
  method EncapIndirection(frame: array<Byte>, next: seq<Byte>, own: seq<Byte>)
    requires OUTER + MIN_FRAME <= frame.Length && IsMac(next) && IsMac(own)
    modifies frame
    ensures frame[..] == Relayed(old(frame[..]), next, own)
  {
    var hops := Word16(frame[HOPCOUNT + 1], frame[HOPCOUNT]) + 1;
    frame[HOPCOUNT], frame[HOPCOUNT + 1] := Low(hops), High(hops);
    var inner := frame[OUTER + DADDR..OUTER + DADDR + 4];
    CopyMac(frame, 0, next);
    CopyMac(frame, 6, own);
    var outer := Gateway(inner);
    forall i | 0 <= i < 4 {
      frame[DADDR + i] := outer[i];
    }
    assert inner == InnerDaddr(old(frame[..]));
  }

  /** get_queue_index_for_nic_rx. For a frame it does not accept it returns early
      and leaves `answer`, what it said of the frame before; it stops short of a
      copy of negative length. */
  method NicReceive(frame: array<Byte>, len: nat, ip: seq<Byte>, answer: Verdict) returns (v: Verdict)
    requires OUTER + MIN_FRAME <= frame.Length && len <= frame.Length && |ip| == 4
    modifies frame
    ensures !WellFormed(old(frame[..])) ==> v == answer
    ensures WellFormed(old(frame[..])) ==> v == Classified(old(frame[..]), len, ip)
    ensures frame[..] == if WellFormed(old(frame[..])) && v.Local? then Decapsulated(old(frame[..]), len) else old(frame[..])
  {
    if Word16(frame[ETH_PROTO], frame[ETH_PROTO + 1]) != 0x0800 || frame[PROTOCOL] != PROTO_GRE
      || Word16(frame[GRE_PROTO], frame[GRE_PROTO + 1]) != 0x6558 {
      return answer;
    }
    if Word16(frame[OUTER + ETH_PROTO], frame[OUTER + ETH_PROTO + 1]) != 0x0800 {
      return answer;
    }
    if frame[DADDR..DADDR + 4] != ip {
      return Forward;
    }
    var veth := SignedChar(frame[OUTER + DADDR + 3]) - 2;
    if len < OUTER {
      return NegativeCopy;
    }
    StripOuter(frame, len);
    return Local(veth, len - OUTER);
  }

  /** The copy that takes the outer headers off, taken as a move. */
  method StripOuter(frame: array<Byte>, len: nat)
    requires OUTER <= len <= frame.Length
    modifies frame
    ensures frame[..] == Decapsulated(old(frame[..]), len)
  {
    forall i | 0 <= i < len - OUTER {
      frame[i] := frame[i + OUTER];
    }
  }

  // ----- what the rewrites keep -----

  /** The buffer carries the frame `inner` under outer headers for its gateway. */
  ghost predicate Carries(f: seq<Byte>, inner: seq<Byte>) {
    && MIN_FRAME <= |inner| && OUTER + |inner| <= |f|
    && f[OUTER..OUTER + |inner|] == inner
    && WellFormed(f)
    && Daddr(f) == Gateway(Daddr(inner))
  }

  /** An inner frame that the receive thread accepts: IPv4 over Ethernet. */
  predicate IsIpv4(inner: seq<Byte>) {
    MIN_FRAME <= |inner| && Big16(inner, ETH_PROTO) == 0x0800
  }

  lemma EncapInner(f: seq<Byte>, len: nat, mac: seq<Byte>)
    requires MIN_FRAME <= len && len + OUTER <= |f| && IsMac(mac)
    ensures Encapsulated(f, len, mac)[OUTER..OUTER + len] == f[..len]
  {
  }

  lemma EncapHeader(f: seq<Byte>, len: nat, mac: seq<Byte>)
    requires MIN_FRAME <= len && len + OUTER <= |f| && IsMac(mac)
    requires IsIpv4(f[..len])
    ensures WellFormed(Encapsulated(f, len, mac))
    ensures Host16(Encapsulated(f, len, mac), HOPCOUNT) == 0
  {
    var r := Encapsulated(f, len, mac);
    assert r[OUTER + ETH_PROTO] == f[..len][ETH_PROTO] && r[OUTER + ETH_PROTO + 1] == f[..len][ETH_PROTO + 1];
  }

  lemma EncapAddress(f: seq<Byte>, len: nat, mac: seq<Byte>)
    requires MIN_FRAME <= len && len + OUTER <= |f| && IsMac(mac)
    ensures Daddr(Encapsulated(f, len, mac)) == Gateway(Daddr(f[..len]))
  {
    var r := Encapsulated(f, len, mac);
    assert Daddr(r) == [r[DADDR], r[DADDR + 1], r[DADDR + 2], r[DADDR + 3]];
  }

  /** What encapsulation writes around the frame: the next hop's address, the
      types and protocol numbers, the longer total length, the gateway's last
      number and a hop count of 0. Every other outer byte is the frame's own: the
      sender's MAC address and the rest of its IP header. */
  lemma EncapChangesOnly(f: seq<Byte>, len: nat, mac: seq<Byte>)
    requires MIN_FRAME <= len && len + OUTER <= |f| && IsMac(mac)
    ensures var r := Encapsulated(f, len, mac);
            && |r| == |f| && r[..6] == mac
            && r[12] == 0x08 && r[13] == 0x00 && r[23] == 47 && r[33] == 1
            && r[36] == 0x65 && r[37] == 0x58 && r[38] == 0 && r[39] == 0
            && (forall i :: 6 <= i < 36 && i !in {12, 13, 16, 17, 23, 33} ==> r[i] == f[i])
            && (forall i :: 0 <= i < len ==> r[40 + i] == f[i])
            && (forall i :: 40 + len <= i < |f| ==> r[i] == f[i])
  {
  }

  /** The total length, in network order, is longer by 20, modulo 65536. */
  lemma EncapLengthens(f: seq<Byte>, len: nat, mac: seq<Byte>)
    requires MIN_FRAME <= len && len + OUTER <= |f| && IsMac(mac)
    ensures var r := Encapsulated(f, len, mac);
            256 * (r[16] as int) + (r[17] as int) == (256 * (f[16] as int) + (f[17] as int) + 20) % 0x1_0000
  {
    LengthBytes(OuterLength(f));
  }

  lemma LengthBytes(x: nat)
    requires x < 0x1_0000
    ensures 256 * (High(x) as int) + (Low(x) as int) == x
  {
    TwoBytes(x);
    LowPart(x, 0, x);
  }

  lemma EncapCarries(f: seq<Byte>, len: nat, mac: seq<Byte>)
    requires MIN_FRAME <= len && len + OUTER <= |f| && IsMac(mac)
    requires IsIpv4(f[..len])
    ensures Carries(Encapsulated(f, len, mac), f[..len])
    ensures Host16(Encapsulated(f, len, mac), HOPCOUNT) == 0
    ensures Encapsulated(f, len, mac)[..6] == mac
  {
    EncapInner(f, len, mac);
    EncapHeader(f, len, mac);
    EncapAddress(f, len, mac);
  }

  /** A relay changes the outer MAC addresses and the hop count and nothing
      else: the destination address it writes is the one that is there. */
  lemma RelayChangesOnly(f: seq<Byte>, inner: seq<Byte>, next: seq<Byte>, own: seq<Byte>)
    requires Carries(f, inner) && IsMac(next) && IsMac(own)
    ensures var r := Relayed(f, next, own);
            && r[..6] == next && r[6..12] == own
            && Host16(r, HOPCOUNT) == (Host16(f, HOPCOUNT) + 1) % 0x1_0000
            && (forall i :: 12 <= i < |f| && i != HOPCOUNT && i != HOPCOUNT + 1 ==> r[i] == f[i])
  {
    InnerAddress(f, inner);
    var r := Relayed(f, next, own);
    RelayCounts(f, next, own);
    forall i | DADDR <= i < DADDR + 4
      ensures r[i] == f[i]
    {
      assert Daddr(f)[i - DADDR] == f[i];
    }
  }

  lemma LowPart(x: nat, q: nat, r: nat)
    requires x == 0x1_0000 * q + r && r < 0x1_0000
    ensures x % 0x1_0000 == r
  {
  }

  lemma TwoBytes(x: nat)
    ensures Word16(High(x), Low(x)) == x % 0x1_0000
  {
    var h := x / 256;
    LowPart(x, h / 256, Word16(h % 256, x % 256));
  }

  lemma RelayCounts(f: seq<Byte>, next: seq<Byte>, own: seq<Byte>)
    requires OUTER + MIN_FRAME <= |f| && IsMac(next) && IsMac(own)
    ensures Host16(Relayed(f, next, own), HOPCOUNT) == (Host16(f, HOPCOUNT) + 1) % 0x1_0000
  {
    TwoBytes(Host16(f, HOPCOUNT) + 1);
  }

  /** The hop count, in the host's order, is one more, modulo 65536. */
  lemma RelayBumps(f: seq<Byte>, next: seq<Byte>, own: seq<Byte>)
    requires OUTER + MIN_FRAME <= |f| && IsMac(next) && IsMac(own)
    ensures var r := Relayed(f, next, own);
            (r[38] as int) + 256 * (r[39] as int) == ((f[38] as int) + 256 * (f[39] as int) + 1) % 0x1_0000
  {
    RelayCounts(f, next, own);
  }

  lemma InnerAddress(f: seq<Byte>, inner: seq<Byte>)
    requires Carries(f, inner)
    ensures InnerDaddr(f) == Daddr(inner)
  {
    forall i | 0 <= i < 4
      ensures InnerDaddr(f)[i] == Daddr(inner)[i]
    {
      assert f[OUTER..OUTER + |inner|][DADDR + i] == f[OUTER + DADDR + i];
      assert InnerDaddr(f)[i] == f[OUTER + DADDR + i] && Daddr(inner)[i] == inner[DADDR + i];
    }
  }

  lemma RelayCarries(f: seq<Byte>, inner: seq<Byte>, next: seq<Byte>, own: seq<Byte>)
    requires Carries(f, inner) && IsMac(next) && IsMac(own)
    ensures Carries(Relayed(f, next, own), inner)
  {
    RelayChangesOnly(f, inner, next, own);
    var r := Relayed(f, next, own);
    assert r[OUTER..OUTER + |inner|] == f[OUTER..OUTER + |inner|];
    assert Daddr(r) == Daddr(f);
  }

  /** Taking the outer headers off moves the rest to the front and leaves what is
      behind it. */
  lemma DecapMovesOnly(f: seq<Byte>, len: nat)
    requires 40 <= len <= |f|
    ensures var r := Decapsulated(f, len);
            && (forall i :: 0 <= i < len - 40 ==> r[i] == f[40 + i])
            && (forall i :: len - 40 <= i < |f| ==> r[i] == f[i])
  {
  }

  /** The receive thread accepts by the bytes at the places where encapsulation
      writes them, and reads the veth off the frame's own destination. */
  lemma ReceiveReads(f: seq<Byte>, len: nat, ip: seq<Byte>)
    requires |f| >= 74 && |ip| == 4
    ensures WellFormed(f) <==> f[12] == 0x08 && f[13] == 0x00 && f[23] == 47 && f[36] == 0x65 && f[37] == 0x58
                               && f[52] == 0x08 && f[53] == 0x00
    ensures WellFormed(f) ==>
      var v := Classified(f, len, ip);
      && (v.Forward? <==> !(f[30] == ip[0] && f[31] == ip[1] && f[32] == ip[2] && f[33] == ip[3]))
      && (v.NegativeCopy? ==> len < 40)
      && (v.Local? ==> v.newLen + 40 == len && -130 <= v.veth <= 125 && (v.veth + 2 - f[73] as int) % 256 == 0)
  {
    FourNumbers(Daddr(f), ip);
  }

  lemma FourNumbers(x: seq<Byte>, y: seq<Byte>)
    requires |x| == 4 && |y| == 4
    ensures x == y <==> x[0] == y[0] && x[1] == y[1] && x[2] == y[2] && x[3] == y[3]
    ensures x[..3] == y[..3] <==> x[0] == y[0] && x[1] == y[1] && x[2] == y[2]
  {
    if x[..3] == y[..3] {
      assert x[..3][0] == y[..3][0] && x[..3][1] == y[..3][1] && x[..3][2] == y[..3][2];
    }
  }

  /** A gateway is one node for all destinations that share their first three
      numbers, and its own. */
  lemma GatewayOfSubnet(x: seq<Byte>, y: seq<Byte>)
    requires |x| == 4 && |y| == 4
    ensures Gateway(x) == Gateway(y) <==> x[..3] == y[..3]
    ensures |Gateway(x)| == 4 && Gateway(x)[..3] == x[..3] && Gateway(x)[3] == 1
    ensures Gateway(Gateway(x)) == Gateway(x)
  {
    FourNumbers(x, y);
    FourNumbers(Gateway(x), Gateway(y));
  }

  /** Taking the outer headers off restores every byte and the length of the
      frame; the frame is taken as local exactly at its own gateway. */
  lemma DecapRestores(f: seq<Byte>, inner: seq<Byte>, ip: seq<Byte>)
    requires Carries(f, inner) && |ip| == 4
    ensures var v := Classified(f, |inner| + OUTER, ip);
            && (v.Local? <==> ip == Gateway(Daddr(inner)))
            && (v.Local? ==> v.newLen == |inner| && Decapsulated(f, |inner| + OUTER)[..v.newLen] == inner)
            && (v.Local? ==> v.veth == SignedChar(inner[DADDR + 3]) - 2)
  {
    InnerAddress(f, inner);
    var r := Decapsulated(f, |inner| + OUTER);
    assert r[..|inner|] == f[OUTER..OUTER + |inner|];
    assert Daddr(inner)[3] == inner[DADDR + 3] && InnerDaddr(f)[3] == f[OUTER + DADDR + 3];
  }

  /** A buffer on its way: it carries the frame to `mac` after `relays` relays. */
  ghost predicate OnWire(f: seq<Byte>, inner: seq<Byte>, mac: seq<Byte>, relays: nat) {
    && Carries(f, inner)
    && f[..6] == mac
    && Host16(f, HOPCOUNT) == relays % 0x1_0000
  }

  lemma OnWireCount(f: seq<Byte>, inner: seq<Byte>, mac: seq<Byte>, relays: nat)
    requires OnWire(f, inner, mac, relays) && relays < 0x1_0000
    ensures Host16(f, HOPCOUNT) == relays
  {
  }

  lemma EncapOnWire(f: seq<Byte>, inner: seq<Byte>, mac: seq<Byte>)
    requires IsIpv4(inner) && inner <= f && |inner| + OUTER <= |f| && IsMac(mac)
    ensures OnWire(Encapsulated(f, |inner|, mac), inner, mac, 0)
  {
    assert f[..|inner|] == inner;
    EncapCarries(f, |inner|, mac);
  }

  lemma RelayOnWire(f: seq<Byte>, inner: seq<Byte>, mac: seq<Byte>, relays: nat, next: seq<Byte>, own: seq<Byte>)
    requires OnWire(f, inner, mac, relays) && IsMac(next) && IsMac(own)
    ensures OnWire(Relayed(f, next, own), inner, next, relays + 1)
  {
    RelayCarries(f, inner, next, own);
    RelayChangesOnly(f, inner, next, own);
    NextCount(relays);
  }

  lemma NextCount(relays: nat)
    ensures (relays % 0x1_0000 + 1) % 0x1_0000 == (relays + 1) % 0x1_0000
  {
  }

  /** A run of relays, each with its next hop and own address. */
  function RelayAll(f: seq<Byte>, hops: seq<(seq<Byte>, seq<Byte>)>): seq<Byte>
    requires OUTER + MIN_FRAME <= |f|
    requires forall i :: 0 <= i < |hops| ==> IsMac(hops[i].0) && IsMac(hops[i].1)
    decreases |hops|
  {
    if hops == [] then f else RelayAll(Relayed(f, hops[0].0, hops[0].1), hops[1..])
  }

  lemma {:induction false} RelayAllOnWire(f: seq<Byte>, inner: seq<Byte>, mac: seq<Byte>, relays: nat,
                                          hops: seq<(seq<Byte>, seq<Byte>)>)
    requires OnWire(f, inner, mac, relays)
    requires forall i :: 0 <= i < |hops| ==> IsMac(hops[i].0) && IsMac(hops[i].1)
    ensures OnWire(RelayAll(f, hops), inner, if hops == [] then mac else hops[|hops| - 1].0, relays + |hops|)
    decreases |hops|
  {
    if hops != [] {
      RelayOnWire(f, inner, mac, relays, hops[0].0, hops[0].1);
      RelayAllOnWire(Relayed(f, hops[0].0, hops[0].1), inner, hops[0].0, relays + 1, hops[1..]);
    }
  }

  /** The receive thread of a node with these addresses gets the frame and sends it on. */
  ghost predicate SendsOn(f: seq<Byte>, inner: seq<Byte>, mac: seq<Byte>, ip: seq<Byte>) {
    && Carries(f, inner)
    && f[..6] == mac
    && Classified(f, |inner| + OUTER, ip) == Forward
  }

  lemma OnWireSendsOn(f: seq<Byte>, inner: seq<Byte>, mac: seq<Byte>, relays: nat, ip: seq<Byte>)
    requires OnWire(f, inner, mac, relays) && |ip| == 4 && ip != Gateway(Daddr(inner))
    ensures SendsOn(f, inner, mac, ip)
  {
    DecapRestores(f, inner, ip);
  }

  /** What a delivery is: the node of the frame's destination takes the buffer
      as local, strips it to the frame, and reads the number of relays. */
  ghost predicate Delivers(r: seq<Byte>, inner: seq<Byte>, relays: nat) {
    && Carries(r, inner)
    && Classified(r, |inner| + OUTER, Gateway(Daddr(inner))) == Local(SignedChar(inner[DADDR + 3]) - 2, |inner|)
    && Decapsulated(r, |inner| + OUTER)[..|inner|] == inner
    && Host16(r, HOPCOUNT) == relays % 0x1_0000
  }

  lemma OnWireDelivers(f: seq<Byte>, inner: seq<Byte>, mac: seq<Byte>, relays: nat)
    requires OnWire(f, inner, mac, relays)
    ensures Delivers(f, inner, relays)
  {
    DecapRestores(f, inner, Gateway(Daddr(inner)));
  }

  lemma TripDelivers(e: seq<Byte>, inner: seq<Byte>, mac: seq<Byte>, hops: seq<(seq<Byte>, seq<Byte>)>)
    requires OnWire(e, inner, mac, 0)
    requires forall i :: 0 <= i < |hops| ==> IsMac(hops[i].0) && IsMac(hops[i].1)
    ensures Delivers(RelayAll(e, hops), inner, |hops|)
  {
    RelayAllOnWire(e, inner, mac, 0, hops);
    OnWireDelivers(RelayAll(e, hops), inner, if hops == [] then mac else hops[|hops| - 1].0, |hops|);
  }

  /** Encapsulation, any number of relays and decapsulation give the frame back,
      and the hop count is the number of relays. */
  lemma FrameSurvivesTrip(f: seq<Byte>, inner: seq<Byte>, mac: seq<Byte>, hops: seq<(seq<Byte>, seq<Byte>)>)
    requires IsIpv4(inner) && inner <= f && |inner| + OUTER <= |f| && IsMac(mac)
    requires forall i :: 0 <= i < |hops| ==> IsMac(hops[i].0) && IsMac(hops[i].1)
    ensures Delivers(RelayAll(Encapsulated(f, |inner|, mac), hops), inner, |hops|)
  {
    EncapOnWire(f, inner, mac);
    TripDelivers(Encapsulated(f, |inner|, mac), inner, mac, hops);
  }
}
