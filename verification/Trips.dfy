/** A packet's whole flight within one slot: the first node encapsulates it,
    each node either takes it off the network or relays it by its own routes,
    and the analyser's hop count is what the last node reads. */
module Trips {
  import opened Common
  import opened Encap
  import opened Topology

  /** A node's addresses, as its peers' tables hold them. */
  datatype Address = Address(mac: seq<Byte>, ip: seq<Byte>)

  predicate Addresses(way: seq<Address>) {
    forall i :: 0 <= i < |way| ==> IsMac(way[i].mac) && |way[i].ip| == 4
  }

  /** The buffer as it leaves the k-th node of a way, addressed to the next one. */
  ghost function Flight(way: seq<Address>, f: seq<Byte>, len: nat, k: nat): (g: seq<Byte>)
    requires Addresses(way) && k + 1 < |way|
    requires MIN_FRAME <= len && len + OUTER <= |f|
    ensures |g| == |f|
  {
    if k == 0 then Encapsulated(f, len, way[1].mac)
    else Relayed(Flight(way, f, len, k - 1), way[k + 1].mac, way[k].mac)
  }

  /** A buffer that starts with an IPv4 frame and has room for the outer headers. */
  predicate Sendable(f: seq<Byte>, inner: seq<Byte>) {
    IsIpv4(inner) && inner <= f && |inner| + OUTER <= |f|
  }

  lemma {:induction false} FlightOnWire(way: seq<Address>, f: seq<Byte>, inner: seq<Byte>, k: nat)
    requires Addresses(way) && k + 1 < |way| && Sendable(f, inner)
    ensures OnWire(Flight(way, f, |inner|, k), inner, way[k + 1].mac, k)
  {
    if k == 0 {
      EncapOnWire(f, inner, way[1].mac);
    } else {
      FlightOnWire(way, f, inner, k - 1);
      RelayOnWire(Flight(way, f, |inner|, k - 1), inner, way[k].mac, k - 1, way[k + 1].mac, way[k].mac);
    }
  }

  /** Every node that relays it is its sender: the reply address on each link. */
  lemma SenderOnLink(way: seq<Address>, f: seq<Byte>, inner: seq<Byte>, k: nat)
    requires Addresses(way) && 0 < k && k + 1 < |way| && Sendable(f, inner)
    ensures Flight(way, f, |inner|, k)[6..12] == way[k].mac
    ensures Flight(way, f, |inner|, k)[..6] == way[k + 1].mac
  {
    FlightOnWire(way, f, inner, k - 1);
    RelayChangesOnly(Flight(way, f, |inner|, k - 1), inner, way[k + 1].mac, way[k].mac);
  }

  /** The j-th node of a way gets the frame, addressed to it, and sends it on. */
  ghost predicate SentOn(way: seq<Address>, f: seq<Byte>, inner: seq<Byte>, j: nat)
    requires Addresses(way) && 0 < j < |way| && Sendable(f, inner)
  {
    SendsOn(Flight(way, f, |inner|, j - 1), inner, way[j].mac, way[j].ip)
  }

  lemma SendsToOthers(way: seq<Address>, f: seq<Byte>, inner: seq<Byte>, j: nat)
    requires Addresses(way) && 0 < j < |way| && Sendable(f, inner)
    requires way[j].ip != Gateway(Daddr(inner))
    ensures SentOn(way, f, inner, j)
  {
    FlightOnWire(way, f, inner, j - 1);
    OnWireSendsOn(Flight(way, f, |inner|, j - 1), inner, way[j].mac, j - 1, way[j].ip);
  }

  ghost predicate DeliveredLast(way: seq<Address>, f: seq<Byte>, inner: seq<Byte>)
    requires Addresses(way) && |way| > 1 && Sendable(f, inner)
  {
    Delivers(Flight(way, f, |inner|, |way| - 2), inner, |way| - 2)
  }

  lemma DeliversLast(way: seq<Address>, f: seq<Byte>, inner: seq<Byte>)
    requires Addresses(way) && |way| > 1 && Sendable(f, inner)
    ensures DeliveredLast(way, f, inner)
  {
    var k := |way| - 2;
    FlightOnWire(way, f, inner, k);
    OnWireDelivers(Flight(way, f, |inner|, k), inner, way[k + 1].mac, k);
  }

  /** Every node between sends the frame on; the last one takes it, unchanged. */
  ghost predicate Flies(way: seq<Address>, f: seq<Byte>, inner: seq<Byte>)
    requires Addresses(way) && |way| > 1 && Sendable(f, inner)
  {
    && (forall j :: 0 < j < |way| - 1 ==> SentOn(way, f, inner, j))
    && DeliveredLast(way, f, inner)
  }

  /** It flies when it is for the last node of the way and for no earlier one. */
  lemma WayFlies(way: seq<Address>, f: seq<Byte>, inner: seq<Byte>)
    requires Addresses(way) && |way| > 1 && Sendable(f, inner)
    requires forall j :: 0 < j < |way| - 1 ==> way[j].ip != Gateway(Daddr(inner))
    ensures Flies(way, f, inner)
  {
    forall j | 0 < j < |way| - 1
      ensures SentOn(way, f, inner, j)
    {
      SendsToOthers(way, f, inner, j);
    }
    DeliversLast(way, f, inner);
  }

  // ----- the ways that the routes give -----

  /** The addresses of all nodes, by node number; no two nodes share one. */
  predicate Known(net: seq<Address>, t: Tables) {
    && |net| == |t| && Addresses(net)
    && forall v, w :: 0 <= v < w < |net| ==> net[v].ip != net[w].ip
  }

  /** The first n + 1 nodes on the way from `src`. */
  ghost function Way(net: seq<Address>, r: Route, src: nat, n: nat): (way: seq<Address>)
    requires Valid(r) && Known(net, r.t) && IsNode(r.t, src)
    ensures |way| == n + 1 && Addresses(way)
    ensures forall j :: 0 <= j <= n ==> way[j] == net[NodeAt(r, src, j) - 1]
  {
    if n == 0 then [net[src - 1]] else Way(net, r, src, n - 1) + [net[NodeAt(r, src, n) - 1]]
  }

  lemma OnlyTheLast(net: seq<Address>, r: Route, src: nat, k: nat)
    requires Valid(r) && Known(net, r.t) && IsNode(r.t, src) && ArrivesIn(r, src, k)
    ensures Way(net, r, src, k)[k] == net[r.dst - 1]
    ensures forall j :: 0 < j < k ==> Way(net, r, src, k)[j].ip != net[r.dst - 1].ip
  {
    forall j | 0 < j < k
      ensures Way(net, r, src, k)[j].ip != net[r.dst - 1].ip
    {
      var v := NodeAt(r, src, j);
      assert v < r.dst ==> net[v - 1].ip != net[r.dst - 1].ip;
      assert v > r.dst ==> net[r.dst - 1].ip != net[v - 1].ip;
    }
  }

  lemma LeavesSource(r: Route, src: nat)
    requires Valid(r) && IsNode(r.t, src) && src != r.dst && Arrives(r, src)
    ensures 1 <= Hops(r, src) <= |r.t| - 1
  {
    HopsBound(r, src);
    assert NodeAt(r, src, 0) == src;
  }

  /** While every node reads the same slot and the tables agree, a packet whose
      route arrives is sent on by every node before its destination and delivered
      unchanged there. */
  lemma DeliveredUnchanged(net: seq<Address>, r: Route, src: nat, f: seq<Byte>, inner: seq<Byte>)
    requires Valid(r) && Known(net, r.t) && IsNode(r.t, src) && src != r.dst && Arrives(r, src)
    requires Sendable(f, inner) && Gateway(Daddr(inner)) == net[r.dst - 1].ip
    ensures Hops(r, src) > 0 && Flies(Way(net, r, src, Hops(r, src)), f, inner)
  {
    LeavesSource(r, src);
    var k := Hops(r, src);
    OnlyTheLast(net, r, src, k);
    WayFlies(Way(net, r, src, k), f, inner);
  }

  /** The hop count that the destination reads. */
  ghost function CountRead(way: seq<Address>, f: seq<Byte>, len: nat): nat
    requires Addresses(way) && |way| > 1 && OUTER <= |f|
    requires MIN_FRAME <= len && len + OUTER <= |f|
  {
    Host16(Flight(way, f, len, |way| - 2), HOPCOUNT)
  }

  lemma CountIsRelays(way: seq<Address>, f: seq<Byte>, inner: seq<Byte>)
    requires Addresses(way) && 1 < |way| <= 0x1_0000 && Sendable(f, inner)
    ensures CountRead(way, f, |inner|) == |way| - 2
  {
    FlightOnWire(way, f, inner, |way| - 2);
    OnWireCount(Flight(way, f, |inner|, |way| - 2), inner, way[|way| - 1].mac, |way| - 2);
  }

  /** That count plus one is the analyser's count for the slot, which is at most N - 1. */
  lemma CountedAsPredicted(net: seq<Address>, r: Route, src: nat, f: seq<Byte>, inner: seq<Byte>)
    requires Valid(r) && Known(net, r.t) && IsNode(r.t, src) && src != r.dst && Arrives(r, src)
    requires Sendable(f, inner) && |r.t| <= 0x1_0000
    ensures 1 <= Hops(r, src) <= |r.t| - 1
    ensures CountRead(Way(net, r, src, Hops(r, src)), f, |inner|) + 1 == Hops(r, src)
  {
    LeavesSource(r, src);
    CountIsRelays(Way(net, r, src, Hops(r, src)), f, inner);
  }
}
