/** A packet let loose on a Wire, down to the receivers it is offered to. */
module Delivery {
  import opened Integers
  import opened Protocol
  import opened Graph
  import opened Topology
  import opened Router
  import F = Flooding

  /** One offer: a host and the receiver in its dispatch table. */
  datatype Offer = Offer(host: Name, receiver: nat)

  ghost function OffersBy(receivers: map<Name, seq<DispatchEntry>>, p: Packet, h: Name, info: HostInfo): set<Offer>
    requires h in receivers
  {
    set k | k in Listeners(receivers[h], p, info) :: Offer(h, k)
  }

  /** An arrival that is admitted at a member is dispatched there. */
  ghost predicate Dispatches(n: F.Network, wire: u8, a: Attachment)
    requires F.Wired(n) && a in n.edges
  {
    Admits(n.tables[a.host], wire, n.bit[a] + 1) && n.infos[a.host].IsMemberOf(wire)
  }

  /** Every offer made on the way. */
  ghost function Offered(n: F.Network, receivers: map<Name, seq<DispatchEntry>>, p: Packet, o: Name, order: seq<Attachment>): multiset<Offer>
    requires F.Wired(n) && receivers.Keys == n.tables.Keys && o in n.tables && F.Possible(n, p.wire, o, order)
    decreases order
  {
    if order == [] then multiset{}
    else
      var a := order[|order| - 1];
      Offered(n, receivers, p, o, order[..|order| - 1])
      + (if Dispatches(n, p.wire, a) then multiset(OffersBy(receivers, p, a.host, n.infos[a.host])) else multiset{})
  }

  lemma DispatchedMore(n: F.Network, wire: u8, s: F.State, a: Attachment, h: Name)
    requires F.Wired(n) && a in n.edges
    ensures F.Handle(n, wire, s, a).delivered[h] == s.delivered[h] + (if Dispatches(n, wire, a) && h == a.host then 1 else 0)
  {}

  lemma OffersOnce(receivers: map<Name, seq<DispatchEntry>>, p: Packet, g: Name, info: HostInfo, h: Name, k: nat)
    requires g in receivers
    ensures multiset(OffersBy(receivers, p, g, info))[Offer(h, k)]
         == if h == g && k in Listeners(receivers[g], p, info) then 1 else 0
  {
    assert Offer(h, k) in OffersBy(receivers, p, g, info) <==> h == g && k in Listeners(receivers[g], p, info);
  }

  /** A receiver is offered the packet as often as its host dispatches it, if the host owes it to the receiver at all. */
  lemma {:induction false} OfferedIs(n: F.Network, receivers: map<Name, seq<DispatchEntry>>, p: Packet, o: Name, order: seq<Attachment>,
                                     h: Name, k: nat)
    requires F.Wired(n) && receivers.Keys == n.tables.Keys && o in n.tables && F.Possible(n, p.wire, o, order)
    ensures Offered(n, receivers, p, o, order)[Offer(h, k)]
         == if h in n.tables && k in Listeners(receivers[h], p, n.infos[h]) then F.After(n, p.wire, o, order).delivered[h] else 0
    decreases order
  {
    if order != [] {
      var before, a := order[..|order| - 1], order[|order| - 1];
      OfferedIs(n, receivers, p, o, before, h, k);
      DispatchedMore(n, p.wire, F.After(n, p.wire, o, before), a, h);
      OffersOnce(receivers, p, a.host, n.infos[a.host], h, k);
    }
  }

  /**
   * Once nothing is waiting, a receiver has been offered the packet exactly once when its host is a member
   * other than the origin that owes it the packet, and never otherwise: a broadcast reaches every receiver
   * of its endpoint, any other packet the first one at the member it is addressed to.
   */
  lemma OfferedOnce(n: F.Network, receivers: map<Name, seq<DispatchEntry>>, p: Packet, selected: set<Attachment>, members: set<Name>,
                    o: Name, order: seq<Attachment>, h: Name, k: nat)
    requires F.Lowered(n, p.wire, selected, members) && Tree(selected, members)
    requires F.Participates(selected, members, o) && o in n.tables && F.Possible(n, p.wire, o, order)
    requires receivers.Keys == n.tables.Keys && F.After(n, p.wire, o, order).pending == multiset{}
    ensures Offered(n, receivers, p, o, order)[Offer(h, k)]
         == if h in members - {o} && h in n.tables && k in Listeners(receivers[h], p, n.infos[h]) then 1 else 0
  {
    F.ExactlyOnce(n, p.wire, selected, members, o, order);
    OfferedIs(n, receivers, p, o, order, h, k);
  }

  /** A receiver in place under the packet's endpoint. */
  predicate Listening(receivers: map<Name, seq<DispatchEntry>>, p: Packet, h: Name, k: nat) {
    h in receivers && k < |receivers[h]| && receivers[h][k].endpoint == p.endpoint && receivers[h][k].present
  }

  /** A broadcast, marked by the destination 0xFF, reaches every receiver of its endpoint at every other member, once. */
  lemma BroadcastReachesAll(n: F.Network, receivers: map<Name, seq<DispatchEntry>>, p: Packet, selected: set<Attachment>,
                            members: set<Name>, o: Name, order: seq<Attachment>, h: Name, k: nat)
    requires F.Lowered(n, p.wire, selected, members) && Tree(selected, members)
    requires F.Participates(selected, members, o) && o in n.tables && F.Possible(n, p.wire, o, order)
    requires receivers.Keys == n.tables.Keys && F.After(n, p.wire, o, order).pending == multiset{}
    requires p.destination == 0xFF
    ensures Offered(n, receivers, p, o, order)[Offer(h, k)]
         == if p.supported && h in members && h != o && Listening(receivers, p, h, k) then 1 else 0
  {
    OfferedOnce(n, receivers, p, selected, members, o, order, h, k);
    if h in n.tables {
      assert F.HostLowered(n, p.wire, selected, members, h);
      assert Listening(receivers, p, h, k) <==> Matches(receivers[h], p, k);
    }
  }

  /** Any other packet reaches, at the other member of that id, the first receiver of its endpoint, once. */
  lemma AddressedReachesFirst(n: F.Network, receivers: map<Name, seq<DispatchEntry>>, p: Packet, selected: set<Attachment>,
                              members: set<Name>, o: Name, order: seq<Attachment>, h: Name, k: nat)
    requires F.Lowered(n, p.wire, selected, members) && Tree(selected, members)
    requires F.Participates(selected, members, o) && o in n.tables && F.Possible(n, p.wire, o, order)
    requires receivers.Keys == n.tables.Keys && F.After(n, p.wire, o, order).pending == multiset{}
    requires p.destination != 0xFF
    ensures Offered(n, receivers, p, o, order)[Offer(h, k)]
         == if p.supported && h in members && h != o && h in n.infos && n.infos[h].id == p.destination
               && Listening(receivers, p, h, k) && (forall j: nat | j < k :: !Listening(receivers, p, h, j)) then 1 else 0
  {
    OfferedOnce(n, receivers, p, selected, members, o, order, h, k);
    assert h in receivers ==> forall j: nat :: Listening(receivers, p, h, j) <==> Matches(receivers[h], p, j);
  }

  /** And at no moment has any receiver been offered it twice. */
  lemma NeverOfferedTwice(n: F.Network, receivers: map<Name, seq<DispatchEntry>>, p: Packet, selected: set<Attachment>, members: set<Name>,
                          o: Name, order: seq<Attachment>, h: Name, k: nat)
    requires F.Lowered(n, p.wire, selected, members) && Tree(selected, members)
    requires F.Participates(selected, members, o) && o in n.tables && F.Possible(n, p.wire, o, order)
    requires receivers.Keys == n.tables.Keys
    ensures Offered(n, receivers, p, o, order)[Offer(h, k)] <= 1
  {
    F.NeverTwiceAndHalts(n, p.wire, selected, members, o, order);
    OfferedIs(n, receivers, p, o, order, h, k);
    var delivered := F.After(n, p.wire, o, order).delivered;
    assert h in delivered ==> delivered[h] == 1;
  }

  /** A packet from the origin under way, its arrivals handled in some order. */
  ghost predicate UnderWay(n: F.Network, p: Packet, o: Name, order: seq<Attachment>) {
    F.Wired(n) && o in n.tables && F.Possible(n, p.wire, o, order)
  }

  /**
   * Each Link of the selection has carried it once and no other Link has; each receiver a member other than
   * the origin owes it to has been offered it once, and no other receiver has.
   */
  ghost predicate ArrivedOnce(n: F.Network, receivers: map<Name, seq<DispatchEntry>>, p: Packet, selected: set<Attachment>,
                              members: set<Name>, o: Name, order: seq<Attachment>)
    requires UnderWay(n, p, o, order) && receivers.Keys == n.tables.Keys
  {
    var sent := F.After(n, p.wire, o, order).sent;
    && (forall l | l in LinksOf(selected) :: F.CarriedOnce(sent, l))
    && (forall a | a in sent :: a in selected)
    && forall h, k: nat :: Offered(n, receivers, p, o, order)[Offer(h, k)]
         == if h in members - {o} && h in n.tables && k in Listeners(receivers[h], p, n.infos[h]) then 1 else 0
  }

  lemma ArrivesOnce(n: F.Network, receivers: map<Name, seq<DispatchEntry>>, p: Packet, selected: set<Attachment>, members: set<Name>,
                    o: Name, order: seq<Attachment>)
    requires F.Lowered(n, p.wire, selected, members) && Tree(selected, members)
    requires F.Participates(selected, members, o) && UnderWay(n, p, o, order) && receivers.Keys == n.tables.Keys
    ensures |order| <= |n.edges|
    ensures F.After(n, p.wire, o, order).pending == multiset{} ==> ArrivedOnce(n, receivers, p, selected, members, o, order)
  {
    F.NeverTwiceAndHalts(n, p.wire, selected, members, o, order);
    if F.After(n, p.wire, o, order).pending == multiset{} {
      F.ExactlyOnce(n, p.wire, selected, members, o, order);
      forall h, k: nat ensures Offered(n, receivers, p, o, order)[Offer(h, k)]
        == if h in members - {o} && h in n.tables && k in Listeners(receivers[h], p, n.infos[h]) then 1 else 0
      {
        OfferedOnce(n, receivers, p, selected, members, o, order, h, k);
      }
    }
  }
}
