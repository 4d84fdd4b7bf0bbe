/** Lowering resolved Wires to what the runtime holds: interface bits, route masks and memberships of each host. */
module Projection {
  import opened Integers
  import opened Protocol
  import opened Graph
  import opened Router
  import T = Topology
  import F = Flooding
  import B = Bitmap16

  const BITS: nat := 8

  /** An interface as authored, with the bit it is pinned to if there is one. */
  datatype Port = Port(name: Name, link: Name, pinned: Option<nat>)

  /** A resolved Wire. */
  datatype Wire = Wire(id: u8, members: set<Name>, attachments: set<Attachment>)

  /** bits: the bit of each interface in turn; order: their positions by ascending bit. */
  datatype HostProjection = HostProjection(bits: seq<nat>, order: seq<nat>, info: HostInfo, routes: seq<RouteEntry>)

  function Pins(ports: seq<Port>): set<nat> { set p | p in ports && p.pinned.Some? :: p.pinned.value }

  /** What the schema has checked of one host's interfaces, which come sorted by name. */
  ghost predicate Sane(ports: seq<Port>) {
    && |ports| <= BITS
    && (forall i, j | 0 <= i < j < |ports| :: ports[i].name < ports[j].name && ports[i].link != ports[j].link)
    && (forall i | 0 <= i < |ports| && ports[i].pinned.Some? :: ports[i].pinned.value < BITS)
    && (forall i, j | 0 <= i < j < |ports| && ports[i].pinned.Some? && ports[j].pinned.Some? ::
          ports[i].pinned.value != ports[j].pinned.value)
  }

  /** Bits of the first interfaces: pinned ones theirs, the others ones that are not pinned, none shared. */
  ghost predicate Assigned(ports: seq<Port>, bits: seq<nat>) {
    && |bits| <= |ports|
    && (forall i | 0 <= i < |bits| :: bits[i] < BITS)
    && (forall i | 0 <= i < |bits| :: if ports[i].pinned.Some? then bits[i] == ports[i].pinned.value else bits[i] !in Pins(ports))
    && (forall i, j | 0 <= i < j < |bits| :: bits[i] != bits[j])
  }

  /** An automatic bit is the least that is neither pinned nor given to an interface earlier by name. */
  ghost predicate Least(ports: seq<Port>, bits: seq<nat>)
    requires |bits| <= |ports|
  {
    forall i, b: nat | 0 <= i < |bits| && ports[i].pinned.None? && b < bits[i] :: b in Pins(ports) || b in bits[..i]
  }

  /** Interfaces from i on that still need a bit. */
  function Unpinned(ports: seq<Port>, i: nat): nat
    decreases |ports| - i
  {
    if i >= |ports| then 0 else (if ports[i].pinned.None? then 1 else 0) + Unpinned(ports, i + 1)
  }

  lemma {:induction false} PinsFit(ports: seq<Port>, i: nat)
    requires i <= |ports|
    ensures |Pins(ports[i..])| + Unpinned(ports, i) <= |ports| - i
    decreases |ports| - i
  {
    if i < |ports| {
      PinsFit(ports, i + 1);
      var rest := Pins(ports[i + 1..]);
      assert ports[i..] == [ports[i]] + ports[i + 1..];
      if ports[i].pinned.Some? {
        assert Pins(ports[i..]) == rest + {ports[i].pinned.value};
      } else {
        assert Pins(ports[i..]) == rest;
      }
    } else {
      assert ports[i..] == [];
      assert Pins([]) == {};
    }
  }

  /** Some bit is free while fewer than eight are taken. */
  method NextFree(reserved: set<nat>) returns (bit: nat)
    requires |reserved| < BITS
    ensures bit < BITS && bit !in reserved && forall b: nat | b < bit :: b in reserved
  {
    bit := 0;
    while bit in reserved
      invariant bit <= BITS && forall b: nat | b < bit :: b in reserved
      decreases BITS - bit
    {
      NotAllTaken(reserved, bit);
      bit := bit + 1;
    }
    NotAllTaken(reserved, bit - 1);
  }

  lemma NotAllTaken(reserved: set<nat>, bit: int)
    requires |reserved| < BITS
    requires forall b: nat | b <= bit :: b in reserved
    ensures bit + 1 < BITS
  {
    if bit + 1 >= BITS { SubsetSize(UpTo(BITS), reserved); }
  }

  lemma AssignOne(ports: seq<Port>, bits: seq<nat>, bit: nat)
    requires Sane(ports) && |bits| < |ports| && Assigned(ports, bits) && bit < BITS
    requires if ports[|bits|].pinned.Some? then bit == ports[|bits|].pinned.value else bit !in Pins(ports) && bit !in bits
    ensures Assigned(ports, bits + [bit])
  {
    var n := |bits|;
    if ports[n].pinned.Some? {
      assert ports[n] in ports && bit in Pins(ports);
      forall j | 0 <= j < n ensures bits[j] != bit {
        assert ports[j].pinned.Some? ==> bits[j] == ports[j].pinned.value;
      }
    }
  }

  lemma LeastOne(ports: seq<Port>, bits: seq<nat>, bit: nat)
    requires |bits| < |ports| && Least(ports, bits)
    requires ports[|bits|].pinned.None? ==> forall b: nat | b < bit :: b in Pins(ports) || b in bits
    ensures Least(ports, bits + [bit])
  {
    var more := bits + [bit];
    forall i, b: nat | 0 <= i < |more| && ports[i].pinned.None? && b < more[i] ensures b in Pins(ports) || b in more[..i] {
      if i < |bits| { assert more[..i] == bits[..i]; } else { assert more[..i] == bits; }
    }
  }

  ghost predicate Reserves(ports: seq<Port>, bits: seq<nat>, reserved: set<nat>) {
    forall b :: b in reserved <==> b in Pins(ports) || b in bits
  }

  /** The pinned bit, or the least one left; either way it is reserved afterwards. */
  method PickBit(ports: seq<Port>, bits: seq<nat>, reserved: set<nat>) returns (bit: nat, taken: set<nat>)
    requires Sane(ports) && |bits| < |ports| && Reserves(ports, bits, reserved)
    requires |reserved| + Unpinned(ports, |bits|) <= BITS
    ensures bit < BITS && (ports[|bits|].pinned.Some? ==> bit == ports[|bits|].pinned.value)
    ensures ports[|bits|].pinned.None? ==>
      bit !in Pins(ports) && bit !in bits && forall b: nat | b < bit :: b in Pins(ports) || b in bits
    ensures Reserves(ports, bits + [bit], taken) && |taken| + Unpinned(ports, |bits| + 1) <= BITS
  {
    var port := ports[|bits|];
    if port.pinned.Some? {
      bit, taken := port.pinned.value, reserved;
      assert port in ports && bit in Pins(ports);
    } else {
      bit := NextFree(reserved);
      taken := reserved + {bit};
    }
    assert forall b :: b in bits + [bit] <==> b in bits || b == bit;
  }

  /** Every interface gets a bit of its own, pinned interfaces their own. */
  method AssignBits(ports: seq<Port>) returns (bits: seq<nat>)
    requires Sane(ports)
    ensures |bits| == |ports| && Assigned(ports, bits) && Least(ports, bits)
  {
    bits := [];
    var reserved := Pins(ports);
    PinsFit(ports, 0);
    assert ports[0..] == ports;
    for i := 0 to |ports|
      invariant |bits| == i && Assigned(ports, bits) && Least(ports, bits)
      invariant Reserves(ports, bits, reserved) && |reserved| + Unpinned(ports, i) <= BITS
    {
      var bit;
      bit, reserved := PickBit(ports, bits, reserved);
      AssignOne(ports, bits, bit);
      LeastOne(ports, bits, bit);
      bits := bits + [bit];
    }
  }

  /** The positions of the interfaces by ascending bit. */
  method SortByBit(bits: seq<nat>) returns (order: seq<nat>)
    requires forall i | 0 <= i < |bits| :: bits[i] < BITS
    requires forall i, j | 0 <= i < j < |bits| :: bits[i] != bits[j]
    ensures Sorted(bits, order) && forall i: nat | i < |bits| :: i in order
  {
    order := [];
    for bit := 0 to BITS
      invariant Sorted(bits, order)
      invariant forall k | k in order :: bits[k] < bit
      invariant forall i: nat | i < |bits| && bits[i] < bit :: i in order
    {
      for i := 0 to |bits|
        invariant Sorted(bits, order)
        invariant forall k | k in order :: bits[k] < bit || (bits[k] == bit && k < i)
        invariant forall k: nat | k < |bits| && (bits[k] < bit || (bits[k] == bit && k < i)) :: k in order
      {
        if bits[i] == bit {
          SortedMore(bits, order, i);
          order := order + [i];
        }
      }
    }
  }

  ghost predicate Sorted(bits: seq<nat>, order: seq<nat>) {
    && (forall k | k in order :: k < |bits|)
    && (forall i | 0 <= i < |order| :: order[i] < |bits|)
    && (forall i, j | 0 <= i < j < |order| :: bits[order[i]] < bits[order[j]])
  }

  lemma SortedMore(bits: seq<nat>, order: seq<nat>, i: nat)
    requires Sorted(bits, order) && i < |bits| && forall k | k in order :: bits[k] < bits[i]
    ensures Sorted(bits, order + [i]) && forall k :: k in order + [i] <==> k in order || k == i
  {}

  // Masks and tables.

  /** The bits of the selected interfaces, in the given order of interfaces. */
  ghost function BitsOf(bits: seq<nat>, order: seq<nat>, selected: set<nat>): set<nat>
    requires forall k | k in order :: k < |bits|
  {
    set k | k in order && k in selected :: bits[k]
  }

  /** Adding up the masks of interfaces in ascending order sets exactly their bits. */
  method MaskOf(bits: seq<nat>, order: seq<nat>, selected: set<nat>) returns (mask: u8)
    requires Sorted(bits, order) && forall i | 0 <= i < |bits| :: bits[i] < BITS
    ensures B.Bits(mask) == BitsOf(bits, order, selected)
  {
    var sum: nat := 0;
    ghost var bound: nat := 0;
    B.NoBits(0);
    EightBits();
    for i := 0 to |order|
      invariant bound <= BITS && sum < Pow2(bound)
      invariant forall j | i <= j < |order| :: bits[order[j]] >= bound
      invariant B.Bits(sum) == BitsOf(bits, order[..i], selected)
    {
      var bit := bits[order[i]];
      MaskMore(bits, order, selected, i, sum, bound);
      if order[i] in selected {
        sum := sum + Pow2(bit);
      }
      bound := bit + 1;
    }
    assert order[..|order|] == order;
    B.Pow2Monotone(bound, BITS);
    mask := sum;
  }

  lemma EightBits()
    ensures Pow2(BITS) == 0x100
  {
    assert Pow2(4) == 16;
  }

  lemma MaskMore(bits: seq<nat>, order: seq<nat>, selected: set<nat>, i: nat, sum: nat, bound: nat)
    requires Sorted(bits, order) && (forall i | 0 <= i < |bits| :: bits[i] < BITS) && i < |order|
    requires sum < Pow2(bound) && bits[order[i]] >= bound && B.Bits(sum) == BitsOf(bits, order[..i], selected)
    ensures var bit := bits[order[i]];
      var more := if order[i] in selected then sum + Pow2(bit) else sum;
      more < Pow2(bit + 1) && B.Bits(more) == BitsOf(bits, order[..i + 1], selected)
  {
    var bit := bits[order[i]];
    B.Pow2Monotone(bound, bit);
    assert order[..i + 1] == order[..i] + [order[i]];
    if order[i] in selected {
      var more := sum + Pow2(bit);
      forall b: nat ensures b in B.Bits(more) <==> b in B.Bits(sum) + {bit} { B.AddTopBit(sum, bit, b); }
      assert B.Bits(more) == B.Bits(sum) + {bit};
      assert BitsOf(bits, order[..i + 1], selected) == BitsOf(bits, order[..i], selected) + {bit};
    } else {
      assert BitsOf(bits, order[..i + 1], selected) == BitsOf(bits, order[..i], selected);
    }
  }

  predicate Names(w: Wire, host: Name, interface: Name) {
    exists a | a in w.attachments :: a.host == host && a.interface == interface
  }

  /** The interfaces of a host that a Wire selects, by position. */
  function Mine(host: Name, ports: seq<Port>, w: Wire): set<nat> {
    set i: nat | i < |ports| && Names(w, host, ports[i].name)
  }

  function Memberships(host: Name, wires: seq<Wire>): seq<u8> {
    if wires == [] then []
    else
      var w := wires[|wires| - 1];
      Memberships(host, wires[..|wires| - 1]) + (if host in w.members then [w.id] else [])
  }

  ghost predicate DistinctIds(wires: seq<Wire>) { forall j, k | 0 <= j < k < |wires| :: wires[j].id != wires[k].id }

  /** The row of a Wire: absent when the host neither carries it nor belongs to it, else the selected bits. */
  ghost predicate RowFits(routes: seq<RouteEntry>, id: u8, bits: set<nat>, member: bool) {
    match Lookup(routes, id)
    case None => bits == {} && !member
    case Some(mask) => B.Bits(mask) == bits && (bits != {} || member)
  }

  /** What a projected host holds. */
  ghost predicate Projects(host: Name, ports: seq<Port>, wires: seq<Wire>, p: HostProjection) {
    && |p.bits| == |ports| && Assigned(ports, p.bits)
    && Sorted(p.bits, p.order) && (forall i: nat | i < |p.bits| :: i in p.order)
    && p.info.wires == Memberships(host, wires) && |p.info.wires| <= MEMBERSHIPS
    && forall k | 0 <= k < |wires| ::
         RowFits(p.routes, wires[k].id, BitsOf(p.bits, p.order, Mine(host, ports, wires[k])), host in wires[k].members)
  }

  lemma {:induction false} LookupAppend(routes: seq<RouteEntry>, row: RouteEntry, id: u8)
    ensures Lookup(routes + [row], id)
         == if Lookup(routes, id).Some? then Lookup(routes, id) else if row.wire == id then Some(row.interfaces) else None
    decreases routes
  {
    if routes == [] {
      assert [row][1..] == [];
    } else {
      assert (routes + [row])[1..] == routes[1..] + [row];
      LookupAppend(routes[1..], row, id);
    }
  }

  /** The rows of the first n Wires are there, and no others. */
  ghost predicate Tabled(host: Name, ports: seq<Port>, wires: seq<Wire>, bits: seq<nat>, order: seq<nat>, routes: seq<RouteEntry>, n: nat)
    requires n <= |wires| && forall k | k in order :: k < |bits|
  {
    && (forall k | 0 <= k < n ::
          RowFits(routes, wires[k].id, BitsOf(bits, order, Mine(host, ports, wires[k])), host in wires[k].members))
    && (forall k | n <= k < |wires| :: Lookup(routes, wires[k].id) == None)
  }

  lemma TableOne(host: Name, ports: seq<Port>, wires: seq<Wire>, bits: seq<nat>, order: seq<nat>, routes: seq<RouteEntry>, n: nat, mask: u8)
    requires n < |wires| && DistinctIds(wires) && (forall k | k in order :: k < |bits|)
    requires Tabled(host, ports, wires, bits, order, routes, n)
    requires B.Bits(mask) == BitsOf(bits, order, Mine(host, ports, wires[n]))
    ensures Tabled(host, ports, wires, bits, order,
      if mask != 0 || host in wires[n].members then routes + [RouteEntry(wires[n].id, mask)] else routes, n + 1)
  {
    var row := RouteEntry(wires[n].id, mask);
    B.NoBits(mask);
    forall k | 0 <= k < |wires| ensures Lookup(routes + [row], wires[k].id)
      == if Lookup(routes, wires[k].id).Some? then Lookup(routes, wires[k].id) else if k == n then Some(mask) else None
    {
      LookupAppend(routes, row, wires[k].id);
    }
  }

  /** One host: bits for its interfaces, its memberships if there are not too many, and a row for each Wire it is on. */
  method ProjectHost(host: Name, id: u8, ports: seq<Port>, wires: seq<Wire>) returns (r: Option<HostProjection>)
    requires Sane(ports) && DistinctIds(wires)
    ensures r.None? <==> |Memberships(host, wires)| > 6
    ensures r.Some? ==> Projects(host, ports, wires, r.value) && Least(ports, r.value.bits) && r.value.info.id == id
  {
    var bits := AssignBits(ports);
    var order := SortByBit(bits);
    var memberships := Memberships(host, wires);
    if |memberships| > MEMBERSHIPS {
      return None;
    }
    var routes := [];
    for n := 0 to |wires|
      invariant Tabled(host, ports, wires, bits, order, routes, n)
    {
      var mask := MaskOf(bits, order, Mine(host, ports, wires[n]));
      TableOne(host, ports, wires, bits, order, routes, n, mask);
      if mask != 0 || host in wires[n].members {
        routes := routes + [RouteEntry(wires[n].id, mask)];
      }
    }
    r := Some(HostProjection(bits, order, HostInfo(id, memberships), routes));
  }

  // All hosts together.

  /** The hosts of a deployment with their interfaces, and what each was projected to. */
  datatype Deployment = Deployment(ports: map<Name, seq<Port>>, wires: seq<Wire>, projections: map<Name, HostProjection>)
  {
    ghost predicate Valid() {
      && ports.Keys == projections.Keys && DistinctIds(wires)
      && (forall h | h in ports :: Sane(ports[h]) && Projects(h, ports[h], wires, projections[h]))
      && (forall w | w in wires :: w.members <= ports.Keys && w.attachments <= Edges())
    }

    ghost function Edges(): set<Attachment> {
      set h, i: nat | h in ports && i < |ports[h]| :: Attachment(h, ports[h][i].name, ports[h][i].link)
    }

    ghost predicate IsAt(a: Attachment, i: nat) {
      a.host in ports && i < |ports[a.host]| && a == Attachment(a.host, ports[a.host][i].name, ports[a.host][i].link)
    }

    ghost function PositionOf(a: Attachment): (i: nat)
      requires a in Edges()
      ensures IsAt(a, i)
    {
      assert exists i: nat :: IsAt(a, i) by {
        var h, i: nat :| h in ports && i < |ports[h]| && a == Attachment(h, ports[h][i].name, ports[h][i].link);
        assert IsAt(a, i);
      }
      var i: nat :| IsAt(a, i);
      i
    }

    /** The network these hosts make. */
    ghost function Network(): F.Network
      requires Valid()
    {
      F.Network(Edges(),
                map a | a in Edges() :: projections[a.host].bits[PositionOf(a)],
                map h | h in projections :: projections[h].routes,
                map h | h in projections :: projections[h].info)
    }
  }

  lemma NetworkWired(d: Deployment)
    requires d.Valid()
    ensures F.Wired(d.Network())
  {
    var n := d.Network();
    forall a | a in n.edges ensures a in n.bit && n.bit[a] < 8 && a.host in n.tables {
      assert d.IsAt(a, d.PositionOf(a));
    }
    forall a, b | a in n.edges && b in n.edges && a.host == b.host && (a.link == b.link || n.bit[a] == n.bit[b]) ensures a == b {
      SameInterface(d, a, b);
    }
  }

  lemma SameInterface(d: Deployment, a: Attachment, b: Attachment)
    requires d.Valid() && a in d.Edges() && b in d.Edges() && a.host == b.host
    requires a.link == b.link || a.interface == b.interface
      || d.projections[a.host].bits[d.PositionOf(a)] == d.projections[a.host].bits[d.PositionOf(b)]
    ensures a == b
  {
    var i, j := d.PositionOf(a), d.PositionOf(b);
    assert d.IsAt(a, i) && d.IsAt(b, j);
    OnePlace(d.ports[a.host], d.projections[a.host].bits, i, j);
  }

  lemma OnePlace(ports: seq<Port>, bits: seq<nat>, i: nat, j: nat)
    requires Sane(ports) && Assigned(ports, bits) && |bits| == |ports| && i < |ports| && j < |ports|
    ensures ports[i].name == ports[j].name || ports[i].link == ports[j].link || bits[i] == bits[j] ==> i == j
  {
    assert i < j ==> ports[i].name < ports[j].name && ports[i].link != ports[j].link && bits[i] != bits[j];
    assert j < i ==> ports[j].name < ports[i].name && ports[j].link != ports[i].link && bits[j] != bits[i];
  }

  lemma {:induction false} MembershipsHold(host: Name, wires: seq<Wire>, k: nat)
    requires k < |wires| && DistinctIds(wires)
    ensures wires[k].id in Memberships(host, wires) <==> host in wires[k].members
    decreases wires
  {
    var rest := wires[..|wires| - 1];
    if k < |rest| {
      MembershipsHold(host, rest, k);
    } else {
      NotMember(host, rest, wires[k].id);
    }
  }

  lemma {:induction false} NotMember(host: Name, wires: seq<Wire>, id: u8)
    requires forall k | 0 <= k < |wires| :: wires[k].id != id
    ensures id !in Memberships(host, wires)
    decreases wires
  {
    if wires != [] { NotMember(host, wires[..|wires| - 1], id); }
  }

  /** The bits a row selects are those of the host's selected attachments. */
  lemma RowIsSelection(d: Deployment, w: Wire, h: Name)
    requires d.Valid() && F.Wired(d.Network()) && w in d.wires && h in d.ports
    ensures var p := d.projections[h];
      BitsOf(p.bits, p.order, Mine(h, d.ports[h], w)) == set a | a in F.At(w.attachments, h) :: d.Network().bit[a]
  {
    var p, n := d.projections[h], d.Network();
    var mine := Mine(h, d.ports[h], w);
    forall b | b in BitsOf(p.bits, p.order, mine) ensures b in set a | a in F.At(w.attachments, h) :: n.bit[a] {
      var i :| i in p.order && i in mine && p.bits[i] == b;
      var a :| a in w.attachments && a.host == h && a.interface == d.ports[h][i].name;
      AttachmentAt(d, a, i);
      assert a in F.At(w.attachments, h) && n.bit[a] == b;
    }
    forall a | a in F.At(w.attachments, h) ensures n.bit[a] in BitsOf(p.bits, p.order, mine) {
      var i := d.PositionOf(a);
      assert Names(w, h, d.ports[h][i].name);
      assert i in p.order && i in mine;
    }
  }

  lemma AttachmentAt(d: Deployment, a: Attachment, i: nat)
    requires d.Valid() && a in d.Edges() && i < |d.ports[a.host]| && a.interface == d.ports[a.host][i].name
    ensures d.PositionOf(a) == i
  {
    var j := d.PositionOf(a);
    assert d.IsAt(a, j);
    OnePlace(d.ports[a.host], d.projections[a.host].bits, i, j);
  }

  /** The tables and identities of a projected deployment carry out every one of its Wires. */
  lemma ProjectionLowers(d: Deployment, k: nat)
    requires d.Valid() && k < |d.wires|
    ensures F.Lowered(d.Network(), d.wires[k].id, d.wires[k].attachments, d.wires[k].members)
  {
    var n, w := d.Network(), d.wires[k];
    assert w in d.wires;
    NetworkWired(d);
    forall h | h in n.tables ensures F.HostLowered(n, w.id, w.attachments, w.members, h) { HostIsLowered(d, k, h); }
  }

  lemma HostIsLowered(d: Deployment, k: nat, h: Name)
    requires d.Valid() && F.Wired(d.Network()) && k < |d.wires| && h in d.ports
    ensures d.wires[k].attachments <= d.Edges()
    ensures F.HostLowered(d.Network(), d.wires[k].id, d.wires[k].attachments, d.wires[k].members, h)
  {
    var w, p, n := d.wires[k], d.projections[h], d.Network();
    assert w in d.wires;
    RowIsSelection(d, w, h);
    IsMemberIffListed(d, k, h);
    var mine := F.At(w.attachments, h);
    var bits := set a | a in mine :: n.bit[a];
    assert Projects(h, d.ports[h], d.wires, p);
    assert RowFits(p.routes, w.id, bits, h in w.members);
    assert bits == {} ==> mine == {} by {
      forall a | a in mine ensures n.bit[a] in bits { }
    }
  }

  lemma IsMemberIffListed(d: Deployment, k: nat, h: Name)
    requires d.Valid() && k < |d.wires| && h in d.ports
    ensures d.projections[h].info.IsMemberOf(d.wires[k].id) <==> h in d.wires[k].members
  {
    MembershipsHold(h, d.wires, k);
    var p := d.projections[h];
    assert Projects(h, d.ports[h], d.wires, p);
    assert p.info.wires[..Min(|p.info.wires|, MEMBERSHIPS)] == p.info.wires;
  }

  /**
   * From authored interfaces to packets: on every Wire of a projected deployment whose attachments form a
   * tree over its members, a packet from any participant is carried once by each of the Wire's Links and
   * by no other, is admitted once by every other participant and dispatched once by every other member,
   * in whatever order arrivals are handled, and no more than one arrival per interface is ever handled.
   */
  lemma CompiledWireCarriesOnce(d: Deployment, k: nat, origin: Name, arrivals: seq<Attachment>)
    requires d.Valid() && k < |d.wires| && T.Tree(d.wires[k].attachments, d.wires[k].members)
    requires F.Participates(d.wires[k].attachments, d.wires[k].members, origin) && origin in d.ports
    requires F.Wired(d.Network()) && F.Possible(d.Network(), d.wires[k].id, origin, arrivals)
    ensures |arrivals| <= |d.Edges()|
    ensures var w, s := d.wires[k], F.After(d.Network(), d.wires[k].id, origin, arrivals);
      s.pending == multiset{} ==>
        && (forall l | l in T.LinksOf(w.attachments) :: F.CarriedOnce(s.sent, l))
        && (forall a | a in s.sent :: a in w.attachments)
        && (forall h | F.Participates(w.attachments, w.members, h) && h != origin :: F.AdmittedOnce(s.admitted, h))
        && s.delivered == multiset(w.members - {origin})
  {
    var w := d.wires[k];
    ProjectionLowers(d, k);
    F.NeverTwiceAndHalts(d.Network(), w.id, w.attachments, w.members, origin, arrivals);
    if F.After(d.Network(), w.id, origin, arrivals).pending == multiset{} {
      F.ExactlyOnce(d.Network(), w.id, w.attachments, w.members, origin, arrivals);
    }
  }
}
