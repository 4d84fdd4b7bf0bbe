/**
 * One packet let loose on a Wire: every host applies its own table, Links carry what they are given to
 * every other attachment, and what has arrived may be handled in any order.
 */
module Flooding {
  import opened Integers
  import opened Protocol
  import opened Graph
  import opened Topology
  import opened Forwarding
  import opened Router
  import B = Bitmap16

  /** Every physical attachment with its host-local bit, and every host's route table and identity. */
  datatype Network = Network(
    edges: set<Attachment>, bit: map<Attachment, nat>, tables: map<Name, seq<RouteEntry>>, infos: map<Name, HostInfo>)

  ghost function At(s: set<Attachment>, h: Name): set<Attachment> { set a | a in s && a.host == h }

  /** Bits tell the interfaces of one host apart. */
  ghost predicate Wired(n: Network) {
    && Single(n.edges)
    && (forall a | a in n.edges :: a in n.bit && n.bit[a] < 8 && a.host in n.tables)
    && n.tables.Keys == n.infos.Keys
    && (forall a, b | a in n.edges && b in n.edges && a.host == b.host && n.bit[a] == n.bit[b] :: a == b)
  }

  /** A host's row of a Wire selects its attachments; it has one when it has any or is a member. */
  ghost predicate HostLowered(n: Network, wire: u8, selected: set<Attachment>, members: set<Name>, h: Name)
    requires Wired(n) && selected <= n.edges && h in n.tables
  {
    && (match Lookup(n.tables[h], wire)
        case None => At(selected, h) == {} && h !in members
        case Some(mask) => B.Bits(mask) == set a | a in At(selected, h) :: n.bit[a])
    && (n.infos[h].IsMemberOf(wire) <==> h in members)
  }

  /** The tables carry out the selection. */
  ghost predicate Lowered(n: Network, wire: u8, selected: set<Attachment>, members: set<Name>) {
    && Wired(n) && selected <= n.edges
    && (forall h | h in members :: h in n.tables)
    && (forall h {:trigger HostLowered(n, wire, selected, members, h)} | h in n.tables :: HostLowered(n, wire, selected, members, h))
  }

  // The packet under way.

  /**
   * pending: arrivals not yet handled; sent: by which attachments the packet has gone out; admitted:
   * arrivals the routing let in; delivered: hosts that have dispatched it to their own receivers.
   */
  datatype State = State(
    pending: multiset<Attachment>, sent: multiset<Attachment>, admitted: multiset<Attachment>, delivered: multiset<Name>)

  /** The interfaces of a host with the given bits. */
  ghost function Outlets(n: Network, h: Name, d: Decision<set<nat>>): set<Attachment>
    requires Wired(n)
  {
    set b | b in n.edges && b.host == h && d.FanOut? && n.bit[b] in d.egress
  }

  /** Each Link carries what one attachment sends to all its others; a host has one attachment to a Link. */
  ghost function Hears(n: Network, out: set<Attachment>): set<Attachment> {
    set c | c in n.edges && exists b | b in out :: c.link == b.link && c.host != b.host
  }

  /** The origin forwards its own packet. */
  ghost function Launch(n: Network, wire: u8, o: Name): State
    requires Wired(n) && o in n.tables
  {
    var out := Outlets(n, o, Route(n.tables[o], wire, 0));
    State(multiset(Hears(n, out)), multiset(out), multiset{}, multiset{})
  }

  /** A host handles one arrival. */
  ghost function Handle(n: Network, wire: u8, s: State, a: Attachment): State
    requires Wired(n) && a in n.edges
  {
    var table := n.tables[a.host];
    var out := Outlets(n, a.host, Route(table, wire, n.bit[a] + 1));
    var admits := Admits(table, wire, n.bit[a] + 1);
    State(s.pending - multiset{a} + multiset(Hears(n, out)),
          s.sent + multiset(out),
          s.admitted + (if admits then multiset{a} else multiset{}),
          s.delivered + (if admits && n.infos[a.host].IsMemberOf(wire) then multiset{a.host} else multiset{}))
  }

  /** Every arrival handled is one that was waiting. */
  ghost predicate Possible(n: Network, wire: u8, o: Name, order: seq<Attachment>)
    requires Wired(n) && o in n.tables
    decreases order, 0
  {
    order != [] ==>
      var before, a := order[..|order| - 1], order[|order| - 1];
      Possible(n, wire, o, before) && a in n.edges && a in After(n, wire, o, before).pending
  }

  ghost function After(n: Network, wire: u8, o: Name, order: seq<Attachment>): State
    requires Wired(n) && o in n.tables && Possible(n, wire, o, order)
    decreases order, 1
  {
    if order == [] then Launch(n, wire, o)
    else Handle(n, wire, After(n, wire, o, order[..|order| - 1]), order[|order| - 1])
  }

  // The tree seen from the origin.

  /** The host is on the near side of its attachment: it is the one to send on the Link. */
  ghost predicate Upward(selected: set<Attachment>, o: Name, a: Attachment) {
    Inward(selected, Host(o), a, Host(a.host), Link(a.link))
  }

  /** The Link is on the near side: the host is to hear from it. */
  ghost predicate Downward(selected: set<Attachment>, o: Name, a: Attachment) {
    Inward(selected, Host(o), a, Link(a.link), Host(a.host))
  }

  ghost predicate Participates(selected: set<Attachment>, members: set<Name>, o: Name) {
    o in members || o in HostsOf(selected)
  }

  lemma OneOrOther(selected: set<Attachment>, members: set<Name>, o: Name, a: Attachment)
    requires Tree(selected, members) && Participates(selected, members, o) && a in selected
    ensures Upward(selected, o, a) != Downward(selected, o, a)
  {
    assert OnWire(selected, members, Host(o)) && OnWire(selected, members, Host(a.host));
    OneDirection(selected, Host(o), a, Host(a.host), Link(a.link));
  }

  lemma OneSender(selected: set<Attachment>, o: Name, a: Attachment, b: Attachment)
    requires Acyclic(selected) && Upward(selected, o, a) && Upward(selected, o, b) && a.link == b.link
    ensures a == b
  {
    OneWayIn(selected, Host(o), Link(a.link), a, Host(a.host), b, Host(b.host));
  }

  lemma OneSource(selected: set<Attachment>, o: Name, a: Attachment, b: Attachment)
    requires Acyclic(selected) && Downward(selected, o, a) && Downward(selected, o, b) && a.host == b.host
    ensures a == b
  {
    OneWayIn(selected, Host(o), Host(a.host), a, Link(a.link), b, Link(b.link));
  }

  lemma OriginHearsNothing(selected: set<Attachment>, o: Name, a: Attachment)
    requires Acyclic(selected) && a in selected
    ensures Downward(selected, o, a) ==> a.host != o
  {
    NoWayBack(selected, Host(o), a, Link(a.link));
  }

  /** Every Link of the Wire has a sender, every other host a source. */
  lemma SomeSender(selected: set<Attachment>, members: set<Name>, o: Name, l: Name) returns (a: Attachment)
    requires Tree(selected, members) && Participates(selected, members, o) && l in LinksOf(selected)
    ensures a.link == l && Upward(selected, o, a)
  {
    assert OnWire(selected, members, Host(o)) && OnWire(selected, members, Link(l));
    var p :| Leads(selected, Host(o), p, Link(l));
    var x;
    a, x := WayIn(selected, Host(o), Link(l), p);
  }

  lemma SomeSource(selected: set<Attachment>, members: set<Name>, o: Name, h: Name) returns (a: Attachment)
    requires Tree(selected, members) && Participates(selected, members, o)
    requires Participates(selected, members, h) && h != o
    ensures a.host == h && Downward(selected, o, a)
  {
    assert OnWire(selected, members, Host(o)) && OnWire(selected, members, Host(h));
    var p :| Leads(selected, Host(o), p, Host(h));
    var x;
    a, x := WayIn(selected, Host(o), Host(h), p);
  }

  // What one host does with one arrival.

  lemma SelectedArrival(n: Network, wire: u8, selected: set<Attachment>, members: set<Name>, a: Attachment)
    requires Lowered(n, wire, selected, members) && a in selected
    ensures Admits(n.tables[a.host], wire, n.bit[a] + 1)
    ensures Outlets(n, a.host, Route(n.tables[a.host], wire, n.bit[a] + 1)) == At(selected, a.host) - {a}
  {
    var mine := At(selected, a.host);
    assert HostLowered(n, wire, selected, members, a.host);
    assert a in mine;
    var mask := Lookup(n.tables[a.host], wire).value;
    var bits := B.Bits(mask);
    assert n.bit[a] in bits;
    var out := Outlets(n, a.host, Route(n.tables[a.host], wire, n.bit[a] + 1));
    forall b | b in mine - {a} ensures b in out { assert n.bit[b] in bits; }
    forall b | b in out ensures b in mine - {a} { var c :| c in mine && n.bit[c] == n.bit[b]; }
  }

  lemma StrayArrival(n: Network, wire: u8, selected: set<Attachment>, members: set<Name>, a: Attachment)
    requires Lowered(n, wire, selected, members) && a in n.edges && a !in selected
    ensures !Admits(n.tables[a.host], wire, n.bit[a] + 1)
    ensures Outlets(n, a.host, Route(n.tables[a.host], wire, n.bit[a] + 1)) == {}
  {
    assert HostLowered(n, wire, selected, members, a.host);
    if Lookup(n.tables[a.host], wire).Some? {
      var bits := B.Bits(Lookup(n.tables[a.host], wire).value);
      assert forall c | c in At(selected, a.host) :: n.bit[c] != n.bit[a];
      assert n.bit[a] !in bits;
    }
  }

  lemma OwnPacket(n: Network, wire: u8, selected: set<Attachment>, members: set<Name>, o: Name)
    requires Lowered(n, wire, selected, members) && Participates(selected, members, o) && o in n.tables
    ensures Outlets(n, o, Route(n.tables[o], wire, 0)) == At(selected, o)
  {
    var mine := At(selected, o);
    assert HostLowered(n, wire, selected, members, o);
    if o in HostsOf(selected) { var a :| a in selected && a.host == o; assert a in mine; }
    var bits := B.Bits(Lookup(n.tables[o], wire).value);
    var out := Outlets(n, o, Route(n.tables[o], wire, 0));
    forall b | b in mine ensures b in out { assert n.bit[b] in bits; }
    forall b | b in out ensures b in mine { var c :| c in mine && n.bit[c] == n.bit[b]; }
  }

  // What always holds.

  ghost predicate Reached(o: Name, done: set<Attachment>, h: Name) { h == o || h in HostsOf(done) }

  /** The attachments by which the packet has gone out, once the arrivals in done have been admitted. */
  ghost function Fired(selected: set<Attachment>, o: Name, done: set<Attachment>): set<Attachment> {
    set a | a in selected && Upward(selected, o, a) && Reached(o, done, a.host)
  }

  /** The counters are counts of sets: nothing has happened twice. */
  ghost predicate Tally(s: State, fired: set<Attachment>, heard: set<Attachment>, done: set<Attachment>,
                        strays: set<Attachment>, delivered: set<Name>) {
    && s.sent == multiset(fired) && s.admitted == multiset(done)
    && s.pending == multiset(heard - (done + strays)) && s.delivered == multiset(delivered)
  }

  /** done: selected arrivals handled, all downward; strays: arrivals turned away at other attachments. */
  ghost predicate Handled(n: Network, selected: set<Attachment>, o: Name, done: set<Attachment>, strays: set<Attachment>) {
    && done <= selected && (forall a | a in done :: Downward(selected, o, a))
    && strays <= n.edges - selected
    && done + strays <= Hears(n, Fired(selected, o, done))
  }

  ghost predicate Invariant(n: Network, selected: set<Attachment>, members: set<Name>, o: Name,
                            s: State, done: set<Attachment>, strays: set<Attachment>) {
    && Handled(n, selected, o, done, strays)
    && Tally(s, Fired(selected, o, done), Hears(n, Fired(selected, o, done)), done, strays, members * HostsOf(done))
  }

  lemma HandleIs(n: Network, wire: u8, s: State, a: Attachment, out: set<Attachment>, admits: bool, member: bool)
    requires Wired(n) && a in n.edges && a.host in n.tables
    requires Outlets(n, a.host, Route(n.tables[a.host], wire, n.bit[a] + 1)) == out
    requires Admits(n.tables[a.host], wire, n.bit[a] + 1) == admits && n.infos[a.host].IsMemberOf(wire) == member
    ensures Handle(n, wire, s, a) == State(
      s.pending - multiset{a} + multiset(Hears(n, out)), s.sent + multiset(out),
      s.admitted + (if admits then multiset{a} else multiset{}),
      s.delivered + (if admits && member then multiset{a.host} else multiset{}))
  {}

  lemma LaunchInvariant(n: Network, wire: u8, selected: set<Attachment>, members: set<Name>, o: Name)
    requires Lowered(n, wire, selected, members) && Tree(selected, members)
    requires Participates(selected, members, o) && o in n.tables
    ensures Invariant(n, selected, members, o, Launch(n, wire, o), {}, {})
  {
    OwnPacket(n, wire, selected, members, o);
    assert Fired(selected, o, {}) == At(selected, o) by {
      forall a | a in At(selected, o) ensures Upward(selected, o, a) {
        OneOrOther(selected, members, o, a);
        OriginHearsNothing(selected, o, a);
      }
    }
    assert members * HostsOf({}) == {};
    var heard := Hears(n, At(selected, o));
    assert heard - ({} + {}) == heard;
  }

  lemma Waits(s: State, fired: set<Attachment>, heard: set<Attachment>, done: set<Attachment>,
              strays: set<Attachment>, delivered: set<Name>, a: Attachment)
    requires Tally(s, fired, heard, done, strays, delivered)
    ensures a in s.pending <==> a in heard && a !in done && a !in strays
  {
    assert a in s.pending <==> a in heard - (done + strays);
  }

  lemma StrayTally(s: State, fired: set<Attachment>, heard: set<Attachment>, done: set<Attachment>,
                   strays: set<Attachment>, delivered: set<Name>, a: Attachment)
    requires Tally(s, fired, heard, done, strays, delivered) && a in s.pending
    ensures Tally(State(s.pending - multiset{a} + multiset{}, s.sent + multiset{}, s.admitted + multiset{}, s.delivered + multiset{}),
                  fired, heard, done, strays + {a}, delivered)
  {
    assert heard - (done + (strays + {a})) == (heard - (done + strays)) - {a};
  }

  lemma StrayHandle(n: Network, wire: u8, selected: set<Attachment>, members: set<Name>, s: State, a: Attachment)
    requires Lowered(n, wire, selected, members) && a in n.edges && a !in selected
    ensures Handle(n, wire, s, a)
         == State(s.pending - multiset{a} + multiset{}, s.sent + multiset{}, s.admitted + multiset{}, s.delivered + multiset{})
  {
    StrayArrival(n, wire, selected, members, a);
    HandleIs(n, wire, s, a, {}, false, n.infos[a.host].IsMemberOf(wire));
    assert Hears(n, {}) == {};
  }

  lemma StrayStep(n: Network, wire: u8, selected: set<Attachment>, members: set<Name>, o: Name,
                  s: State, done: set<Attachment>, strays: set<Attachment>, a: Attachment)
    requires Lowered(n, wire, selected, members) && Invariant(n, selected, members, o, s, done, strays)
    requires a in n.edges && a in s.pending && a !in selected
    ensures Invariant(n, selected, members, o, Handle(n, wire, s, a), done, strays + {a})
  {
    var fired := Fired(selected, o, done);
    Waits(s, fired, Hears(n, fired), done, strays, members * HostsOf(done), a);
    StrayHandle(n, wire, selected, members, s, a);
    StrayTally(s, fired, Hears(n, fired), done, strays, members * HostsOf(done), a);
  }

  /** A selected arrival waiting is the host's first and only one, and its host's other Links are still silent. */
  lemma FirstArrival(n: Network, selected: set<Attachment>, members: set<Name>, o: Name,
                     s: State, done: set<Attachment>, strays: set<Attachment>, a: Attachment)
    requires Tree(selected, members) && Participates(selected, members, o)
    requires Invariant(n, selected, members, o, s, done, strays) && a in s.pending && a in selected
    ensures Downward(selected, o, a) && !Reached(o, done, a.host) && a !in done
    ensures forall b | b in At(selected, a.host) - {a} :: Upward(selected, o, b)
    ensures forall b, c | b in At(selected, a.host) - {a} && c in Fired(selected, o, done) :: b.link != c.link
  {
    var fired := Fired(selected, o, done);
    assert a in Hears(n, fired);
    var b :| b in fired && a.link == b.link && a.host != b.host;
    OneOrOther(selected, members, o, a);
    if Upward(selected, o, a) { OneSender(selected, o, a, b); }
    OriginHearsNothing(selected, o, a);
    if a.host in HostsOf(done) {
      var d :| d in done && d.host == a.host;
      OneSource(selected, o, a, d);
    }
    forall c | c in At(selected, a.host) - {a} ensures Upward(selected, o, c) {
      OneOrOther(selected, members, o, c);
      if Downward(selected, o, c) { OneSource(selected, o, a, c); }
    }
    forall c, d | c in At(selected, a.host) - {a} && d in fired ensures c.link != d.link {
      if c.link == d.link { OneSender(selected, o, c, d); }
    }
  }

  lemma FiredMore(selected: set<Attachment>, members: set<Name>, o: Name, done: set<Attachment>, a: Attachment)
    requires a in selected && !Reached(o, done, a.host) && Downward(selected, o, a)
    requires Tree(selected, members) && Participates(selected, members, o)
    requires forall b | b in At(selected, a.host) - {a} :: Upward(selected, o, b)
    ensures Fired(selected, o, done + {a}) == Fired(selected, o, done) + (At(selected, a.host) - {a})
    ensures Fired(selected, o, done) !! At(selected, a.host) - {a}
  {
    OneOrOther(selected, members, o, a);
    assert HostsOf(done + {a}) == HostsOf(done) + {a.host};
  }

  lemma HearsMore(n: Network, fired: set<Attachment>, out: set<Attachment>)
    requires forall b, c | b in out && c in fired :: b.link != c.link
    ensures Hears(n, fired + out) == Hears(n, fired) + Hears(n, out)
    ensures Hears(n, fired) !! Hears(n, out)
  {}

  lemma ReplaceOne(heard: set<Attachment>, done: set<Attachment>, strays: set<Attachment>, a: Attachment, more: set<Attachment>)
    requires done + strays <= heard && heard !! more && a in heard - (done + strays)
    ensures multiset(heard + more - ((done + {a}) + strays)) == multiset(heard - (done + strays)) - multiset{a} + multiset(more)
  {
    assert heard + more - ((done + {a}) + strays) == (heard - (done + strays) - {a}) + more;
  }

  lemma SelectedTally(s: State, fired: set<Attachment>, heard: set<Attachment>, done: set<Attachment>, strays: set<Attachment>,
                      delivered: set<Name>, a: Attachment, out: set<Attachment>, more: set<Attachment>, member: bool)
    requires Tally(s, fired, heard, done, strays, delivered) && a in s.pending && done + strays <= heard
    requires fired !! out && heard !! more && a !in done && a.host !in delivered
    ensures Tally(State(s.pending - multiset{a} + multiset(more), s.sent + multiset(out), s.admitted + multiset{a},
                        s.delivered + (if member then multiset{a.host} else multiset{})),
                  fired + out, heard + more, done + {a}, strays, delivered + (if member then {a.host} else {}))
  {
    assert a in heard - (done + strays);
    ReplaceOne(heard, done, strays, a, more);
  }

  lemma SelectedHandle(n: Network, wire: u8, selected: set<Attachment>, members: set<Name>, s: State, a: Attachment)
    requires Lowered(n, wire, selected, members) && a in selected
    ensures var out, member := At(selected, a.host) - {a}, a.host in members;
      Handle(n, wire, s, a)
      == State(s.pending - multiset{a} + multiset(Hears(n, out)), s.sent + multiset(out), s.admitted + multiset{a},
               s.delivered + (if member then multiset{a.host} else multiset{}))
  {
    SelectedArrival(n, wire, selected, members, a);
    assert HostLowered(n, wire, selected, members, a.host);
    HandleIs(n, wire, s, a, At(selected, a.host) - {a}, true, a.host in members);
  }

  /** The sets after a selected arrival. */
  lemma SelectedSets(n: Network, selected: set<Attachment>, members: set<Name>, o: Name,
                     s: State, done: set<Attachment>, strays: set<Attachment>, a: Attachment)
    requires Tree(selected, members) && Participates(selected, members, o) && selected <= n.edges
    requires Invariant(n, selected, members, o, s, done, strays) && a in s.pending && a in selected
    ensures var out := At(selected, a.host) - {a};
      && Fired(selected, o, done + {a}) == Fired(selected, o, done) + out && Fired(selected, o, done) !! out
      && Hears(n, Fired(selected, o, done + {a})) == Hears(n, Fired(selected, o, done)) + Hears(n, out)
      && Hears(n, Fired(selected, o, done)) !! Hears(n, out)
      && a !in done && a.host !in HostsOf(done) && Downward(selected, o, a) && a in Hears(n, Fired(selected, o, done))
  {
    FirstArrival(n, selected, members, o, s, done, strays, a);
    FiredMore(selected, members, o, done, a);
    HearsMore(n, Fired(selected, o, done), At(selected, a.host) - {a});
    Waits(s, Fired(selected, o, done), Hears(n, Fired(selected, o, done)), done, strays, members * HostsOf(done), a);
  }

  lemma DeliveredMore(members: set<Name>, done: set<Attachment>, a: Attachment)
    ensures members * HostsOf(done + {a}) == members * HostsOf(done) + (if a.host in members then {a.host} else {})
  {
    assert HostsOf(done + {a}) == HostsOf(done) + {a.host};
  }

  lemma SelectedStep(n: Network, wire: u8, selected: set<Attachment>, members: set<Name>, o: Name,
                     s: State, done: set<Attachment>, strays: set<Attachment>, a: Attachment)
    requires Lowered(n, wire, selected, members) && Tree(selected, members) && Participates(selected, members, o)
    requires Invariant(n, selected, members, o, s, done, strays) && a in s.pending && a in selected
    ensures Invariant(n, selected, members, o, Handle(n, wire, s, a), done + {a}, strays)
  {
    var fired, out, member := Fired(selected, o, done), At(selected, a.host) - {a}, a.host in members;
    SelectedSets(n, selected, members, o, s, done, strays, a);
    SelectedHandle(n, wire, selected, members, s, a);
    SelectedTally(s, fired, Hears(n, fired), done, strays, members * HostsOf(done), a, out, Hears(n, out), member);
    DeliveredMore(members, done, a);
  }

  lemma OneStep(n: Network, wire: u8, selected: set<Attachment>, members: set<Name>, o: Name,
                s: State, done: set<Attachment>, strays: set<Attachment>, a: Attachment)
    returns (done': set<Attachment>, strays': set<Attachment>)
    requires Lowered(n, wire, selected, members) && Tree(selected, members) && Participates(selected, members, o)
    requires Invariant(n, selected, members, o, s, done, strays) && a in n.edges && a in s.pending
    ensures Invariant(n, selected, members, o, Handle(n, wire, s, a), done', strays')
    ensures |done' + strays'| == |done + strays| + 1
  {
    var fired := Fired(selected, o, done);
    Waits(s, fired, Hears(n, fired), done, strays, members * HostsOf(done), a);
    OneLarger(done, strays, a);
    if a in selected {
      SelectedStep(n, wire, selected, members, o, s, done, strays, a);
      done', strays' := done + {a}, strays;
    } else {
      StrayStep(n, wire, selected, members, o, s, done, strays, a);
      done', strays' := done, strays + {a};
    }
  }

  lemma OneLarger(done: set<Attachment>, strays: set<Attachment>, a: Attachment)
    requires a !in done && a !in strays
    ensures |done + {a} + strays| == |done + strays| + 1 && |done + (strays + {a})| == |done + strays| + 1
  {
    assert done + {a} + strays == done + strays + {a};
    assert done + (strays + {a}) == done + strays + {a};
  }

  /** Every way of running: what was admitted and what was turned away account for all that was handled. */
  lemma {:induction false} RunInvariant(n: Network, wire: u8, selected: set<Attachment>, members: set<Name>, o: Name, order: seq<Attachment>)
    returns (done: set<Attachment>, strays: set<Attachment>)
    requires Lowered(n, wire, selected, members) && Tree(selected, members)
    requires Participates(selected, members, o) && o in n.tables && Possible(n, wire, o, order)
    ensures Invariant(n, selected, members, o, After(n, wire, o, order), done, strays)
    ensures |order| == |done + strays|
    decreases order
  {
    if order == [] {
      LaunchInvariant(n, wire, selected, members, o);
      done, strays := {}, {};
    } else {
      var before := order[..|order| - 1];
      done, strays := RunInvariant(n, wire, selected, members, o, before);
      done, strays := OneStep(n, wire, selected, members, o, After(n, wire, o, before), done, strays, order[|order| - 1]);
    }
  }

  // When nothing is waiting any more.

  /** The hosts the packet has come to, and the Links it has gone over. */
  ghost predicate Visited(selected: set<Attachment>, o: Name, done: set<Attachment>, n: Node) {
    match n
    case Host(h) => Reached(o, done, h)
    case Link(l) => l in LinksOf(Fired(selected, o, done))
  }

  /** Everything that was heard has been handled. */
  ghost predicate Settled(n: Network, selected: set<Attachment>, o: Name, done: set<Attachment>, strays: set<Attachment>) {
    Handled(n, selected, o, done, strays) && Hears(n, Fired(selected, o, done)) <= done + strays
  }

  lemma NeighbourVisited(n: Network, selected: set<Attachment>, members: set<Name>, o: Name,
                         done: set<Attachment>, strays: set<Attachment>, a: Attachment, u: Node, v: Node)
    requires Tree(selected, members) && Participates(selected, members, o) && selected <= n.edges
    requires Settled(n, selected, o, done, strays)
    requires a in selected && Joins(a, u, v) && Visited(selected, o, done, u)
    ensures Visited(selected, o, done, v)
  {
    var fired := Fired(selected, o, done);
    OneOrOther(selected, members, o, a);
    OriginHearsNothing(selected, o, a);
    if u.Host? {
      if Upward(selected, o, a) {
        assert a in fired;
      } else {
        var d :| d in done && d.host == a.host;
        OneSource(selected, o, a, d);
        assert a in Hears(n, fired);
      }
    } else {
      var b :| b in fired && b.link == a.link;
      if a.host != b.host {
        assert a in Hears(n, fired);
        assert a in done + strays;
      }
    }
  }

  lemma {:induction false} WalkVisited(n: Network, selected: set<Attachment>, members: set<Name>, o: Name,
                                       done: set<Attachment>, strays: set<Attachment>, p: seq<Node>)
    requires Tree(selected, members) && Participates(selected, members, o) && selected <= n.edges
    requires Settled(n, selected, o, done, strays)
    requires Walk(selected, p) && p[0] == Host(o)
    ensures Visited(selected, o, done, p[|p| - 1])
    decreases p
  {
    if |p| > 1 {
      var rest := p[..|p| - 1];
      Prefix(selected, p, |p| - 1);
      WalkVisited(n, selected, members, o, done, strays, rest);
      assert Adjacent(selected, p[|p| - 2], p[|p| - 1]);
      var a :| a in selected && Joins(a, p[|p| - 2], p[|p| - 1]);
      NeighbourVisited(n, selected, members, o, done, strays, a, p[|p| - 2], p[|p| - 1]);
    }
  }

  /** Then every host has been reached, and every attachment that is to send has sent. */
  lemma AllVisited(n: Network, selected: set<Attachment>, members: set<Name>, o: Name,
                   done: set<Attachment>, strays: set<Attachment>)
    requires Tree(selected, members) && Participates(selected, members, o) && selected <= n.edges
    requires Settled(n, selected, o, done, strays)
    ensures forall h | Participates(selected, members, h) :: Reached(o, done, h)
    ensures Fired(selected, o, done) == set a | a in selected && Upward(selected, o, a)
    ensures done == set a | a in selected && Downward(selected, o, a)
  {
    forall h | Participates(selected, members, h) ensures Reached(o, done, h) {
      assert OnWire(selected, members, Host(o)) && OnWire(selected, members, Host(h));
      var p :| Leads(selected, Host(o), p, Host(h));
      WalkVisited(n, selected, members, o, done, strays, p);
    }
    forall a | a in selected && Downward(selected, o, a) ensures a in done {
      OriginHearsNothing(selected, o, a);
      assert a.host in HostsOf(selected) && Reached(o, done, a.host);
      var d :| d in done && d.host == a.host;
      OneSource(selected, o, a, d);
    }
  }

  /** Exactly one attachment of the Link has sent, once; and none of any other Link. */
  ghost predicate CarriedOnce(sent: multiset<Attachment>, l: Name) {
    exists a | a in sent :: a.link == l && sent[a] == 1 && forall b | b in sent && b.link == l :: b == a
  }

  ghost predicate AdmittedOnce(admitted: multiset<Attachment>, h: Name) {
    exists a | a in admitted :: a.host == h && admitted[a] == 1 && forall b | b in admitted && b.host == h :: b == a
  }

  lemma NothingWaits(s: State, fired: set<Attachment>, heard: set<Attachment>, done: set<Attachment>,
                     strays: set<Attachment>, delivered: set<Name>)
    requires Tally(s, fired, heard, done, strays, delivered) && s.pending == multiset{}
    ensures heard <= done + strays
  {
    forall a | a in heard ensures a in done + strays { Waits(s, fired, heard, done, strays, delivered, a); }
  }

  ghost function Senders(selected: set<Attachment>, o: Name): set<Attachment> { set a | a in selected && Upward(selected, o, a) }

  ghost function Sources(selected: set<Attachment>, o: Name): set<Attachment> { set a | a in selected && Downward(selected, o, a) }

  /** What is left when nothing is waiting: one sender for each Link, one source for each host, each used once. */
  lemma Finished(n: Network, wire: u8, selected: set<Attachment>, members: set<Name>, o: Name, order: seq<Attachment>)
    requires Lowered(n, wire, selected, members) && Tree(selected, members)
    requires Participates(selected, members, o) && o in n.tables && Possible(n, wire, o, order)
    requires After(n, wire, o, order).pending == multiset{}
    ensures var s := After(n, wire, o, order);
      && s.sent == multiset(Senders(selected, o)) && s.admitted == multiset(Sources(selected, o))
      && s.delivered == multiset(members * HostsOf(Sources(selected, o)))
  {
    var s := After(n, wire, o, order);
    var done, strays := RunInvariant(n, wire, selected, members, o, order);
    var fired := Fired(selected, o, done);
    NothingWaits(s, fired, Hears(n, fired), done, strays, members * HostsOf(done));
    AllVisited(n, selected, members, o, done, strays);
  }

  lemma LinkCarries(selected: set<Attachment>, members: set<Name>, o: Name, l: Name)
    requires Tree(selected, members) && Participates(selected, members, o) && l in LinksOf(selected)
    ensures CarriedOnce(multiset(Senders(selected, o)), l)
  {
    var sent := multiset(Senders(selected, o));
    var a := SomeSender(selected, members, o, l);
    forall b | b in sent && b.link == l ensures b == a { OneSender(selected, o, a, b); }
    assert a in sent && sent[a] == 1;
  }

  lemma HostAdmits(selected: set<Attachment>, members: set<Name>, o: Name, h: Name)
    requires Tree(selected, members) && Participates(selected, members, o)
    requires Participates(selected, members, h) && h != o
    ensures AdmittedOnce(multiset(Sources(selected, o)), h) && h in HostsOf(Sources(selected, o))
  {
    var admitted := multiset(Sources(selected, o));
    var a := SomeSource(selected, members, o, h);
    forall b | b in admitted && b.host == h ensures b == a { OneSource(selected, o, a, b); }
    assert a in admitted && admitted[a] == 1;
  }

  lemma OthersHear(selected: set<Attachment>, members: set<Name>, o: Name)
    requires Tree(selected, members) && Participates(selected, members, o)
    ensures members * HostsOf(Sources(selected, o)) == members - {o}
    ensures forall a | a in Sources(selected, o) :: a.host != o
  {
    forall h | h in members - {o} ensures h in HostsOf(Sources(selected, o)) { HostAdmits(selected, members, o, h); }
    forall a | a in Sources(selected, o) ensures a.host != o { OriginHearsNothing(selected, o, a); }
  }

  /**
   * However the arrivals are ordered, when none is left each Link of the Wire has carried the packet
   * exactly once and no other Link has; every participant but the origin has admitted exactly one copy
   * and the origin none; the members among them, and nobody else, have dispatched it, once.
   */
  lemma ExactlyOnce(n: Network, wire: u8, selected: set<Attachment>, members: set<Name>, o: Name, order: seq<Attachment>)
    requires Lowered(n, wire, selected, members) && Tree(selected, members)
    requires Participates(selected, members, o) && o in n.tables && Possible(n, wire, o, order)
    requires After(n, wire, o, order).pending == multiset{}
    ensures var s := After(n, wire, o, order);
      && (forall l | l in LinksOf(selected) :: CarriedOnce(s.sent, l))
      && (forall a | a in s.sent :: a in selected)
      && (forall h | Participates(selected, members, h) && h != o :: AdmittedOnce(s.admitted, h))
      && (forall a | a in s.admitted :: a in selected && a.host != o)
      && s.delivered == multiset(members - {o})
  {
    Finished(n, wire, selected, members, o, order);
    forall l | l in LinksOf(selected) ensures CarriedOnce(multiset(Senders(selected, o)), l) {
      LinkCarries(selected, members, o, l);
    }
    forall h | Participates(selected, members, h) && h != o ensures AdmittedOnce(multiset(Sources(selected, o)), h) {
      HostAdmits(selected, members, o, h);
    }
    OthersHear(selected, members, o);
  }

  /** At every moment no Link has carried the packet twice and no member has dispatched it twice; and it stops. */
  lemma NeverTwiceAndHalts(n: Network, wire: u8, selected: set<Attachment>, members: set<Name>, o: Name, order: seq<Attachment>)
    requires Lowered(n, wire, selected, members) && Tree(selected, members)
    requires Participates(selected, members, o) && o in n.tables && Possible(n, wire, o, order)
    ensures var s := After(n, wire, o, order);
      && (forall a, b | a in s.sent && b in s.sent && a.link == b.link :: a == b && s.sent[a] == 1)
      && (forall h | h in s.delivered :: h in members && h != o && s.delivered[h] == 1)
      && |order| <= |n.edges|
  {
    var done, strays := RunInvariant(n, wire, selected, members, o, order);
    SentOnce(selected, o, done);
    forall d | d in done ensures d.host != o { OriginHearsNothing(selected, o, d); }
    SubsetSize(done + strays, n.edges);
  }

  lemma SentOnce(selected: set<Attachment>, o: Name, done: set<Attachment>)
    requires Acyclic(selected)
    ensures var sent := multiset(Fired(selected, o, done));
      forall a, b | a in sent && b in sent && a.link == b.link :: a == b && sent[a] == 1
  {
    var sent := multiset(Fired(selected, o, done));
    forall a, b | a in sent && b in sent && a.link == b.link ensures a == b { OneSender(selected, o, a, b); }
  }
}
