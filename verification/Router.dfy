/** What one host does with a packet of a Wire: which interfaces it sends it on by, and whom it offers it to. */
module Router {
  import opened Integers
  import opened Protocol
  import opened Forwarding
  import B = Bitmap16

  const BROADCAST: u8 := 0xFF
  const MEMBERSHIPS: nat := 6

  datatype RouteEntry = RouteEntry(wire: u8, interfaces: u8)

  datatype HostInfo = HostInfo(id: u8, wires: seq<u8>)
  {
    predicate IsMemberOf(wire: u8) { wire in wires[..Min(|wires|, MEMBERSHIPS)] }
  }

  datatype Packet = Packet(supported: bool, wire: u8, destination: u8, endpoint: u8)

  /** Either a result at once, or a fan-out over interface bits whose result is the forwarder's. */
  datatype Decision<+T> = Stop(result: RouteResult) | FanOut(egress: T)

  /** The row of a Wire: the first one there is. */
  function Lookup(entries: seq<RouteEntry>, wire: u8): Option<u8> {
    if entries == [] then None
    else if entries[0].wire == wire then Some(entries[0].interfaces)
    else Lookup(entries[1..], wire)
  }

  /** The decision in terms of interface bits: ingress 0 is the host itself, ingress i the interface with bit i - 1. */
  ghost function Route(entries: seq<RouteEntry>, wire: u8, ingress: nat): Decision<set<nat>> {
    match Lookup(entries, wire)
    case None => Stop(if ingress > 8 then RouteInvalidIngress else RouteNone)
    case Some(mask) =>
      var bits := B.Bits(mask);
      if ingress > 8 || (ingress > 0 && ingress - 1 !in bits) then Stop(RouteInvalidIngress)
      else if ingress == 0 then FanOut(bits)
      else if bits == {ingress - 1} then Stop(RouteNoEgress)
      else FanOut(bits - {ingress - 1})
  }

  lemma LookupFrom(entries: seq<RouteEntry>, wire: u8, i: nat)
    requires i < |entries|
    ensures Lookup(entries[i..], wire)
         == if entries[i].wire == wire then Some(entries[i].interfaces) else Lookup(entries[i + 1..], wire)
  {
    assert entries[i..][1..] == entries[i + 1..];
  }

  /** Row i is the one that counts for a Wire. */
  predicate RowOf(entries: seq<RouteEntry>, wire: u8, i: nat) {
    i < |entries| && entries[i].wire == wire && forall j | 0 <= j < i :: entries[j].wire != wire
  }

  lemma {:induction false} LookupIs(entries: seq<RouteEntry>, wire: u8)
    ensures Lookup(entries, wire).None? <==> forall j | 0 <= j < |entries| :: entries[j].wire != wire
    ensures forall i: nat | RowOf(entries, wire, i) :: Lookup(entries, wire) == Some(entries[i].interfaces)
    decreases entries
  {
    if entries != [] && entries[0].wire != wire {
      LookupIs(entries[1..], wire);
      forall i: nat | RowOf(entries, wire, i) ensures Lookup(entries, wire) == Some(entries[i].interfaces) {
        assert RowOf(entries[1..], wire, i - 1);
      }
      assert forall j | 0 < j < |entries| :: entries[j] == entries[1..][j - 1];
    }
  }

  /** A Wire without a row goes nowhere: that is said of any ingress there can be. */
  lemma UnknownWire(entries: seq<RouteEntry>, wire: u8, ingress: nat)
    requires forall j | 0 <= j < |entries| :: entries[j].wire != wire
    ensures Route(entries, wire, ingress) == Stop(if ingress <= 8 then RouteNone else RouteInvalidIngress)
  {
    LookupIs(entries, wire);
  }

  /**
   * What a Wire's row says: a packet of the host's own goes out by every interface in it, one that came in by
   * one of them by all the others, and one that came in by any other interface is not let in.
   */
  lemma RouteIs(entries: seq<RouteEntry>, wire: u8, ingress: nat, i: nat)
    requires RowOf(entries, wire, i)
    ensures var d, bits := Route(entries, wire, ingress), B.Bits(entries[i].interfaces);
      && (d == Stop(RouteInvalidIngress) <==> ingress > 8 || (ingress > 0 && ingress - 1 !in bits))
      && (d == Stop(RouteNoEgress) <==> 0 < ingress <= 8 && forall b: nat :: b in bits <==> b == ingress - 1)
      && (d.Stop? ==> d.result == RouteInvalidIngress || d.result == RouteNoEgress)
      && (d.FanOut? ==> forall b: nat :: b in d.egress <==> b in bits && b != ingress - 1)
  {
    LookupIs(entries, wire);
  }

  ghost predicate SameDecision(d: Decision<u16>, e: Decision<set<nat>>) {
    if d.Stop? then e == Stop(d.result) else e == FanOut(B.Bits(d.egress))
  }

  /** The table scan, on masks. */
  method Forward(entries: seq<RouteEntry>, wire: u8, ingress: nat) returns (d: Decision<u16>)
    ensures SameDecision(d, Route(entries, wire, ingress))
  {
    if ingress > 8 {
      return Stop(RouteInvalidIngress);
    }
    for i := 0 to |entries|
      invariant Lookup(entries, wire) == Lookup(entries[i..], wire)
    {
      LookupFrom(entries, wire, i);
      if entries[i].wire == wire {
        d := Select(entries[i].interfaces, ingress);
        return;
      }
    }
    d := Stop(RouteNone);
  }

  method Select(interfaces: u8, ingress: nat) returns (d: Decision<u16>)
    requires ingress <= 8
    ensures forall entries, wire | Lookup(entries, wire) == Some(interfaces) :: SameDecision(d, Route(entries, wire, ingress))
  {
    if ingress == 0 {
      return FanOut(interfaces);
    }
    var ingressMask := B.Single16(ingress - 1);
    var admitted := B.And16(interfaces, ingressMask);
    var unadmitted := B.IsZero16(admitted);
    assert ingress - 1 in B.Bits(admitted) <==> ingress - 1 in B.Bits(interfaces);
    if unadmitted {
      return Stop(RouteInvalidIngress);
    }
    var others := B.Complement16(ingressMask);
    var egress := B.And16(interfaces, others);
    assert B.Bits(egress) == B.Bits(interfaces) - {ingress - 1};
    var nowhere := B.IsZero16(egress);
    d := if nowhere then Stop(RouteNoEgress) else FanOut(egress);
  }

  /** The bits of a list that are selected, in the list's order. */
  function Chosen(bits: seq<nat>, selected: set<nat>): (c: seq<nat>)
    ensures forall b | b in c :: b in bits && b in selected
  {
    if bits == [] then []
    else Chosen(bits[..|bits| - 1], selected) + (if bits[|bits| - 1] in selected then [bits[|bits| - 1]] else [])
  }

  function Asked(offered: seq<nat>, answers: map<nat, LinkAdmission>): (a: seq<LinkAdmission>)
    requires forall b | b in offered :: b in answers
    ensures |a| == |offered|
  {
    if offered == [] then [] else Asked(offered[..|offered| - 1], answers) + [answers[offered[|offered| - 1]]]
  }

  lemma AskedMore(offered: seq<nat>, b: nat, answers: map<nat, LinkAdmission>)
    requires b in answers && forall c | c in offered :: c in answers
    ensures Fold(Asked(offered + [b], answers)) == CombineAdmission(Fold(Asked(offered, answers)), answers[b])
  {
    assert (offered + [b])[..|offered + [b]| - 1] == offered;
    var asked := Asked(offered, answers) + [answers[b]];
    assert asked[..|asked| - 1] == Asked(offered, answers);
  }

  lemma {:induction false} ChosenIsExact(bits: seq<nat>, selected: set<nat>)
    requires forall j, k | 0 <= j < k < |bits| :: bits[j] != bits[k]
    ensures forall b | b in bits && b in selected :: b in Chosen(bits, selected)
    ensures forall j, k | 0 <= j < k < |Chosen(bits, selected)| :: Chosen(bits, selected)[j] != Chosen(bits, selected)[k]
    decreases bits
  {
    if bits != [] {
      var rest, last := bits[..|bits| - 1], bits[|bits| - 1];
      ChosenIsExact(rest, selected);
      assert last !in rest;
      var before := Chosen(rest, selected);
      assert forall k | 0 <= k < |before| :: before[k] in before;
    }
  }

  /**
   * The generated fan-out: each interface whose bit is selected, and no other, is offered the packet once,
   * in order; the result says what their answers come to.
   */
  method FanOutTo(bits: seq<nat>, selected: u16, answers: map<nat, LinkAdmission>)
    returns (result: RouteResult, offered: seq<nat>)
    requires forall b | b in bits :: b in answers && b < 16
    requires forall j, k | 0 <= j < k < |bits| :: bits[j] != bits[k]
    ensures offered == Chosen(bits, B.Bits(selected))
    ensures if offered == [] then result == RouteAccepted else Verdict(Asked(offered, answers), result)
  {
    result, offered := RouteNoEgress, [];
    for i := 0 to |bits|
      invariant offered == Chosen(bits[..i], B.Bits(selected)) && result == Fold(Asked(offered, answers))
    {
      assert bits[..i + 1][..i] == bits[..i] && bits[i] in bits;
      var on := HasBit(selected, bits[i]);
      if on {
        AskedMore(offered, bits[i], answers);
        offered := offered + [bits[i]];
        result := CombineAdmission(result, answers[bits[i]]);
      }
    }
    assert bits[..|bits|] == bits;
    if offered != [] { FoldIsVerdict(Asked(offered, answers)); }
    result := if result == RouteNoEgress then RouteAccepted else result;
  }

  method HasBit(mask: u16, bit: nat) returns (on: bool)
    requires bit < 16
    ensures on <==> bit in B.Bits(mask)
  {
    var single := B.Single16(bit);
    var both := B.And16(mask, single);
    var off := B.IsZero16(both);
    assert bit in B.Bits(both) <==> bit in B.Bits(mask);
    on := !off;
  }

  // Delivery.

  datatype DispatchEntry = DispatchEntry(endpoint: u8, present: bool)

  datatype DispatchResult = DispatchAccepted | DispatchFull | DispatchRejected | NoEndpoint

  function ToDispatchResult(r: ReceiveResult): DispatchResult {
    match r
    case ReceiveAccepted => DispatchAccepted
    case ReceiveFull => DispatchFull
    case ReceiveRejected => DispatchRejected
  }

  function Priority(r: DispatchResult): nat {
    match r
    case DispatchAccepted => 3
    case DispatchFull => 2
    case DispatchRejected => 1
    case NoEndpoint => 0
  }

  predicate Addressed(host: HostInfo, p: Packet) {
    if p.destination == BROADCAST then host.IsMemberOf(p.wire) else host.id == p.destination
  }

  predicate Matches(entries: seq<DispatchEntry>, p: Packet, k: nat) {
    k < |entries| && entries[k].endpoint == p.endpoint && entries[k].present
  }

  /** The receivers a packet is offered to: distinct, in table order, all of the endpoint. */
  ghost predicate Offers(entries: seq<DispatchEntry>, p: Packet, offered: seq<nat>, n: nat) {
    && (forall j, k | 0 <= j < k < |offered| :: offered[j] < offered[k])
    && (forall j | 0 <= j < |offered| :: offered[j] < n && Matches(entries, p, offered[j]))
  }

  /**
   * The receivers a host owes a packet: none unless it is addressed to the host; then every one of its
   * endpoint when it is broadcast, and the first one otherwise.
   */
  ghost function Listeners(entries: seq<DispatchEntry>, p: Packet, host: HostInfo): set<nat> {
    set k | k in UpTo(|entries|) && p.supported && Addressed(host, p) && Matches(entries, p, k)
            && (p.destination == BROADCAST || forall j: nat | j < k :: !Matches(entries, p, j))
  }

  lemma FirstOnly(entries: seq<DispatchEntry>, p: Packet, host: HostInfo, i: nat, j: nat)
    requires p.destination != BROADCAST && i in Listeners(entries, p, host) && j in Listeners(entries, p, host)
    ensures i == j
  {}

  /** The result is the best of the answers, or that there was nobody to ask. */
  ghost predicate Best(answers: seq<ReceiveResult>, offered: seq<nat>, result: DispatchResult)
    requires forall j | 0 <= j < |offered| :: offered[j] < |answers|
  {
    && (offered == [] ==> result == NoEndpoint)
    && (offered != [] ==> exists j | 0 <= j < |offered| :: result == ToDispatchResult(answers[offered[j]]))
    && (forall j | 0 <= j < |offered| :: Priority(ToDispatchResult(answers[offered[j]])) <= Priority(result))
  }

  /** What the result of offering a packet means. */
  ghost predicate Says(answers: seq<ReceiveResult>, offered: seq<nat>, result: DispatchResult)
    requires forall j | 0 <= j < |offered| :: offered[j] < |answers|
  {
    && (result == DispatchAccepted <==> Answered(answers, offered, ReceiveAccepted))
    && (result == DispatchFull <==> !Answered(answers, offered, ReceiveAccepted) && Answered(answers, offered, ReceiveFull))
    && (result == NoEndpoint <==> offered == [])
  }

  /** Some receiver it was offered to gave this answer. */
  ghost predicate Answered(answers: seq<ReceiveResult>, offered: seq<nat>, answer: ReceiveResult)
    requires forall j | 0 <= j < |offered| :: offered[j] < |answers|
  {
    exists j | 0 <= j < |offered| :: answers[offered[j]] == answer
  }

  lemma BestSays(answers: seq<ReceiveResult>, offered: seq<nat>, result: DispatchResult)
    requires (forall j | 0 <= j < |offered| :: offered[j] < |answers|) && Best(answers, offered, result)
    ensures Says(answers, offered, result)
  {}

  /** A packet is offered once to each receiver the host owes it, in table order, and to no other. */
  method Dispatch(entries: seq<DispatchEntry>, p: Packet, host: HostInfo, answers: seq<ReceiveResult>)
    returns (result: DispatchResult, offered: seq<nat>)
    requires |answers| == |entries|
    ensures Offers(entries, p, offered, |entries|)
    ensures !p.supported ==> result == DispatchRejected
    ensures p.supported ==> Best(answers, offered, result) && Says(answers, offered, result)
    ensures forall k: nat :: k in offered <==> k in Listeners(entries, p, host)
  {
    offered := [];
    if !p.supported {
      return DispatchRejected, [];
    }
    result := NoEndpoint;
    if !Addressed(host, p) {
      return;
    }
    if p.destination == BROADCAST {
      result, offered := OfferAll(entries, p, answers);
    } else {
      result, offered := OfferFirst(entries, p, answers);
    }
    BestSays(answers, offered, result);
  }

  lemma OneMoreOffer(entries: seq<DispatchEntry>, p: Packet, offered: seq<nat>, i: nat)
    requires Offers(entries, p, offered, i) && Matches(entries, p, i)
    ensures Offers(entries, p, offered + [i], i + 1)
    ensures forall k :: k in offered + [i] <==> k in offered || k == i
  {}

  lemma BestOfMore(answers: seq<ReceiveResult>, offered: seq<nat>, result: DispatchResult, i: nat)
    requires i < |answers| && (forall j | 0 <= j < |offered| :: offered[j] < |answers|) && Best(answers, offered, result)
    ensures var answer := ToDispatchResult(answers[i]);
      Best(answers, offered + [i], if Priority(answer) > Priority(result) then answer else result)
  {
    var more, answer := offered + [i], ToDispatchResult(answers[i]);
    assert more[|offered|] == i;
    if Priority(answer) <= Priority(result) && offered != [] {
      var j :| 0 <= j < |offered| && result == ToDispatchResult(answers[offered[j]]);
      assert more[j] == offered[j];
    }
  }

  method OfferAll(entries: seq<DispatchEntry>, p: Packet, answers: seq<ReceiveResult>)
    returns (result: DispatchResult, offered: seq<nat>)
    requires |answers| == |entries|
    ensures Offers(entries, p, offered, |entries|) && Best(answers, offered, result)
    ensures forall k: nat | Matches(entries, p, k) :: k in offered
  {
    result, offered := NoEndpoint, [];
    for i := 0 to |entries|
      invariant Offers(entries, p, offered, i) && Best(answers, offered, result)
      invariant forall k: nat | k < i && Matches(entries, p, k) :: k in offered
    {
      if entries[i].endpoint != p.endpoint || !entries[i].present {
        continue;
      }
      OneMoreOffer(entries, p, offered, i);
      BestOfMore(answers, offered, result, i);
      offered := offered + [i];
      var answer := ToDispatchResult(answers[i]);
      if Priority(answer) > Priority(result) {
        result := answer;
      }
    }
  }

  method OfferFirst(entries: seq<DispatchEntry>, p: Packet, answers: seq<ReceiveResult>)
    returns (result: DispatchResult, offered: seq<nat>)
    requires |answers| == |entries|
    ensures Offers(entries, p, offered, |entries|) && Best(answers, offered, result)
    ensures forall k: nat | Matches(entries, p, k) :: |offered| == 1 && offered[0] <= k
  {
    for i := 0 to |entries|
      invariant forall k: nat | k < i :: !Matches(entries, p, k)
    {
      if entries[i].endpoint == p.endpoint && entries[i].present {
        offered := [i];
        assert offered[0] == i;
        return ToDispatchResult(answers[i]), offered;
      }
    }
    result, offered := NoEndpoint, [];
  }

  /** Whether a host that received the packet by an interface handles it at all: the routing let it in. */
  ghost predicate Admits(entries: seq<RouteEntry>, wire: u8, ingress: nat) {
    var d := Route(entries, wire, ingress);
    d.FanOut? || d.result == RouteNoEgress
  }

  /** Ingress: routing first; delivery only for an admitted packet at a member. */
  method Receive(entries: seq<RouteEntry>, p: Packet, ingress: u8, host: HostInfo, answer: RouteResult)
    returns (d: Decision<u16>, routing: RouteResult, dispatch: bool)
    ensures ingress > 0 ==> SameDecision(d, Route(entries, p.wire, ingress))
    ensures routing == if d.Stop? then d.result else answer
    ensures dispatch ==> ingress > 0 && Admits(entries, p.wire, ingress) && host.IsMemberOf(p.wire)
    ensures Verdictable(answer) && ingress > 0 && Admits(entries, p.wire, ingress) && host.IsMemberOf(p.wire) ==> dispatch
    ensures ingress == 0 ==> d == Stop(RouteInvalidIngress)
    ensures dispatch ==> routing != RouteNone && routing != RouteInvalidIngress
  {
    if ingress == 0 {
      return Stop(RouteInvalidIngress), RouteInvalidIngress, false;
    }
    d := Forward(entries, p.wire, ingress);
    routing := if d.Stop? then d.result else answer;
    dispatch := !(routing == RouteNone || routing == RouteInvalidIngress) && host.IsMemberOf(p.wire);
  }

  /** What a forwarder reports: the fold of its Links' answers, or acceptance of an empty fan-out. */
  predicate Verdictable(r: RouteResult) { r != RouteNone && r != RouteNoEgress && r != RouteInvalidIngress }
}
