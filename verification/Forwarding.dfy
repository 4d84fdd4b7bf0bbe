/** What offering a packet to Links comes to: one answer for each Link, folded into one for the packet. */
module Forwarding {
  datatype LinkAdmission = LinkAccepted | LinkFull | LinkTooLarge | LinkRejected

  datatype RouteResult =
    | RouteAccepted | RoutePartial | RouteFull | RouteTooLarge | RouteRejected
    | RouteNone | RouteNoEgress | RouteInvalidIngress

  function Alone(a: LinkAdmission): RouteResult {
    match a
    case LinkAccepted => RouteAccepted
    case LinkFull => RouteFull
    case LinkTooLarge => RouteTooLarge
    case LinkRejected => RouteRejected
  }

  function CombineAdmission(current: RouteResult, admission: LinkAdmission): RouteResult {
    var next := Alone(admission);
    if current == RouteNoEgress || current == next then next
    else if current == RoutePartial || current == RouteAccepted || next == RouteAccepted then RoutePartial
    else if current == RouteRejected || next == RouteRejected then RouteRejected
    else RouteTooLarge
  }

  /** The fold over the Links of a fan-out, in order. */
  function Fold(answers: seq<LinkAdmission>): RouteResult {
    if answers == [] then RouteNoEgress else CombineAdmission(Fold(answers[..|answers| - 1]), answers[|answers| - 1])
  }

  /** A packet all, some or none of whose Links accepted it, and the worst reason when none did. */
  ghost predicate Verdict(answers: seq<LinkAdmission>, r: RouteResult) {
    match r
    case RouteAccepted => forall a | a in answers :: a == LinkAccepted
    case RoutePartial => LinkAccepted in answers && exists a | a in answers :: a != LinkAccepted
    case RouteRejected => LinkAccepted !in answers && LinkRejected in answers
    case RouteTooLarge => LinkAccepted !in answers && LinkRejected !in answers && LinkTooLarge in answers
    case RouteFull => forall a | a in answers :: a == LinkFull
    case _ => false
  }

  /** The fold does not depend on the order of the Links, only on which answers there were. */
  lemma {:induction false} FoldIsVerdict(answers: seq<LinkAdmission>)
    requires answers != []
    ensures Verdict(answers, Fold(answers))
    decreases answers
  {
    var rest, last := answers[..|answers| - 1], answers[|answers| - 1];
    assert forall a :: a in answers <==> a in rest || a == last by { assert answers == rest + [last]; }
    if rest == [] {
      assert Fold(answers) == Alone(last);
    } else {
      FoldIsVerdict(rest);
      assert rest[0] in rest;
      VerdictMore(rest, Fold(rest), last, answers);
    }
  }

  lemma VerdictMore(rest: seq<LinkAdmission>, r: RouteResult, last: LinkAdmission, answers: seq<LinkAdmission>)
    requires rest != [] && rest[0] in rest && Verdict(rest, r)
    requires forall a :: a in answers <==> a in rest || a == last
    ensures Verdict(answers, CombineAdmission(r, last))
  {
    assert last in answers && rest[0] in answers;
  }
}
