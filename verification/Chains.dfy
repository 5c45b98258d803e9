/** Chains of cartridges: what links one cartridge to the next
    (docs/FORMAT.md, sections 3.1 and 5.1). */
module Chains {
  import opened Domain
  import opened TapeMachine
  import opened TapeFormat
  import opened Layout
  import opened TapeNames

  // A cartridge of a chain and the label it carries.
  datatype Leg = Leg(tapeLabel: TapeLabel, cart: Cart)

  function SessionsOf(chain: seq<Leg>): seq<Recorded> {
    if chain == [] then [] else SessionsOf(chain[..|chain| - 1]) + chain[|chain| - 1].cart.sessions
  }

  lemma SessionsSnoc(chain: seq<Leg>, leg: Leg)
    ensures SessionsOf(chain + [leg]) == SessionsOf(chain) + leg.cart.sessions
  {
    assert (chain + [leg])[..|chain|] == chain;
  }

  ghost predicate HasLabel(c: Codec, leg: Leg) {
    DecodeLabel(c, leg.cart.heading) == Label(leg.tapeLabel)
  }

  /** The pointer behind the sessions, if there is one. */
  function PointerRead(c: Codec, cart: Cart): IndexResult {
    ReadIndex(c, Concat(cart.tail.pointer))
  }

  ghost predicate PointsTo(c: Codec, cart: Cart, name: string) {
    PointerRead(c, cart).Continues? && PointerRead(c, cart).pointer.nextTapeName == name
  }

  /** The cartridge the first session says it continues. */
  ghost predicate FirstContinues(c: Codec, cart: Cart, uuid: string) {
    cart.sessions != [] ==>
      var r := ReadIndex(c, Concat(cart.sessions[0].index));
      r.Index? && r.idx.continues == uuid
  }

  // Closed by a pointer to the name that follows its own.
  ghost predicate ClosedLeg(c: Codec, job: string, leg: Leg) {
    HasLabel(c, leg) && PointsTo(c, leg.cart, NextTapeName(job, leg.tapeLabel.name))
  }

  // The cartridges closed by a run, in order; each one after the first holds at most one
  // session, which points back.
  ghost predicate ClosedLegs(c: Codec, job: string, legs: seq<Leg>) {
    && (forall j :: 0 <= j < |legs| ==> ClosedLeg(c, job, legs[j]))
    && (forall j :: 0 < j < |legs| ==> PointsBack(c, legs, j))
  }

  ghost predicate PointsBack(c: Codec, legs: seq<Leg>, j: nat)
    requires 0 < j < |legs|
  {
    |legs[j].cart.sessions| <= 1 && FirstContinues(c, legs[j].cart, legs[j - 1].tapeLabel.uuid)
  }

  lemma ClosedLegsSnoc(c: Codec, job: string, legs: seq<Leg>, leg: Leg)
    requires ClosedLegs(c, job, legs) && ClosedLeg(c, job, leg)
    requires legs != [] ==> |leg.cart.sessions| <= 1 && FirstContinues(c, leg.cart, legs[|legs| - 1].tapeLabel.uuid)
    ensures ClosedLegs(c, job, legs + [leg])
  {
    hide ClosedLeg, FirstContinues;
    var all := legs + [leg];
    forall j | 0 < j < |all|
      ensures PointsBack(c, all, j)
    {
      if j < |legs| {
        assert PointsBack(c, legs, j);
      }
    }
  }
}
