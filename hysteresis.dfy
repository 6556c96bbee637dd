/** The relay decision of the cooler controller: an on/off rule with a dead
    band of half-width `precision` around the `desired` temperature. The
    relay is the cooler's compressor: ON cools. */
module Hysteresis {

  /** What one evaluation does to the relay. */
  datatype Switch = TurnOn | TurnOff | Keep

  /** Guard of the ON branch: the relay is OFF (or this is the first
      evaluation) and the average is strictly above the band. */
  predicate OnGuard(avg: real, relayOn: bool, starting: bool, desired: real, precision: real)
  {
    (starting || !relayOn) && avg > desired + precision
  }

  /** Guard of the OFF branch: the relay is ON (or this is the first
      evaluation) and the average is strictly below the band. */
  predicate OffGuard(avg: real, relayOn: bool, starting: bool, desired: real, precision: real)
  {
    (starting || relayOn) && avg < desired - precision
  }

  /** The hysteresis rule; the ON branch is tried first. A switch happens
      only outside the band, and never inside [desired - precision,
      desired + precision], whatever the relay state. */
  function Decide(avg: real, relayOn: bool, starting: bool, desired: real, precision: real): (r: Switch)
    ensures r == TurnOn ==> avg > desired + precision && (starting || !relayOn)
    ensures r == TurnOff ==> avg < desired - precision && (starting || relayOn)
    ensures desired - precision <= avg <= desired + precision ==> r == Keep
  {
    if OnGuard(avg, relayOn, starting, desired, precision) then TurnOn
    else if OffGuard(avg, relayOn, starting, desired, precision) then TurnOff
    else Keep
  }

  /** The relay state after a decision. */
  function RelayAfter(r: Switch, relayOn: bool): bool
  {
    match r
    case TurnOn => true
    case TurnOff => false
    case Keep => relayOn
  }

  /** With a positive half-width the two guards never hold together, so
      the order in which they are tried does not matter. */
  lemma GuardsExclusive(avg: real, relayOn: bool, starting: bool, desired: real, precision: real)
    requires precision > 0.0
    ensures !(OnGuard(avg, relayOn, starting, desired, precision) &&
              OffGuard(avg, relayOn, starting, desired, precision))
  {
  }

  /** Outside the band the relay ends in the state that brings the
      temperature back: ON above the band, OFF below it. */
  lemma SettlesOutsideBand(avg: real, relayOn: bool, starting: bool, desired: real, precision: real)
    requires precision > 0.0
    ensures avg > desired + precision ==>
      RelayAfter(Decide(avg, relayOn, starting, desired, precision), relayOn)
    ensures avg < desired - precision ==>
      !RelayAfter(Decide(avg, relayOn, starting, desired, precision), relayOn)
  {
  }

  /** After the first evaluation a switch always changes the relay: an
      ON relay is never switched ON again and an OFF relay never OFF again. */
  lemma SwitchChangesRelay(avg: real, relayOn: bool, desired: real, precision: real)
    ensures Decide(avg, relayOn, false, desired, precision) != Keep ==>
      RelayAfter(Decide(avg, relayOn, false, desired, precision), relayOn) != relayOn
  {
  }

  /** On the first evaluation the relay is set from the average alone,
      whatever its previous state: ON above the band, OFF below it (the OFF
      branch fires even when the relay is already OFF). */
  lemma ColdStartOverride(avg: real, relayOn: bool, desired: real, precision: real)
    requires precision > 0.0
    ensures avg > desired + precision ==> Decide(avg, relayOn, true, desired, precision) == TurnOn
    ensures avg < desired - precision ==> Decide(avg, relayOn, true, desired, precision) == TurnOff
  {
  }
}
