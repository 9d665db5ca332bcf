/**
 * Ponds (src/Pond.java): a stateless hazard. Every pond behaves alike, so the model has a single
 * pond value (the `Pond` case of `OrchardObjects.Cell`); these are its behaviours.
 */
module Ponds {
  import opened Wrappers
  import opened Ledgers

  /** meetPlayer(collected): a pond always kills, and takes no ledger argument into account. */
  function MeetPlayer(collected: Option<Ledger>): (killed: bool)
    ensures killed
  {
    true
  }

  /** hashCode(): all ponds are equal, so they share one hash. */
  function HashCode(): (h: int)
    ensures h == 0
  {
    0
  }

  /** toString(). */
  function ToString(): (s: string)
    ensures s == "Pond"
  {
    "Pond"
  }
}
