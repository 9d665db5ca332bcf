/** The collection ledger: fruit kind to number collected (a Map<String, Integer> in the source). */
module Ledgers {

  type Ledger = map<string, int>

  /**
   * Records one collected fruit of `kind` (src/FruitTree.java:162-166): the count goes up by one,
   * an absent kind is inserted with count 1, and no other entry changes.
   */
  function Collect(m: Ledger, kind: string): (r: Ledger)
    ensures r.Keys == m.Keys + {kind}
    ensures r[kind] == (if kind in m then m[kind] else 0) + 1
    ensures forall k :: k in m && k != kind ==> r[k] == m[k]
  {
    if kind in m then m[kind := m[kind] + 1] else m[kind := 1]
  }
}
