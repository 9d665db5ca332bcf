/**
 * Fruit trees (src/FruitTree.java): the orchard occupant with a lifecycle. A tree becomes
 * mature, its fruit turns bad one generation later unless collected, and meeting the player
 * either collects the fruit, kills the player, or does nothing.
 *
 * `TreeState` is the value a tree object holds at one moment; the pure functions on it are the
 * specification that the methods of class `FruitTree` are proved against.
 */
module FruitTrees {
  import opened Wrappers
  import opened Ledgers

  /** A java.awt.Color, compared by its packed ARGB value and otherwise opaque. */
  datatype Color = Color(argb: int)

  datatype TreeState = TreeState(kind: string, color: Color, mature: bool, badFruit: bool) {
    /** The lifecycle invariant: only a mature tree carries the bad-fruit flag. */
    predicate Valid() { badFruit ==> mature }

    /** isBadFruit(): mature and bearing bad fruit (src/FruitTree.java:65-67). */
    predicate IsBadFruit() { mature && badFruit }
  }

  /** What meeting the player produces: whether it kills, the ledger afterwards, the occupant afterwards. */
  datatype Encounter<S> = Encounter(killed: bool, ledger: Option<Ledger>, after: S)

  const NULL_LEDGER := "map of collected fruits is null"

  /** mature(): the tree bears fruit; the bad-fruit flag is left as it was. */
  function Matured(s: TreeState): TreeState {
    s.(mature := true)
  }

  /** turnBad(): the fruit of a mature tree turns bad; an immature tree is left alone. */
  function TurnedBad(s: TreeState): TreeState {
    if s.mature then s.(badFruit := true) else s
  }

  /** meetPlayer(collected) on a tree in state `s` (src/FruitTree.java:154-170). */
  function Meet(s: TreeState, collected: Option<Ledger>): (r: Result<Encounter<TreeState>>)
    // the only failure: good fruit to collect and no ledger to record it in
    ensures r.Err? <==> s.mature && !s.IsBadFruit() && collected.None?
    ensures r.Err? ==> r.error == NULL_LEDGER
    // the player dies exactly on bad fruit
    ensures r.Ok? ==> (r.value.killed <==> s.IsBadFruit())
    // the ledger changes only when good fruit is collected, and then by one fruit of the tree's kind
    ensures r.Ok? ==> r.value.ledger == if s.mature && !s.badFruit then Some(Collect(collected.value, s.kind)) else collected
    // collecting consumes the fruit; nothing else about the tree changes
    ensures r.Ok? ==> r.value.after == if s.mature && !s.badFruit then s.(mature := false) else s
    // afterwards the tree never offers good fruit, and the invariant is kept
    ensures r.Ok? ==> !(r.value.after.mature && !r.value.after.badFruit)
    ensures r.Ok? && s.Valid() ==> r.value.after.Valid()
  {
    if s.IsBadFruit() then
      Ok(Encounter(true, collected, s))
    else if s.mature then
      if collected.None? then Err(NULL_LEDGER)
      else Ok(Encounter(false, Some(Collect(collected.value, s.kind)), s.(mature := false)))
    else
      Ok(Encounter(false, collected, s))
  }

  /** turnBad and mature keep the invariant; mature never clears bad fruit, so a spoiled tree stays spoiled. */
  lemma LifecyclePreservesValid(s: TreeState)
    requires s.Valid()
    ensures Matured(s).Valid() && TurnedBad(s).Valid()
    ensures s.IsBadFruit() ==> Matured(s).IsBadFruit()
    ensures TurnedBad(s).IsBadFruit() <==> s.mature
    ensures Matured(s).kind == s.kind && TurnedBad(s).kind == s.kind
  {
  }

  /** A freshly constructed tree, matured and left uncollected for one generation, bears bad fruit. */
  lemma OneGenerationWindow(kind: string, color: Color)
    ensures var grown := Matured(TreeState(kind, color, false, false));
      !grown.IsBadFruit() && TurnedBad(grown).IsBadFruit()
  {
  }

  /**
   * Collecting good fruit and meeting the same tree again at once: the second meeting finds an
   * immature tree, kills no one and leaves the ledger as the first meeting left it.
   */
  lemma CollectThenMeetAgain(s: TreeState, m: Ledger)
    requires s.mature && !s.badFruit
    ensures Meet(s, Some(m)).Ok?
    ensures var first := Meet(s, Some(m)).value;
      first.ledger == Some(Collect(m, s.kind)) && !first.killed &&
      Meet(first.after, first.ledger) == Ok(Encounter(false, first.ledger, first.after))
  {
  }

  /** The mutable tree of the source. `kind` is the source's `type` field. */
  class FruitTree {
    const kind: string
    const color: Color
    var mature: bool
    var badFruit: bool

    function State(): TreeState
      reads this
    {
      TreeState(kind, color, mature, badFruit)
    }

    /** A new tree is immature and bears no bad fruit (src/FruitTree.java:25-30). */
    constructor (kind: string, color: Color)
      ensures State() == TreeState(kind, color, false, false)
      ensures State().Valid()
    {
      this.kind := kind;
      this.color := color;
      mature := false;
      badFruit := false;
    }

    /** The private all-fields constructor used by clone (src/FruitTree.java:33-38). */
    constructor Copy(kind: string, color: Color, mature: bool, badFruit: bool)
      ensures State() == TreeState(kind, color, mature, badFruit)
    {
      this.kind := kind;
      this.color := color;
      this.mature := mature;
      this.badFruit := badFruit;
    }

    /** isBadFruit(): bad fruit only ever hangs on a mature tree; under the invariant it is the raw flag. */
    function IsBadFruit(): (r: bool)
      reads this
      ensures r ==> mature
      ensures State().Valid() ==> (r <==> badFruit)
    {
      mature && badFruit
    }

    method Mature()
      modifies this
      ensures State() == Matured(old(State()))
    {
      mature := true;
    }

    method TurnBad()
      modifies this
      ensures State() == TurnedBad(old(State()))
    {
      if mature {
        badFruit := true;
      }
    }

    /**
     * meetPlayer(collected): returns whether the player is killed and the ledger afterwards
     * (the source updates the caller's map in place), or the exception the source throws.
     * The tree is updated as `Meet` says and is left as it was when the call fails.
     */
    method MeetPlayer(collected: Option<Ledger>) returns (r: Result<(bool, Option<Ledger>)>)
      modifies this
      ensures Meet(old(State()), collected).Err? ==>
                r == Err(NULL_LEDGER) && State() == old(State())
      ensures Meet(old(State()), collected).Ok? ==>
                var e := Meet(old(State()), collected).value;
                r == Ok((e.killed, e.ledger)) && State() == e.after
    {
      if IsBadFruit() {
        return Ok((true, collected));
      }
      if mature {
        if collected.None? {
          return Err(NULL_LEDGER);
        }
        var m := Collect(collected.value, kind);
        mature := false;
        return Ok((false, Some(m)));
      }
      return Ok((false, collected));
    }

    /**
     * equals against another tree (src/FruitTree.java:90-119): the same object, or equal type,
     * colour and maturity and whose isBadFruit() matches this tree's raw bad-fruit flag.
     */
    predicate SameAs(other: FruitTree)
      reads this, other
      ensures State().Valid() && other.State().Valid() ==> (SameAs(other) <==> State() == other.State())
    {
      this == other ||
      (badFruit == other.IsBadFruit() && color == other.color && mature == other.mature && kind == other.kind)
    }

    /** clone(): a distinct tree with the same type, colour and maturity, and badFruit := isBadFruit(). */
    method Clone() returns (c: FruitTree)
      ensures fresh(c)
      ensures c.State() == State().(badFruit := IsBadFruit())
      ensures c.SameAs(this)
      ensures State().Valid() ==> this.SameAs(c)
      ensures State().Valid() ==> c.State() == State()
    {
      c := new FruitTree.Copy(kind, color, mature, IsBadFruit());
    }

    /** toString(): the fruit type (src/FruitTree.java:140-142). */
    function ToString(): (s: string)
      ensures s == kind
    {
      kind
    }
  }
}
