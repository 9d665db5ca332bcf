/**
 * The OrchardObject interface (src/OrchardObject.java) as a closed union: a cell occupant is a
 * pond or a (mutable) fruit tree, and each interface method dispatches on the case. An empty
 * position of the board is `None` (a null reference in the source).
 */
module OrchardObjects {
  import opened Wrappers
  import opened Ledgers
  import opened FruitTrees
  import Ponds

  datatype Cell = Pond | Tree(tree: FruitTree) {
    /** The objects whose fields this occupant's behaviour reads or changes. */
    function Footprint(): set<object> {
      if Tree? then {tree} else {}
    }
  }

  /** The read-only projection of an occupant: its type and, for a tree, kind, colour, maturity, spoilage. */
  datatype CellView = PondView | TreeView(state: TreeState) {
    predicate Valid() { TreeView? ==> state.Valid() }
  }

  function View(c: Cell): CellView
    reads if c.Tree? then {c.tree} else {}
  {
    match c
    case Pond => PondView
    case Tree(t) => TreeView(t.State())
  }

  /** The projection of a possibly empty position. */
  function ViewAt(o: Option<Cell>): Option<CellView>
    reads if o.Some? && o.value.Tree? then {o.value.tree} else {}
  {
    match o
    case None => None
    case Some(c) => Some(View(c))
  }

  /** meetPlayer on an occupant: a pond kills and leaves the ledger alone; a tree behaves as `Meet` says. */
  function MeetView(v: CellView, collected: Option<Ledger>): (r: Result<Encounter<CellView>>)
    ensures v.PondView? ==> r == Ok(Encounter(true, collected, PondView))
    ensures v.TreeView? ==> (r.Ok? <==> Meet(v.state, collected).Ok?)
    ensures v.TreeView? && r.Ok? ==>
              var e := Meet(v.state, collected).value;
              r.value == Encounter(e.killed, e.ledger, TreeView(e.after))
    ensures r.Err? ==> r.error == NULL_LEDGER
    ensures r.Ok? ==> r.value.after.PondView? == v.PondView?
    ensures r.Ok? && v.Valid() ==> r.value.after.Valid()
  {
    match v
    case PondView => Ok(Encounter(Ponds.MeetPlayer(collected), collected, PondView))
    case TreeView(s) =>
      match Meet(s, collected)
      case Err(e) => Err(e)
      case Ok(e) => Ok(Encounter(e.killed, e.ledger, TreeView(e.after)))
  }

  /** Interface dispatch of meetPlayer: returns whether the player is killed and the ledger afterwards. */
  method MeetPlayer(c: Cell, collected: Option<Ledger>) returns (r: Result<(bool, Option<Ledger>)>)
    modifies c.Footprint()
    ensures MeetView(old(View(c)), collected).Err? ==>
              r == Err(NULL_LEDGER) && View(c) == old(View(c))
    ensures MeetView(old(View(c)), collected).Ok? ==>
              var e := MeetView(old(View(c)), collected).value;
              r == Ok((e.killed, e.ledger)) && View(c) == e.after
  {
    match c
    case Pond =>
      r := Ok((Ponds.MeetPlayer(collected), collected));
    case Tree(t) =>
      r := t.MeetPlayer(collected);
  }

  /** What clone() yields, seen through the projection: a tree copies isBadFruit() into its flag. */
  function CloneView(v: Option<CellView>): (r: Option<CellView>)
    ensures r.None? <==> v.None?
    ensures v.Some? && v.value.Valid() ==> r == v
    ensures r.Some? ==> r.value.Valid() && (r.value.PondView? <==> v.value.PondView?)
    ensures r.Some? && r.value.TreeView? ==> r.value.state.kind == v.value.state.kind
  {
    match v
    case None => None
    case Some(PondView) => Some(PondView)
    case Some(TreeView(s)) => Some(TreeView(s.(badFruit := s.IsBadFruit())))
  }

  /** clone(): a pond clones to a pond; a tree to a fresh, distinct tree. */
  method Clone(c: Cell) returns (d: Cell)
    ensures c.Pond? ==> d == Pond
    ensures c.Tree? ==> d.Tree? && fresh(d.tree)
    ensures Some(View(d)) == CloneView(Some(View(c)))
  {
    match c
    case Pond =>
      d := Pond;
    case Tree(t) =>
      var u := t.Clone();
      d := Tree(u);
  }

  /** equals(obj): a pond equals every pond (src/Pond.java:18-21); a tree compares as `SameAs`. */
  predicate Equals(c: Cell, obj: Option<Cell>)
    reads c.Footprint(), if obj.Some? then obj.value.Footprint() else {}
    ensures c.Pond? ==> (Equals(c, obj) <==> obj == Some(Pond))
    ensures c.Tree? && View(c).Valid() && obj.Some? && View(obj.value).Valid() ==>
              (Equals(c, obj) <==> View(c) == View(obj.value))
    ensures obj.None? ==> !Equals(c, obj)
  {
    match c
    case Pond => obj.Some? && obj.value.Pond?
    case Tree(t) => obj.Some? && obj.value.Tree? && t.SameAs(obj.value.tree)
  }

  /** toString(): "Pond", or the tree's fruit type. */
  function ToString(c: Cell): (s: string)
    ensures c.Pond? ==> s == "Pond"
    ensures c.Tree? ==> s == c.tree.kind
  {
    match c
    case Pond => Ponds.ToString()
    case Tree(t) => t.ToString()
  }
}
