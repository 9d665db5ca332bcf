/**
 * The game session (src/FruitCollectGame.java): one board, one player, a ledger of collected
 * fruit per kind, a generation counter and an `ended` flag. `Move` walks the player onto a
 * position and lets the occupant act; `NextGen` advances every tree by one generation.
 *
 * java.util.Random is not modelled: where the source draws random numbers, the draws are
 * parameters (the three positions `NextGen` picks, the pond and kind choices of `Random`).
 */
module FruitCollectGames {
  import opened Wrappers
  import opened Ledgers
  import opened FruitTrees
  import opened OrchardObjects
  import opened OrchardBoards
  import opened Players

  const DEFAULT_ORCHARD_WIDTH := 15
  const DEFAULT_ORCHARD_HEIGHT := 15
  const DEFAULT_SECONDS_PER_GEN := 5
  const MAX_MATURE_PER_GEN := 3
  const DEFAULT_MAX_GEN := 30
  const DEFAULT_POND_PERCENT := 10
  const MAX_POND_PERCENT := 70
  const DEFAULT_INITIAL_PLAYER_X := 7
  const DEFAULT_INITIAL_PLAYER_Y := 7
  const MIN_GOAL_PER_TYPE := 10

  /** The failure of moving onto an empty position: the source dereferences the null there. */
  const NULL_CELL := "NullPointerException: no object at the position moved to"

  /** The collection goal: every tracked kind has at least MIN_GOAL_PER_TYPE fruits. */
  predicate GoalMet(ledger: Ledger) {
    forall k | k in ledger :: ledger[k] >= MIN_GOAL_PER_TYPE
  }

  /** Whether a generation step matures the tree at `p`: one of the picks hit it, and it shares neither coordinate with the player at (px, py). */
  predicate Ripens(p: (int, int), picks: seq<(int, int)>, px: int, py: int) {
    p in picks && p.0 != px && p.1 != py
  }

  /** One generation for one tree: its fruit turns bad if it was mature, then it matures if it was picked. */
  function Advanced(s: TreeState, ripens: bool): TreeState {
    if ripens then Matured(TurnedBad(s)) else TurnedBad(s)
  }

  /** The goal check passes vacuously for an empty ledger. */
  lemma EmptyLedgerMeetsGoal()
    ensures GoalMet(map[])
  {
  }

  /**
   * A generation step spoils every mature tree, keeps bad fruit bad and the lifecycle invariant
   * intact; a tree that was not picked does not become mature, and neither kind nor colour changes.
   */
  lemma AdvancedProperties(s: TreeState, ripens: bool)
    ensures s.mature ==> Advanced(s, ripens).IsBadFruit()
    ensures s.IsBadFruit() ==> Advanced(s, ripens).IsBadFruit()
    ensures s.Valid() ==> Advanced(s, ripens).Valid()
    ensures !ripens ==> Advanced(s, ripens).mature == s.mature
    ensures ripens ==> Advanced(s, ripens).mature
    ensures Advanced(s, ripens).kind == s.kind && Advanced(s, ripens).color == s.color
  {
  }

  /**
   * The skip rule of nextGen (src/FruitCollectGame.java:317). The player's own position never
   * ripens, as the method's comment promises, and neither does any position that shares only the
   * player's column or only the player's row.
   */
  lemma SkipRule(picks: seq<(int, int)>, px: int, py: int)
    ensures !Ripens((px, py), picks, px, py)
    ensures forall q: (int, int) | q.0 == px || q.1 == py :: !Ripens(q, picks, px, py)
  {
  }

  /** The skip is wider than the player's cell: a picked neighbour in the player's row is spared too. */
  lemma SkipSparesPlayerRow(px: int, py: int)
    ensures !Ripens((px + 1, py), [(px + 1, py)], px, py)
  {
  }

  /** At most as many positions mature as there are picks: MAX_MATURE_PER_GEN per generation. */
  lemma {:induction false} RipenedAtMost(picks: seq<(int, int)>, px: int, py: int)
    ensures |set p | p in picks && Ripens(p, picks, px, py)| <= |picks|
  {
    var ripe := set p | p in picks && Ripens(p, picks, px, py);
    SetOfSeqBound(picks);
    assert ripe <= set p | p in picks;
    SubsetCard(ripe, set p | p in picks);
  }

  lemma {:induction false} SetOfSeqBound<T>(s: seq<T>)
    ensures |set x | x in s| <= |s|
  {
    if |s| > 0 {
      SetOfSeqBound(s[1..]);
      assert (set x | x in s) == (set x | x in s[1..]) + {s[0]};
    } else {
      assert (set x | x in s) == {};
    }
  }

  lemma SubsetCard<T>(a: set<T>, b: set<T>)
    requires a <= b
    ensures |a| <= |b|
  {
    if a != {} {
      var x :| x in a;
      SubsetCard(a - {x}, b - {x});
    }
  }

  /**
   * Moving onto an immature tree while the goal is unmet clears `ended`: the source assigns the
   * result of meetPlayer to the flag, so a finished game can be reopened by a further move.
   */
  lemma MoveCanReopen(s: TreeState, m: Ledger)
    requires !s.mature && !GoalMet(m)
    ensures MeetView(TreeView(s), Some(m)).Ok?
    ensures var e := MeetView(TreeView(s), Some(m)).value;
      e.ledger == Some(m) && !(e.killed || GoalMet(e.ledger.value))
  {
  }

  const INVALID_POSITION := "invalid player position"
  const POND_START := "player initialized in a pond"

  /** The fruit type an occupant contributes to the ledger: a tree's type, nothing for a pond or null. */
  function CellKind(o: Option<Cell>): set<string> {
    if o.Some? && o.value.Tree? then {o.value.tree.kind} else {}
  }

  /** The fruit types of the trees in the first `n` positions of row `row`. */
  ghost function RowKinds(setup: array2<Option<Cell>>, row: int, n: int): set<string>
    reads setup
    requires 0 <= row < setup.Length0 && 0 <= n <= setup.Length1
  {
    if n == 0 then {} else RowKinds(setup, row, n - 1) + CellKind(setup[row, n - 1])
  }

  /** The fruit types of the trees in the first `rows` rows. */
  ghost function KindsIn(setup: array2<Option<Cell>>, rows: int): set<string>
    reads setup
    requires 0 <= rows <= setup.Length0
  {
    if rows == 0 then {} else KindsIn(setup, rows - 1) + RowKinds(setup, rows - 1, setup.Length1)
  }

  /** Every tree of the grid contributes its type to `KindsIn`. */
  lemma {:induction false} KindsInContains(setup: array2<Option<Cell>>, rows: int, y: int, x: int)
    requires 0 <= y < rows <= setup.Length0 && 0 <= x < setup.Length1
    ensures CellKind(setup[y, x]) <= KindsIn(setup, rows)
  {
    if y < rows - 1 {
      KindsInContains(setup, rows - 1, y, x);
    } else {
      RowKindsContains(setup, y, setup.Length1, x);
    }
  }

  lemma {:induction false} RowKindsContains(setup: array2<Option<Cell>>, row: int, n: int, x: int)
    requires 0 <= row < setup.Length0 && 0 <= x < n <= setup.Length1
    ensures CellKind(setup[row, x]) <= RowKinds(setup, row, n)
  {
    if x < n - 1 {
      RowKindsContains(setup, row, n - 1, x);
    }
  }

  /** Only types of trees on the grid are in `KindsIn`. */
  lemma {:induction false} KindsInOnly(setup: array2<Option<Cell>>, rows: int, k: string)
    requires 0 <= rows <= setup.Length0 && k in KindsIn(setup, rows)
    ensures exists y, x | 0 <= y < rows && 0 <= x < setup.Length1 :: k in CellKind(setup[y, x])
  {
    if k in KindsIn(setup, rows - 1) {
      KindsInOnly(setup, rows - 1, k);
      var y, x :| 0 <= y < rows - 1 && 0 <= x < setup.Length1 && k in CellKind(setup[y, x]);
    } else {
      var x := RowKindsOnly(setup, rows - 1, setup.Length1, k);
    }
  }

  lemma {:induction false} RowKindsOnly(setup: array2<Option<Cell>>, row: int, n: int, k: string) returns (x: int)
    requires 0 <= row < setup.Length0 && 0 <= n <= setup.Length1 && k in RowKinds(setup, row, n)
    ensures 0 <= x < n && k in CellKind(setup[row, x])
  {
    if k in CellKind(setup[row, n - 1]) {
      x := n - 1;
    } else {
      x := RowKindsOnly(setup, row, n - 1, k);
    }
  }

  /**
   * The ledger loop of the explicit-board constructor (src/FruitCollectGame.java:56-64): one
   * entry per fruit type found on the grid, each at 0.
   */
  method TrackedKinds(setup: array2<Option<Cell>>) returns (m: Ledger)
    ensures m.Keys == KindsIn(setup, setup.Length0)
    ensures forall k | k in m :: m[k] == 0
  {
    m := map[];
    for row := 0 to setup.Length0
      invariant m.Keys == KindsIn(setup, row)
      invariant forall k | k in m :: m[k] == 0
    {
      for col := 0 to setup.Length1
        invariant m.Keys == KindsIn(setup, row) + RowKinds(setup, row, col)
        invariant forall k | k in m :: m[k] == 0
      {
        var obj := setup[row, col];
        if obj.Some? && obj.value.Tree? && ToString(obj.value) !in m {
          m := m[ToString(obj.value) := 0];
        }
      }
    }
  }

  /**
   * A board copied from `setup` holds only trees of the types `setup` holds, and only trees that
   * respect bad ⟹ mature, since clone() copies isBadFruit() into the bad-fruit flag.
   */
  lemma CopiedTrees(b: OrchardBoard, setup: array2<Option<Cell>>)
    requires b.Valid() && b.height == setup.Length0 && b.width == setup.Length1
    requires forall y, x | 0 <= y < setup.Length0 && 0 <= x < setup.Length1 ::
               ViewAt(b.orchard[y, x]) == CloneView(ViewAt(setup[y, x]))
    ensures forall t | t in b.Pos :: t.kind in KindsIn(setup, setup.Length0) && t.State().Valid()
  {
    forall t | t in b.Pos
      ensures t.kind in KindsIn(setup, setup.Length0) && t.State().Valid()
    {
      var (x, y) := b.Pos[t];
      assert ViewAt(b.orchard[y, x]) == CloneView(ViewAt(setup[y, x]));
      KindsInContains(setup, setup.Length0, y, x);
    }
  }

  const BAD_DIMENSIONS := "invalid dimentions"
  const NO_FRUITS := "empty list of fruits"

  /** Java's decimal rendering of an int, as string concatenation produces it. */
  function IntToString(n: int): string {
    if n < 0 then "-" + NatToString(-n) else NatToString(n)
  }

  function NatToString(n: nat): (s: string)
    ensures |s| > 0
  {
    if n < 10 then ["0123456789"[n]] else NatToString(n / 10) + ["0123456789"[n % 10]]
  }

  function PondPercentError(pondPercent: int): string {
    "invalid pondPercent: " + IntToString(pondPercent) + " (must be 0-" + IntToString(MAX_POND_PERCENT) + ")"
  }

  /**
   * The argument checks of the random constructor (src/FruitCollectGame.java:86-98), in the
   * source's order: the first that fails names the exception; all pass exactly on positive
   * dimensions, a non-empty fruit map, a pond percent in 0..MAX_POND_PERCENT and a start on the board.
   */
  function RandomCheck(width: int, height: int, fruits: Option<map<string, Color>>, pondPercent: int, px: int, py: int): (o: Outcome)
    ensures o.Pass? <==>
              width > 0 && height > 0 && fruits.Some? && fruits.value != map[] &&
              0 <= pondPercent <= MAX_POND_PERCENT && 0 <= px < width && 0 <= py < height
    ensures (width <= 0 || height <= 0) ==> o == Fail(BAD_DIMENSIONS)
    ensures width > 0 && height > 0 && (fruits.None? || fruits.value == map[]) ==> o == Fail(NO_FRUITS)
    ensures width > 0 && height > 0 && fruits.Some? && fruits.value != map[] && !(0 <= pondPercent <= MAX_POND_PERCENT)
            ==> o == Fail(PondPercentError(pondPercent))
    ensures width > 0 && height > 0 && fruits.Some? && fruits.value != map[] && 0 <= pondPercent <= MAX_POND_PERCENT &&
            !(0 <= px < width && 0 <= py < height)
            ==> o == Fail(INVALID_POSITION)
  {
    if width <= 0 || height <= 0 then Fail(BAD_DIMENSIONS)
    else if fruits.None? || fruits.value == map[] then Fail(NO_FRUITS)
    else if pondPercent < 0 || pondPercent > MAX_POND_PERCENT then Fail(PondPercentError(pondPercent))
    else if px < 0 || px >= width || py < 0 || py >= height then Fail(INVALID_POSITION)
    else Pass
  }

  /**
   * The random draws of the random constructor, one pair per position: `roll` is
   * nextDouble() * 100, compared against the pond percent, and `pick` is the nextInt index
   * into the list of fruit types drawn when the position is not a pond.
   */
  datatype Draws = Draws(roll: (int, int) -> real, pick: (int, int) -> nat)

  /** `order` lists exactly the keys of `fruits`: the iteration order of the map's key set. */
  predicate ListsKeys(order: seq<string>, fruits: map<string, Color>) {
    (forall i | 0 <= i < |order| :: order[i] in fruits) && (forall k | k in fruits :: k in order)
  }

  /** Every kind draw indexes a list of `n` types, as nextInt(n) guarantees. */
  ghost predicate PicksBelow(draws: Draws, n: int) {
    forall row, col :: draws.pick(row, col) < n
  }

  /** Every pond draw lies in [0, 100), as nextDouble() * 100 does. */
  ghost predicate RollsInRange(draws: Draws) {
    forall row, col :: 0.0 <= draws.roll(row, col) < 100.0
  }

  /** A tree planted by the random constructor: new FruitTree(kind, fruits.get(kind)). */
  function Sapling(fruits: map<string, Color>, kind: string): TreeState
    requires kind in fruits
  {
    TreeState(kind, fruits[kind], false, false)
  }

  /** What the fill loop (src/FruitCollectGame.java:114-123) puts at (row, col): a pond, or a tree of the drawn type. */
  function DrawnView(fruits: map<string, Color>, order: seq<string>, pondPercent: int, draws: Draws,
                     row: int, col: int): CellView
    requires ListsKeys(order, fruits) && PicksBelow(draws, |order|)
  {
    if draws.roll(row, col) < pondPercent as real then PondView
    else TreeView(Sapling(fruits, order[draws.pick(row, col)]))
  }

  /** The random board: the filled grid, with a tree of the first listed type at the start (src/FruitCollectGame.java:124-125). */
  function RandomView(fruits: map<string, Color>, order: seq<string>, pondPercent: int, draws: Draws,
                      px: int, py: int, row: int, col: int): CellView
    requires ListsKeys(order, fruits) && |order| > 0 && PicksBelow(draws, |order|)
  {
    if row == py && col == px then TreeView(Sapling(fruits, order[0]))
    else DrawnView(fruits, order, pondPercent, draws, row, col)
  }

  /** The player's start is never a pond: it holds a tree of the first listed fruit type. */
  lemma RandomStartIsTree(fruits: map<string, Color>, order: seq<string>, pondPercent: int, draws: Draws, px: int, py: int)
    requires ListsKeys(order, fruits) && |order| > 0 && PicksBelow(draws, |order|)
    ensures var v := RandomView(fruits, order, pondPercent, draws, px, py, py, px);
      v.TreeView? && v.state.kind == order[0] && v.state.kind in fruits
  {
  }

  /**
   * Upon initiation no tree is mature and none bears bad fruit; every tree is of a type of the
   * map and has that type's colour; a position is a pond exactly when it is not the start and
   * its roll fell below the pond percent.
   */
  lemma RandomViewFacts(fruits: map<string, Color>, order: seq<string>, pondPercent: int, draws: Draws,
                        px: int, py: int, row: int, col: int)
    requires ListsKeys(order, fruits) && |order| > 0 && PicksBelow(draws, |order|)
    ensures var v := RandomView(fruits, order, pondPercent, draws, px, py, row, col);
      v.Valid() &&
      (v.TreeView? ==> v.state.kind in fruits && v.state.color == fruits[v.state.kind] &&
                       !v.state.mature && !v.state.badFruit) &&
      (v.PondView? <==> (row, col) != (py, px) && draws.roll(row, col) < pondPercent as real)
  {
  }

  /** With a pond percent of 0 the board holds no pond at all. */
  lemma NoPondsAtZeroPercent(fruits: map<string, Color>, order: seq<string>, draws: Draws,
                             px: int, py: int, row: int, col: int)
    requires ListsKeys(order, fruits) && |order| > 0 && PicksBelow(draws, |order|) && RollsInRange(draws)
    ensures RandomView(fruits, order, 0, draws, px, py, row, col).TreeView?
  {
  }

  /**
   * The ledger loop of the random constructor (src/FruitCollectGame.java:104-109): every type
   * of the map is tracked, at 0.
   */
  method ZeroLedger(fruits: map<string, Color>, order: seq<string>) returns (m: Ledger)
    requires ListsKeys(order, fruits)
    ensures m.Keys == fruits.Keys
    ensures forall k | k in m :: m[k] == 0
  {
    m := map[];
    for i := 0 to |order|
      invariant forall k :: k in m <==> k in order[..i]
      invariant forall k | k in m :: m[k] == 0
    {
      m := m[order[i] := 0];
    }
    assert order[..|order|] == order;
  }

  /** One position of the fill loop: a new pond or a new tree, as `DrawnView` says. */
  method PlantCell(setup: array2<Option<Cell>>, fruits: map<string, Color>, order: seq<string>, pondPercent: int,
                   draws: Draws, row: int, col: int)
    requires ListsKeys(order, fruits) && PicksBelow(draws, |order|)
    requires 0 <= row < setup.Length0 && 0 <= col < setup.Length1
    modifies setup
    ensures forall y, x | 0 <= y < setup.Length0 && 0 <= x < setup.Length1 && (y, x) != (row, col) ::
              setup[y, x] == old(setup[y, x])
    ensures ViewAt(setup[row, col]) == Some(DrawnView(fruits, order, pondPercent, draws, row, col))
  {
    if draws.roll(row, col) < pondPercent as real {
      setup[row, col] := Some(Pond);
    } else {
      var fruit := order[draws.pick(row, col)];
      var t := new FruitTree(fruit, fruits[fruit]);
      setup[row, col] := Some(Tree(t));
    }
  }

  /** One row of the fill loop. */
  method PlantRow(setup: array2<Option<Cell>>, fruits: map<string, Color>, order: seq<string>, pondPercent: int,
                  draws: Draws, row: int)
    requires ListsKeys(order, fruits) && PicksBelow(draws, |order|)
    requires 0 <= row < setup.Length0
    modifies setup
    ensures forall y, x | 0 <= y < setup.Length0 && 0 <= x < setup.Length1 && y != row ::
              setup[y, x] == old(setup[y, x])
    ensures forall x | 0 <= x < setup.Length1 ::
              ViewAt(setup[row, x]) == Some(DrawnView(fruits, order, pondPercent, draws, row, x))
  {
    for col := 0 to setup.Length1
      invariant forall y, x | 0 <= y < setup.Length0 && 0 <= x < setup.Length1 && y != row ::
                  setup[y, x] == old(setup[y, x])
      invariant forall x | 0 <= x < col ::
                  ViewAt(setup[row, x]) == Some(DrawnView(fruits, order, pondPercent, draws, row, x))
    {
      label before:
      PlantCell(setup, fruits, order, pondPercent, draws, row, col);
      forall x | 0 <= x < col
        ensures ViewAt(setup[row, x]) == Some(DrawnView(fruits, order, pondPercent, draws, row, x))
      {
        assert setup[row, x] == old@before(setup[row, x]);
      }
    }
  }

  /** The random grid of the source before it is copied into a board: the fill loop, then the start tree. */
  method PlantedGrid(width: int, height: int, fruits: map<string, Color>, order: seq<string>, pondPercent: int,
                     draws: Draws, px: int, py: int) returns (setup: array2<Option<Cell>>)
    requires width > 0 && height > 0 && 0 <= px < width && 0 <= py < height
    requires ListsKeys(order, fruits) && |order| > 0 && PicksBelow(draws, |order|)
    ensures fresh(setup) && setup.Length0 == height && setup.Length1 == width
    ensures forall y, x | 0 <= y < height && 0 <= x < width ::
              ViewAt(setup[y, x]) == Some(RandomView(fruits, order, pondPercent, draws, px, py, y, x))
  {
    setup := new Option<Cell>[height, width]((_, _) => None);
    for row := 0 to height
      invariant forall y, x | 0 <= y < row && 0 <= x < width ::
                  ViewAt(setup[y, x]) == Some(DrawnView(fruits, order, pondPercent, draws, y, x))
    {
      label before:
      PlantRow(setup, fruits, order, pondPercent, draws, row);
      forall y, x | 0 <= y < row && 0 <= x < width
        ensures ViewAt(setup[y, x]) == Some(DrawnView(fruits, order, pondPercent, draws, y, x))
      {
        assert setup[y, x] == old@before(setup[y, x]);
      }
    }
    label drawn:
    var t := new FruitTree(order[0], fruits[order[0]]);
    setup[py, px] := Some(Tree(t));
    forall y, x | 0 <= y < height && 0 <= x < width
      ensures ViewAt(setup[y, x]) == Some(RandomView(fruits, order, pondPercent, draws, px, py, y, x))
    {
      if (y, x) != (py, px) {
        assert setup[y, x] == old@drawn(setup[y, x]);
      }
    }
  }

  /** The random grid copied into a board, as the random constructor does last (src/FruitCollectGame.java:126). */
  method PlantedBoard(width: int, height: int, fruits: map<string, Color>, order: seq<string>, pondPercent: int,
                      draws: Draws, px: int, py: int) returns (b: OrchardBoard)
    requires width > 0 && height > 0 && 0 <= px < width && 0 <= py < height
    requires ListsKeys(order, fruits) && |order| > 0 && PicksBelow(draws, |order|)
    ensures fresh(b) && fresh(b.orchard) && b.Valid() && b.width == width && b.height == height
    ensures forall t | t in b.Pos :: fresh(t)
    ensures forall y, x | 0 <= y < height && 0 <= x < width ::
              ViewAt(b.orchard[y, x]) == Some(RandomView(fruits, order, pondPercent, draws, px, py, y, x))
  {
    var setup := PlantedGrid(width, height, fruits, order, pondPercent, draws, px, py);
    label planted:
    var built := OrchardBoard.Build(setup);
    b := built.value;
    forall y, x | 0 <= y < height && 0 <= x < width
      ensures ViewAt(b.orchard[y, x]) == Some(RandomView(fruits, order, pondPercent, draws, px, py, y, x))
    {
      assert ViewAt(setup[y, x]) == old@planted(ViewAt(setup[y, x]));
    }
  }

  /** A board copied from the random grid holds only new, immature trees of the map's types. */
  lemma PlantedTrees(b: OrchardBoard, fruits: map<string, Color>, order: seq<string>, pondPercent: int,
                     draws: Draws, px: int, py: int)
    requires ListsKeys(order, fruits) && |order| > 0 && PicksBelow(draws, |order|)
    requires b.Valid()
    requires forall y, x | 0 <= y < b.height && 0 <= x < b.width ::
               ViewAt(b.orchard[y, x]) == Some(RandomView(fruits, order, pondPercent, draws, px, py, y, x))
    ensures forall t | t in b.Pos :: t.kind in fruits && t.State() == Sapling(fruits, t.kind)
  {
    forall t | t in b.Pos
      ensures t.kind in fruits && t.State() == Sapling(fruits, t.kind)
    {
      var (x, y) := b.Pos[t];
      assert ViewAt(b.orchard[y, x]) == Some(RandomView(fruits, order, pondPercent, draws, px, py, y, x));
      RandomViewFacts(fruits, order, pondPercent, draws, px, py, y, x);
    }
  }

  class FruitCollectGame {
    const player: Player
    const orchard: OrchardBoard
    var collected: Ledger
    var gen: int
    var ended: bool

    /** Every tree on the board is of a tracked kind, so meeting a tree never adds a ledger entry. */
    ghost predicate KindsTracked()
      reads this
    {
      forall t | t in orchard.Pos :: t.kind in collected
    }

    ghost predicate CountsNonNegative()
      reads this
    {
      forall k | k in collected :: collected[k] >= 0
    }

    /** The session invariant: a valid board, the player on it, tracked kinds, non-negative counts. */
    ghost predicate Valid()
      reads this, player, orchard.orchard
    {
      && orchard.Valid()
      && orchard.OnBoard(player.x, player.y)
      && KindsTracked()
      && CountsNonNegative()
    }

    /** Every tree on the board respects bad ⟹ mature. */
    ghost predicate TreesValid()
      reads orchard.Pos.Keys
    {
      forall t | t in orchard.Pos :: t.State().Valid()
    }

    /**
     * The state the explicit-board constructor ends in (src/FruitCollectGame.java:46-66): the
     * given board and player, the given ledger, generation 0, not ended.
     */
    constructor Init(orchard: OrchardBoard, player: Player, collected: Ledger, ghost setup: array2<Option<Cell>>)
      requires orchard.Valid() && orchard.OnBoard(player.x, player.y)
      requires orchard.height == setup.Length0 && orchard.width == setup.Length1
      requires forall y, x | 0 <= y < setup.Length0 && 0 <= x < setup.Length1 ::
                 ViewAt(orchard.orchard[y, x]) == CloneView(ViewAt(setup[y, x]))
      requires forall t | t in orchard.Pos :: t.kind in collected && t.State().Valid()
      requires forall k | k in collected :: collected[k] == 0
      ensures this.orchard == orchard && this.player == player && this.collected == collected
      ensures Valid() && TreesValid() && gen == 0 && !ended
      ensures forall y, x | 0 <= y < setup.Length0 && 0 <= x < setup.Length1 ::
                ViewAt(orchard.orchard[y, x]) == CloneView(ViewAt(setup[y, x]))
    {
      this.orchard := orchard;
      this.player := player;
      this.collected := collected;
      gen := 0;
      ended := false;
    }

    /**
     * new FruitCollectGame(orchard, playerX, playerY) (src/FruitCollectGame.java:46-67): the board
     * is a deep copy of `setup` (its null and empty cases come first), the player must stand on
     * it and not on a pond, and the ledger tracks every fruit type of the grid at 0. The ledger
     * loop reads only the grid and the trees' constant types, so the model runs it before the
     * board copy; nothing it reads changes in between.
     */
    static method FromSetup(setup: array2?<Option<Cell>>, px: int, py: int) returns (r: Result<FruitCollectGame>)
      ensures setup == null ==> r == Err(NULL_ORCHARD)
      ensures setup != null && (setup.Length0 == 0 || setup.Length1 == 0) ==> r == Err(EMPTY_ORCHARD)
      ensures setup != null && setup.Length0 > 0 && setup.Length1 > 0 &&
              !(0 <= py < setup.Length0 && 0 <= px < setup.Length1)
              ==> r == Err(INVALID_POSITION)
      ensures setup != null && 0 <= py < setup.Length0 && 0 <= px < setup.Length1 ==>
                (r == Err(POND_START) <==> setup[py, px] == Some(Pond)) &&
                (r.Ok? <==> setup[py, px] != Some(Pond))
      ensures r.Ok? ==>
                var g := r.value;
                setup != null && fresh(g) && fresh(g.player) && fresh(g.orchard) && fresh(g.orchard.orchard) &&
                (forall t | t in g.orchard.Pos :: fresh(t)) &&
                g.Valid() && g.TreesValid() &&
                g.player.x == px && g.player.y == py && g.gen == 0 && !g.ended &&
                g.collected.Keys == KindsIn(setup, setup.Length0) &&
                (forall k | k in g.collected :: g.collected[k] == 0) &&
                g.orchard.width == setup.Length1 && g.orchard.height == setup.Length0 &&
                (forall y, x | 0 <= y < setup.Length0 && 0 <= x < setup.Length1 ::
                   ViewAt(g.orchard.orchard[y, x]) == CloneView(ViewAt(setup[y, x])))
    {
      var p := new Player(px, py);
      var m: Ledger := map[];
      if setup != null {
        m := TrackedKinds(setup);
      }
      var b :- OrchardBoard.Build(setup);
      if py < 0 || py >= setup.Length0 || px < 0 || px >= setup.Length1 {
        return Err(INVALID_POSITION);
      }
      if setup[py, px].Some? && setup[py, px].value.Pond? {
        return Err(POND_START);
      }
      CopiedTrees(b, setup);
      var g := new FruitCollectGame.Init(b, p, m, setup);
      return Ok(g);
    }

    /**
     * The state the random constructor ends in: everything `Valid` asks, the player at the
     * start, generation 0, not ended, every type of the map tracked at 0, and the board
     * `RandomView` describes.
     */
    ghost predicate DrawnFrom(width: int, height: int, fruits: map<string, Color>, order: seq<string>,
                              pondPercent: int, draws: Draws, px: int, py: int)
      reads this, player, orchard.orchard, orchard.Pos.Keys
      requires ListsKeys(order, fruits) && |order| > 0 && PicksBelow(draws, |order|)
    {
      && Valid() && TreesValid()
      && player.x == px && player.y == py && gen == 0 && !ended
      && collected.Keys == fruits.Keys && (forall k | k in collected :: collected[k] == 0)
      && orchard.width == width && orchard.height == height
      && forall y, x | 0 <= y < height && 0 <= x < width ::
           ViewAt(orchard.orchard[y, x]) == Some(RandomView(fruits, order, pondPercent, draws, px, py, y, x))
    }

    /** The random constructor once its argument checks have passed (src/FruitCollectGame.java:100-126). */
    constructor Planted(width: int, height: int, fruits: map<string, Color>, order: seq<string>, pondPercent: int,
                        draws: Draws, px: int, py: int)
      requires width > 0 && height > 0 && 0 <= px < width && 0 <= py < height
      requires ListsKeys(order, fruits) && |order| > 0 && PicksBelow(draws, |order|)
      ensures fresh(player) && fresh(orchard) && fresh(orchard.orchard)
      ensures forall t | t in orchard.Pos :: fresh(t)
      ensures DrawnFrom(width, height, fruits, order, pondPercent, draws, px, py)
    {
      var p := new Player(px, py);
      var m := ZeroLedger(fruits, order);
      var b := PlantedBoard(width, height, fruits, order, pondPercent, draws, px, py);
      PlantedTrees(b, fruits, order, pondPercent, draws, px, py);
      player := p;
      orchard := b;
      collected := m;
      gen := 0;
      ended := false;
    }

    /**
     * new FruitCollectGame(width, height, fruits, pondPercent, playerX, playerY)
     * (src/FruitCollectGame.java:84-127): the arguments are checked as `RandomCheck` says, and a
     * passing call yields the game `DrawnFrom` describes. `order` is the iteration order of the
     * map's keys and `draws` are the random numbers drawn; neither is chosen by the caller.
     */
    static method Random(width: int, height: int, fruits: Option<map<string, Color>>, pondPercent: int,
                         px: int, py: int, order: seq<string>, draws: Draws) returns (r: Result<FruitCollectGame>)
      requires fruits.Some? ==> ListsKeys(order, fruits.value)
      requires fruits.Some? && |order| > 0 ==> PicksBelow(draws, |order|)
      ensures RandomCheck(width, height, fruits, pondPercent, px, py).Fail? ==>
                r == Err(RandomCheck(width, height, fruits, pondPercent, px, py).error)
      ensures RandomCheck(width, height, fruits, pondPercent, px, py).Pass? ==>
                r.Ok? && fruits.Some? && |order| > 0 &&
                fresh(r.value) && fresh(r.value.player) && fresh(r.value.orchard) && fresh(r.value.orchard.orchard) &&
                (forall t | t in r.value.orchard.Pos :: fresh(t)) &&
                r.value.DrawnFrom(width, height, fruits.value, order, pondPercent, draws, px, py)
    {
      var check := RandomCheck(width, height, fruits, pondPercent, px, py);
      if check.Fail? {
        return Err(check.error);
      }
      var k :| k in fruits.value;
      assert k in order;
      var g := new FruitCollectGame.Planted(width, height, fruits.value, order, pondPercent, draws, px, py);
      return Ok(g);
    }

    /**
     * new FruitCollectGame(fruits) (src/FruitCollectGame.java:140-143): the random constructor
     * on a DEFAULT_ORCHARD_WIDTH x DEFAULT_ORCHARD_HEIGHT board with DEFAULT_POND_PERCENT ponds
     * and the player at (DEFAULT_INITIAL_PLAYER_X, DEFAULT_INITIAL_PLAYER_Y); only a null or
     * empty map can make it fail.
     */
    static method WithDefaults(fruits: Option<map<string, Color>>, order: seq<string>, draws: Draws)
      returns (r: Result<FruitCollectGame>)
      requires fruits.Some? ==> ListsKeys(order, fruits.value)
      requires fruits.Some? && |order| > 0 ==> PicksBelow(draws, |order|)
      ensures fruits.None? || fruits.value == map[] ==> r == Err(NO_FRUITS)
      ensures fruits.Some? && fruits.value != map[] ==>
                r.Ok? && |order| > 0 &&
                fresh(r.value) && fresh(r.value.player) && fresh(r.value.orchard) && fresh(r.value.orchard.orchard) &&
                (forall t | t in r.value.orchard.Pos :: fresh(t)) &&
                r.value.DrawnFrom(DEFAULT_ORCHARD_WIDTH, DEFAULT_ORCHARD_HEIGHT, fruits.value, order,
                                  DEFAULT_POND_PERCENT, draws, DEFAULT_INITIAL_PLAYER_X, DEFAULT_INITIAL_PLAYER_Y)
    {
      r := Random(DEFAULT_ORCHARD_WIDTH, DEFAULT_ORCHARD_HEIGHT, fruits, DEFAULT_POND_PERCENT,
                  DEFAULT_INITIAL_PLAYER_X, DEFAULT_INITIAL_PLAYER_Y, order, draws);
    }

    /** endGame(): the game is over; nothing else changes. */
    method EndGame()
      modifies this
      ensures ended && collected == old(collected) && gen == old(gen)
      ensures old(Valid()) ==> Valid()
    {
      ended := true;
    }

    /** goalAccomplished(): a scan of the ledger for a kind still short of the goal. */
    method GoalAccomplished() returns (r: bool)
      ensures r == GoalMet(collected)
      ensures collected == map[] ==> r
    {
      var keys := collected.Keys;
      while keys != {}
        invariant keys <= collected.Keys
        invariant forall k | k in collected && k !in keys :: collected[k] >= MIN_GOAL_PER_TYPE
        decreases keys
      {
        var k :| k in keys;
        if collected[k] < MIN_GOAL_PER_TYPE {
          return false;
        }
        keys := keys - {k};
      }
      return true;
    }

    /** isCollecting(fruit): the kind is tracked; under the invariant every kind on the board is. */
    predicate IsCollecting(fruit: string)
      reads this
      ensures IsCollecting(fruit) <==> fruit in collected.Keys
      ensures KindsTracked() ==> forall t | t in orchard.Pos && t.kind == fruit :: IsCollecting(fruit)
    {
      fruit in collected
    }

    /** numCollected(fruit): the count of a tracked kind, -1 for a kind not tracked. */
    function NumCollected(fruit: string): (n: int)
      reads this
      ensures IsCollecting(fruit) ==> n == collected[fruit]
      ensures !IsCollecting(fruit) ==> n == -1
      ensures CountsNonNegative() ==> (n == -1 <==> !IsCollecting(fruit))
    {
      if IsCollecting(fruit) then collected[fruit] else -1
    }

    /** getFruitSet(): the tracked kinds, gathered into a new set; a set value shares nothing with the ledger. */
    method GetFruitSet() returns (fruits: set<string>)
      ensures fruits == collected.Keys
    {
      fruits := {};
      var keys := collected.Keys;
      while keys != {}
        invariant keys <= collected.Keys
        invariant fruits == collected.Keys - keys
        decreases keys
      {
        var k :| k in keys;
        fruits := fruits + {k};
        keys := keys - {k};
      }
    }

    /**
     * move(x, y) (src/FruitCollectGame.java:281-289). Off the board nothing happens. On the board
     * the player moves there, even onto a pond or bad fruit, and then meets the occupant as
     * `MeetAt` says.
     */
    method Move(x: int, y: int) returns (r: Outcome)
      requires Valid()
      modifies this, player, orchard.FootprintAt(x, y)
      ensures Valid()
      ensures gen == old(gen) && collected.Keys == old(collected.Keys)
      ensures forall k | k in collected :: collected[k] >= old(collected[k])
      ensures !orchard.OnBoard(x, y) ==>
                r == Pass && player.x == old(player.x) && player.y == old(player.y) &&
                collected == old(collected) && ended == old(ended)
      ensures orchard.OnBoard(x, y) ==> player.x == x && player.y == y
      ensures orchard.OnBoard(x, y) && old(ViewAt(orchard.GetObject(x, y))).None? ==>
                r == Fail(NULL_CELL) && collected == old(collected) && ended == old(ended)
      ensures orchard.OnBoard(x, y) && old(ViewAt(orchard.GetObject(x, y))).Some? ==>
                var e := MeetView(old(ViewAt(orchard.GetObject(x, y))).value, Some(old(collected)));
                e.Ok? && e.value.ledger == Some(collected) && r == Pass &&
                ViewAt(orchard.GetObject(x, y)) == Some(e.value.after) &&
                ended == (e.value.killed || GoalMet(collected))
    {
      if !orchard.OnBoard(x, y) {
        return Pass;
      }
      ghost var before := ViewAt(orchard.GetObject(x, y));
      player.Move(x, y);
      assert ViewAt(orchard.GetObject(x, y)) == before;
      r := MeetAt(x, y);
      if r.Pass? {
        ghost var after := ViewAt(orchard.GetObject(x, y));
        var goal := GoalAccomplished();
        if goal {
          EndGame();
        }
        assert ViewAt(orchard.GetObject(x, y)) == after;
      }
    }

    /**
     * The occupant at (x, y) meets the player and `ended` becomes whether the player was killed.
     * An empty position fails, with the ledger and `ended` as they were.
     */
    method MeetAt(x: int, y: int) returns (r: Outcome)
      requires Valid() && orchard.OnBoard(x, y)
      modifies this, orchard.FootprintAt(x, y)
      ensures Valid()
      ensures gen == old(gen) && collected.Keys == old(collected.Keys)
      ensures forall k | k in collected :: collected[k] >= old(collected[k])
      ensures old(ViewAt(orchard.GetObject(x, y))).None? ==>
                r == Fail(NULL_CELL) && collected == old(collected) && ended == old(ended)
      ensures old(ViewAt(orchard.GetObject(x, y))).Some? ==>
                var e := MeetView(old(ViewAt(orchard.GetObject(x, y))).value, Some(old(collected)));
                e.Ok? && e.value.ledger == Some(collected) && r == Pass &&
                ViewAt(orchard.GetObject(x, y)) == Some(e.value.after) &&
                ended == e.value.killed
    {
      var obj := orchard.GetObject(x, y);
      if obj.None? {
        return Fail(NULL_CELL);
      }
      ghost var keys := collected.Keys;
      assert obj.value.Tree? ==> obj.value.tree.kind in keys;
      var met := MeetPlayer(obj.value, Some(collected));
      assert met.Ok?;
      var (killed, ledger) := met.value;
      assert ledger.Some? && ledger.value.Keys == keys;
      collected := ledger.value;
      ended := killed;
      r := Pass;
    }

    /**
     * nextGen() (src/FruitCollectGame.java:302-325): every tree advances one generation as
     * `Advanced` says, where it ripens when `Ripens` holds of its position, the picks and the
     * player's position; ponds and empty positions stay as they are, and the generation count
     * goes up by one. `picks` are the MAX_MATURE_PER_GEN positions the source draws at random.
     */
    method NextGen(picks: seq<(int, int)>)
      requires Valid()
      requires |picks| == MAX_MATURE_PER_GEN
      requires forall i | 0 <= i < |picks| :: orchard.OnBoard(picks[i].0, picks[i].1)
      modifies this, orchard.Pos.Keys
      ensures Valid()
      ensures gen == old(gen) + 1
      ensures collected == old(collected) && ended == old(ended)
      ensures forall t | t in orchard.Pos ::
                t.State() == Advanced(old(t.State()), Ripens(orchard.Pos[t], picks, player.x, player.y))
      ensures old(TreesValid()) ==> TreesValid()
      ensures forall y, x | 0 <= y < orchard.height && 0 <= x < orchard.width ::
                orchard.orchard[y, x] == old(orchard.orchard[y, x])
    {
      SpoilAll();
      MaturePicks(picks);
      gen := gen + 1;
    }

    /** The first loop of nextGen, column by column: every mature tree's fruit turns bad. */
    method SpoilAll()
      requires orchard.Valid()
      modifies orchard.Pos.Keys
      ensures forall t | t in orchard.Pos :: t.State() == TurnedBad(old(t.State()))
    {
      var x := 0;
      while x < orchard.GetWidth()
        invariant 0 <= x <= orchard.width
        invariant forall t | t in orchard.Pos ::
                    t.State() == if orchard.Pos[t].0 < x then TurnedBad(old(t.State())) else old(t.State())
      {
        SpoilColumn(x);
        x := x + 1;
      }
    }

    /** The inner loop of the first loop of nextGen: the trees of column x turn bad if mature. */
    method SpoilColumn(x: int)
      requires orchard.Valid() && 0 <= x < orchard.width
      modifies orchard.Pos.Keys
      ensures forall t | t in orchard.Pos ::
                t.State() == if orchard.Pos[t].0 == x then TurnedBad(old(t.State())) else old(t.State())
    {
      var y := 0;
      while y < orchard.GetHeight()
        invariant 0 <= y <= orchard.height
        invariant forall t | t in orchard.Pos ::
                    t.State() == if orchard.Pos[t].0 == x && orchard.Pos[t].1 < y then TurnedBad(old(t.State())) else old(t.State())
      {
        var obj := orchard.GetObject(x, y);
        if obj.Some? && obj.value.Tree? {
          obj.value.tree.TurnBad();
        }
        y := y + 1;
      }
    }

    /** The second loop of nextGen: each pick off the player's row and column matures the tree there. */
    method MaturePicks(picks: seq<(int, int)>)
      requires orchard.Valid()
      requires |picks| == MAX_MATURE_PER_GEN
      requires forall i | 0 <= i < |picks| :: orchard.OnBoard(picks[i].0, picks[i].1)
      modifies orchard.Pos.Keys
      ensures forall t | t in orchard.Pos ::
                t.State() == if Ripens(orchard.Pos[t], picks, player.x, player.y) then Matured(old(t.State())) else old(t.State())
    {
      var i := 0;
      while i < MAX_MATURE_PER_GEN
        invariant 0 <= i <= MAX_MATURE_PER_GEN
        invariant forall t | t in orchard.Pos ::
                    t.State() == if Ripens(orchard.Pos[t], picks[..i], player.x, player.y) then Matured(old(t.State())) else old(t.State())
      {
        var (rx, ry) := picks[i];
        if rx != player.GetX() && ry != player.GetY() {
          var obj := orchard.GetObject(rx, ry);
          if obj.Some? && obj.value.Tree? {
            obj.value.tree.Mature();
          }
        }
        assert picks[..i + 1] == picks[..i] + [picks[i]];
        i := i + 1;
      }
      assert picks[..i] == picks;
    }
  }
}
