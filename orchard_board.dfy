/**
 * The orchard board (src/OrchardBoard.java): a rectangular grid of possibly empty positions,
 * stored row-major so that position (x, y) is `orchard[y, x]`. Construction deep-copies the
 * caller's grid; afterwards the grid itself never changes, but the trees in it are live objects
 * that the game session mutates through the references `GetObject` hands out.
 */
module OrchardBoards {
  import opened Wrappers
  import opened FruitTrees
  import opened OrchardObjects

  const NULL_ORCHARD := "orchard is null"
  const EMPTY_ORCHARD := "empty orchard"

  /** `parts` separated by `sep`, with no separator after the last part. */
  function Join(parts: seq<string>, sep: string): string {
    if |parts| == 0 then ""
    else if |parts| == 1 then parts[0]
    else parts[0] + sep + Join(parts[1..], sep)
  }

  /** The pieces of `s` between newlines. */
  function Split(s: string): (r: seq<string>)
    ensures |r| > 0
  {
    if s == [] then [""]
    else
      var rest := Split(s[1..]);
      if s[0] == '\n' then [""] + rest else [[s[0]] + rest[0]] + rest[1..]
  }

  lemma {:induction false} JoinSnoc(parts: seq<string>, sep: string, last: string)
    requires |parts| > 0
    ensures Join(parts + [last], sep) == Join(parts, sep) + sep + last
  {
    if |parts| > 1 {
      assert (parts + [last])[1..] == parts[1..] + [last];
      JoinSnoc(parts[1..], sep, last);
    }
  }

  lemma {:induction false} SplitNoNewline(s: string)
    requires '\n' !in s
    ensures Split(s) == [s]
  {
    if s != [] {
      SplitNoNewline(s[1..]);
      assert [s[0]] + s[1..] == s;
    }
  }

  lemma {:induction false} SplitAfterLine(line: string, rest: string)
    requires '\n' !in line
    ensures Split(line + "\n" + rest) == [line] + Split(rest)
  {
    if line == [] {
      assert line + "\n" + rest == "\n" + rest;
      assert ("\n" + rest)[1..] == rest;
    } else {
      assert (line + "\n" + rest)[1..] == line[1..] + "\n" + rest;
      SplitAfterLine(line[1..], rest);
      assert [line[0]] + line[1..] == line;
    }
  }

  /** Splitting the joined rows at newlines gives the rows back, when no row holds a newline. */
  lemma {:induction false} SplitJoin(parts: seq<string>)
    requires |parts| > 0
    requires forall i :: 0 <= i < |parts| ==> '\n' !in parts[i]
    ensures Split(Join(parts, "\n")) == parts
  {
    if |parts| == 1 {
      SplitNoNewline(parts[0]);
    } else {
      SplitAfterLine(parts[0], Join(parts[1..], "\n"));
      SplitJoin(parts[1..]);
      assert [parts[0]] + parts[1..] == parts;
    }
  }

  /** The joined text ends with the last part: no separator trails. */
  lemma {:induction false} JoinEndsWithLast(parts: seq<string>, sep: string)
    requires |parts| > 0
    ensures var s := Join(parts, sep); var last := parts[|parts| - 1];
      |last| <= |s| && s[|s| - |last|..] == last
  {
    if |parts| > 1 {
      JoinEndsWithLast(parts[1..], sep);
      var t := Join(parts[1..], sep);
      assert Join(parts, sep) == (parts[0] + sep) + t;
    }
  }

  /** A join of parts without line breaks, with a separator without them, has none. */
  lemma {:induction false} JoinNoNewline(parts: seq<string>, sep: string)
    requires '\n' !in sep
    requires forall i :: 0 <= i < |parts| ==> '\n' !in parts[i]
    ensures '\n' !in Join(parts, sep)
  {
    if |parts| > 1 {
      JoinNoNewline(parts[1..], sep);
      assert Join(parts, sep) == parts[0] + sep + Join(parts[1..], sep);
    }
  }

  /** How Arrays.toString prints one element: "null", "Pond" or the fruit type. */
  function ElementString(o: Option<Cell>): string {
    if o.None? then "null" else ToString(o.value)
  }

  class OrchardBoard {
    const orchard: array2<Option<Cell>>
    const width: int
    const height: int
    /** Where each tree of the board stands. A bijection onto the tree-holding positions, so no tree fills two cells. */
    ghost const Pos: map<FruitTree, (int, int)>

    ghost predicate Valid()
      reads orchard
    {
      && width == orchard.Length1 && height == orchard.Length0
      && width > 0 && height > 0
      && (forall y, x | 0 <= y < height && 0 <= x < width && orchard[y, x].Some? && orchard[y, x].value.Tree? ::
            orchard[y, x].value.tree in Pos && Pos[orchard[y, x].value.tree] == (x, y))
      && (forall t | t in Pos ::
            0 <= Pos[t].0 < width && 0 <= Pos[t].1 < height && orchard[Pos[t].1, Pos[t].0] == Some(Tree(t)))
    }

    /**
     * The deep copy (src/OrchardBoard.java:25-36): the board has the dimensions of `setup`, every
     * position holds a clone of what `setup` holds there (nulls stay null), and every tree on the
     * board is a new object, so later changes to `setup` or to its trees do not reach the board.
     * The null and empty cases the source rejects first are `Build`'s.
     */
    constructor (setup: array2<Option<Cell>>)
      requires setup.Length0 > 0 && setup.Length1 > 0
      ensures Valid() && fresh(orchard)
      ensures width == setup.Length1 && height == setup.Length0
      ensures forall t | t in Pos :: fresh(t)
      ensures forall y, x | 0 <= y < height && 0 <= x < width ::
                ViewAt(orchard[y, x]) == CloneView(ViewAt(setup[y, x]))
    {
      var clone, pos := DeepCopy(setup);
      orchard := clone;
      width := setup.Length1;
      height := setup.Length0;
      Pos := pos;
    }

    /** The copy loop of the constructor: a new grid of the same dimensions holding clones of the occupants. */
    static method DeepCopy(setup: array2<Option<Cell>>) returns (clone: array2<Option<Cell>>, ghost pos: map<FruitTree, (int, int)>)
      ensures fresh(clone) && clone.Length0 == setup.Length0 && clone.Length1 == setup.Length1
      ensures forall y, x | 0 <= y < clone.Length0 && 0 <= x < clone.Length1 ::
                ViewAt(clone[y, x]) == CloneView(ViewAt(setup[y, x]))
      ensures forall y, x | 0 <= y < clone.Length0 && 0 <= x < clone.Length1 && clone[y, x].Some? && clone[y, x].value.Tree? ::
                clone[y, x].value.tree in pos && pos[clone[y, x].value.tree] == (x, y)
      ensures forall t | t in pos ::
                fresh(t) && 0 <= pos[t].0 < clone.Length1 && 0 <= pos[t].1 < clone.Length0 && clone[pos[t].1, pos[t].0] == Some(Tree(t))
    {
      var h, w := setup.Length0, setup.Length1;
      clone := new Option<Cell>[h, w]((_, _) => None);
      pos := map[];
      var row := 0;
      while row < h
        invariant 0 <= row <= h
        invariant fresh(clone)
        invariant forall y, x | 0 <= y < row && 0 <= x < w ::
                    ViewAt(clone[y, x]) == CloneView(ViewAt(setup[y, x]))
        invariant forall y, x | 0 <= y < row && 0 <= x < w && clone[y, x].Some? && clone[y, x].value.Tree? ::
                    clone[y, x].value.tree in pos && pos[clone[y, x].value.tree] == (x, y)
        invariant forall t | t in pos ::
                    fresh(t) && 0 <= pos[t].0 < w && 0 <= pos[t].1 < row && clone[pos[t].1, pos[t].0] == Some(Tree(t))
      {
        label before:
        ghost var cols := CopyRow(setup, clone, row);
        forall y, x | 0 <= y < row && 0 <= x < w
          ensures ViewAt(clone[y, x]) == CloneView(ViewAt(setup[y, x]))
        {
          assert clone[y, x] == old@before(clone[y, x]);
        }
        assert forall t | t in cols :: t !in pos;
        pos := pos + cols;
        row := row + 1;
      }
    }

    /**
     * One row of the deep copy: row `row` of `clone` receives clones of row `row` of `setup`;
     * `cols` says in which column each new tree stands.
     */
    static method CopyRow(setup: array2<Option<Cell>>, clone: array2<Option<Cell>>, row: int)
      returns (ghost cols: map<FruitTree, (int, int)>)
      requires clone != setup && clone.Length0 == setup.Length0 && clone.Length1 == setup.Length1
      requires 0 <= row < clone.Length0
      modifies clone
      ensures forall y, x | 0 <= y < clone.Length0 && 0 <= x < clone.Length1 && y != row ::
                clone[y, x] == old(clone[y, x])
      ensures forall x | 0 <= x < clone.Length1 :: ViewAt(clone[row, x]) == CloneView(ViewAt(setup[row, x]))
      ensures forall x | 0 <= x < clone.Length1 && clone[row, x].Some? && clone[row, x].value.Tree? ::
                clone[row, x].value.tree in cols && cols[clone[row, x].value.tree] == (x, row)
      ensures forall t | t in cols ::
                fresh(t) && 0 <= cols[t].0 < clone.Length1 && cols[t].1 == row && clone[row, cols[t].0] == Some(Tree(t))
    {
      cols := map[];
      var col := 0;
      while col < clone.Length1
        invariant 0 <= col <= clone.Length1
        invariant forall y, x | 0 <= y < clone.Length0 && 0 <= x < clone.Length1 && y != row ::
                    clone[y, x] == old(clone[y, x])
        invariant forall x | 0 <= x < col :: ViewAt(clone[row, x]) == CloneView(ViewAt(setup[row, x]))
        invariant forall x | 0 <= x < col && clone[row, x].Some? && clone[row, x].value.Tree? ::
                    clone[row, x].value.tree in cols && cols[clone[row, x].value.tree] == (x, row)
        invariant forall t | t in cols ::
                    fresh(t) && 0 <= cols[t].0 < col && cols[t].1 == row && clone[row, cols[t].0] == Some(Tree(t))
      {
        label before:
        ghost var t := CopyCell(setup, clone, row, col);
        forall x | 0 <= x < col
          ensures ViewAt(clone[row, x]) == CloneView(ViewAt(setup[row, x]))
        {
          assert clone[row, x] == old@before(clone[row, x]);
        }
        if t.Some? {
          cols := cols[t.value := (col, row)];
        }
        col := col + 1;
      }
    }

    /** One position of the deep copy: a clone of `setup[row, col]`, or null for null; `t` is the new tree, if any. */
    static method CopyCell(setup: array2<Option<Cell>>, clone: array2<Option<Cell>>, row: int, col: int)
      returns (ghost t: Option<FruitTree>)
      requires clone != setup && clone.Length0 == setup.Length0 && clone.Length1 == setup.Length1
      requires 0 <= row < clone.Length0 && 0 <= col < clone.Length1
      modifies clone
      ensures forall y, x | 0 <= y < clone.Length0 && 0 <= x < clone.Length1 && (y, x) != (row, col) ::
                clone[y, x] == old(clone[y, x])
      ensures ViewAt(clone[row, col]) == CloneView(ViewAt(setup[row, col]))
      ensures t.Some? <==> clone[row, col].Some? && clone[row, col].value.Tree?
      ensures t.Some? ==> fresh(t.value) && clone[row, col] == Some(Tree(t.value))
    {
      t := None;
      var copy := None;
      if setup[row, col].Some? {
        var c := Clone(setup[row, col].value);
        copy := Some(c);
        if c.Tree? {
          t := Some(c.tree);
        }
      }
      clone[row, col] := copy;
    }

    /** new OrchardBoard(setup) with its checks (src/OrchardBoard.java:21-39): null and empty grids are rejected. */
    static method Build(setup: array2?<Option<Cell>>) returns (r: Result<OrchardBoard>)
      ensures setup == null ==> r == Err(NULL_ORCHARD)
      ensures setup != null && (setup.Length0 == 0 || setup.Length1 == 0) ==> r == Err(EMPTY_ORCHARD)
      ensures setup != null && setup.Length0 > 0 && setup.Length1 > 0 ==> r.Ok?
      ensures r.Ok? ==>
                setup != null && fresh(r.value) && fresh(r.value.orchard) && r.value.Valid() &&
                r.value.width == setup.Length1 && r.value.height == setup.Length0 &&
                (forall t | t in r.value.Pos :: fresh(t)) &&
                (forall y, x | 0 <= y < setup.Length0 && 0 <= x < setup.Length1 ::
                   ViewAt(r.value.orchard[y, x]) == CloneView(ViewAt(setup[y, x])))
    {
      if setup == null {
        return Err(NULL_ORCHARD);
      }
      if setup.Length0 > 0 && setup.Length1 > 0 {
        var b := new OrchardBoard(setup);
        return Ok(b);
      }
      return Err(EMPTY_ORCHARD);
    }

    /** getWidth(): the length of the stored rows (the setup's first row). */
    function GetWidth(): (w: int)
      reads orchard
      requires Valid()
      ensures w == orchard.Length1 && w > 0
    {
      width
    }

    /** getHeight(): the number of stored rows. */
    function GetHeight(): (h: int)
      reads orchard
      requires Valid()
      ensures h == orchard.Length0 && h > 0
    {
      height
    }

    /** onBoard(x, y): (x, y) names a stored position, column x of row y. */
    predicate OnBoard(x: int, y: int)
      reads orchard
      ensures Valid() ==> (OnBoard(x, y) <==> 0 <= y < orchard.Length0 && 0 <= x < orchard.Length1)
    {
      0 <= x < width && 0 <= y < height
    }

    /**
     * getObject(x, y): the occupant stored at row y, column x, the very object and not a copy,
     * or null off the board.
     */
    function GetObject(x: int, y: int): (r: Option<Cell>)
      reads orchard
      requires Valid()
      ensures !OnBoard(x, y) ==> r.None?
      ensures OnBoard(x, y) ==> r == orchard[y, x]
      ensures r.Some? && r.value.Tree? ==> r.value.tree in Pos && Pos[r.value.tree] == (x, y)
    {
      if OnBoard(x, y) then orchard[y, x] else None
    }

    /** The tree objects that meeting the player at (x, y) may change: the tree standing there, if any. */
    function FootprintAt(x: int, y: int): (fp: set<object>)
      reads orchard
      requires Valid()
      ensures forall o | o in fp :: o is FruitTree && o as FruitTree in Pos && Pos[o as FruitTree] == (x, y)
    {
      var o := GetObject(x, y);
      if o.Some? then o.value.Footprint() else {}
    }

    /** hasObject(x, y): on the board and not empty. */
    predicate HasObject(x: int, y: int)
      reads orchard
      requires Valid()
      ensures HasObject(x, y) ==> OnBoard(x, y)
      ensures HasObject(x, y) <==> GetObject(x, y).Some?
    {
      OnBoard(x, y) && GetObject(x, y).Some?
    }

    /** Arrays.toString of row `row`: its elements between brackets, separated by ", ". */
    function RowString(row: int): string
      reads orchard
      requires 0 <= row < orchard.Length0
    {
      "[" + Join(seq(orchard.Length1, col requires 0 <= col < orchard.Length1 reads orchard => ElementString(orchard[row, col])), ", ") + "]"
    }

    /** No fruit type on the board contains a line break. */
    ghost predicate KindsOnOneLine()
      reads orchard
    {
      forall y, x | 0 <= y < orchard.Length0 && 0 <= x < orchard.Length1 && orchard[y, x].Some? && orchard[y, x].value.Tree? ::
        '\n' !in orchard[y, x].value.tree.kind
    }

    /**
     * Arrays.toString of a row is bracketed, and holds no line break when no fruit type does: the
     * elements are "null", "Pond" or a type, separated by ", ".
     */
    lemma RowStringShape(row: int)
      requires 0 <= row < orchard.Length0
      ensures var s := RowString(row); |s| >= 2 && s[0] == '[' && s[|s| - 1] == ']'
      ensures KindsOnOneLine() ==> '\n' !in RowString(row)
    {
      var parts := seq(orchard.Length1, col requires 0 <= col < orchard.Length1 reads orchard => ElementString(orchard[row, col]));
      assert RowString(row) == "[" + Join(parts, ", ") + "]";
      if KindsOnOneLine() {
        forall i | 0 <= i < |parts|
          ensures '\n' !in parts[i]
        {
          assert parts[i] == ElementString(orchard[row, i]);
        }
        JoinNoNewline(parts, ", ");
      }
    }

    /**
     * toString() read back line by line gives the row renderings, one per row, when no fruit
     * type contains a line break.
     */
    lemma TextLines()
      requires Valid() && KindsOnOneLine()
      ensures Split(Join(Rows(), "\n")) == Rows()
    {
      var rows := Rows();
      forall i | 0 <= i < |rows|
        ensures '\n' !in rows[i]
      {
        RowStringShape(i);
      }
      SplitJoin(rows);
    }

    function Rows(): (rows: seq<string>)
      reads orchard
      requires Valid()
    {
      seq(orchard.Length0, row requires 0 <= row < orchard.Length0 reads orchard => RowString(row))
    }

    /** toString(): the row strings, one per line, with no newline after the last. */
    method ToString() returns (out: string)
      requires Valid()
      ensures out == Join(Rows(), "\n")
      ensures KindsOnOneLine() ==> Split(out) == Rows()
    {
      ghost var rows := Rows();
      out := "";
      var row := 0;
      while row < height
        invariant 0 <= row <= height
        invariant out == if row == 0 then "" else Join(rows[..row], "\n") + (if row < height then "\n" else "")
      {
        var line := RowString(row);
        if row > 0 {
          JoinSnoc(rows[..row], "\n", line);
          assert rows[..row] + [line] == rows[..row + 1];
        } else {
          assert rows[..1] == [line];
        }
        if row != height - 1 {
          out := out + line + "\n";
        } else {
          out := out + line;
        }
        row := row + 1;
      }
      assert rows[..height] == rows;
      if KindsOnOneLine() {
        TextLines();
      }
    }
  }
}
