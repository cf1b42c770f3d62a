/** The grid page: one cell per position, counting the items of the container there. */
module GridView {
  import opened Sequences
  import opened Labels
  import opened Schema
  import opened Resize

  datatype Cell = Cell(coord: string, col: int, row: int, count: nat, isEmpty: bool, dark: bool, containerId: int)

  datatype GridRow = GridRow(letter: char, cells: seq<Cell>)

  function ContainersAt(db: Tables, pos: Pos): set<int> {
    set c | c in db.containers && db.containers[c] == pos
  }

  /** A position without container shows as container 0 with no items. */
  function CellAt(db: Tables, col: int, row: int): Cell {
    var here := ContainersAt(db, Pos(col, row));
    var id := if here == {} then 0 else Least(here);
    var count := if here == {} then 0 else |ItemsIn(db, id)|;
    Cell(LabelFor(col, row), col, row, count, count == 0, (col + row) % 2 != 0, id)
  }

  type CellMap = map<Pos, (int, nat)>

  /** The map gives the position of each of the containers `ids` its container and item count. */
  ghost predicate Tallied(db: Tables, ids: seq<int>, info: CellMap) {
    && (forall p :: p in info ==> info[p].0 in db.containers && db.containers[info[p].0] == p && info[p].1 == |ItemsIn(db, info[p].0)|)
    && (forall c :: c in ids && c in db.containers ==> db.containers[c] in info)
  }

  lemma NothingTallied(db: Tables)
    ensures Tallied(db, [], map[])
  {
  }

  function Tally(db: Tables, info: CellMap, c: int): CellMap
    requires c in db.containers
  {
    info[db.containers[c] := (c, |ItemsIn(db, c)|)]
  }

  lemma TallyNext(db: Tables, ids: seq<int>, info: CellMap, c: int)
    requires Tallied(db, ids, info) && c in db.containers
    ensures Tallied(db, ids + [c], Tally(db, info, c))
  {
  }

  /** The cell as it is put together from the map; a missing position reads as container 0. */
  function CellFrom(info: CellMap, col: int, row: int): Cell {
    var (id, count) := if Pos(col, row) in info then info[Pos(col, row)] else (0, 0);
    Cell(LabelFor(col, row), col, row, count, count == 0, (col + row) % 2 != 0, id)
  }

  /** Once every container is tallied the map holds what the cells show. */
  lemma CellInfo(db: Tables, info: CellMap, pos: Pos)
    requires WellFormed(db) && Tallied(db, Scan(db.containers.Keys), info)
    ensures CellAt(db, pos.col, pos.row) == CellFrom(info, pos.col, pos.row)
  {
  }

  ghost predicate IsGrid(db: Tables, grid: seq<GridRow>) {
    && |grid| == db.rows
    && forall r :: 0 <= r < |grid| ==>
         && grid[r].letter == RowChar(r + 1)
         && |grid[r].cells| == db.cols
         && forall c :: 0 <= c < |grid[r].cells| ==> grid[r].cells[c] == CellAt(db, c + 1, r + 1)
  }

  /** The cell shows its own column and row, the number of items at that place and the container there, 0 if none. */
  ghost predicate TellsCell(db: Tables, cell: Cell, col: int, row: int) {
    && cell.col == col && cell.row == row && cell.coord == LabelFor(col, row)
    && cell.count == |ItemsAt(db, Pos(col, row))| && (cell.isEmpty <==> cell.count == 0)
    && (cell.dark <==> (col + row) % 2 == 1)
    && (forall c :: c in db.containers && db.containers[c].col == col && db.containers[c].row == row ==> cell.containerId == c)
    && (!Occupied(db, Pos(col, row)) ==> cell.containerId == 0)
  }

  /** One row of cells for every row, one cell for every column. */
  ghost predicate TellsGrid(db: Tables, grid: seq<GridRow>) {
    && |grid| == db.rows
    && forall r :: 0 <= r < |grid| ==>
         && grid[r].letter == RowChar(r + 1) && |grid[r].cells| == db.cols
         && forall c :: 0 <= c < |grid[r].cells| ==> TellsCell(db, grid[r].cells[c], c + 1, r + 1)
  }

  function RowTotal(cells: seq<Cell>): nat {
    if cells == [] then 0 else RowTotal(cells[..|cells| - 1]) + cells[|cells| - 1].count
  }

  function GridTotal(grid: seq<GridRow>): nat {
    if grid == [] then 0 else GridTotal(grid[..|grid| - 1]) + RowTotal(grid[|grid| - 1].cells)
  }

  /** The items whose container sits in the first `cols` columns of `row`. */
  ghost function ItemsInRow(db: Tables, row: int, cols: int): set<int> {
    set i | i in db.items && db.items[i].container in db.containers
            && db.containers[db.items[i].container].row == row && 1 <= db.containers[db.items[i].container].col <= cols
  }

  ghost function ItemsInRect(db: Tables, rows: int, cols: int): set<int> {
    set i | i in db.items && db.items[i].container in db.containers
            && InRect(db.containers[db.items[i].container], rows, cols)
  }

  ghost function ItemsAt(db: Tables, pos: Pos): set<int> {
    set i | i in db.items && db.items[i].container in db.containers && db.containers[db.items[i].container] == pos
  }

  /** A cell counts the items at its position, and names the container there. */
  lemma CellCounts(db: Tables, col: int, row: int)
    requires WellFormed(db)
    ensures CellAt(db, col, row).count == |ItemsAt(db, Pos(col, row))|
    ensures forall c :: c in db.containers && db.containers[c] == Pos(col, row) ==> CellAt(db, col, row).containerId == c
  {
    var pos := Pos(col, row);
    var here := ContainersAt(db, pos);
    if here == {} {
      assert forall c :: c in db.containers && db.containers[c] == pos ==> c in here;
      assert ItemsAt(db, pos) == {};
    } else {
      var id := Least(here);
      assert id in here;
      assert ItemsAt(db, pos) == ItemsIn(db, id);
    }
  }

  lemma CellTells(db: Tables, col: int, row: int)
    requires WellFormed(db)
    ensures TellsCell(db, CellAt(db, col, row), col, row)
  {
    hide ItemsAt, ItemsIn, LabelFor, WellFormed;
    CellCounts(db, col, row);
    var here := ContainersAt(db, Pos(col, row));
    if here != {} {
      assert Least(here) in here;
    }
  }

  lemma GridTells(db: Tables, grid: seq<GridRow>)
    requires WellFormed(db) && IsGrid(db, grid)
    ensures TellsGrid(db, grid)
  {
    hide CellAt, TellsCell, WellFormed, RowChar;
    forall r, c | 0 <= r < |grid| && 0 <= c < |grid[r].cells|
      ensures TellsCell(db, grid[r].cells[c], c + 1, r + 1)
    {
      CellTells(db, c + 1, r + 1);
    }
  }

  lemma OneMoreCell(db: Tables, row: int, n: int)
    requires n >= 1
    ensures |ItemsInRow(db, row, n)| == |ItemsInRow(db, row, n - 1)| + |ItemsAt(db, Pos(n, row))|
  {
    var before, cell := ItemsInRow(db, row, n - 1), ItemsAt(db, Pos(n, row));
    forall i ensures i in ItemsInRow(db, row, n) <==> i in before + cell { }
    assert ItemsInRow(db, row, n) == before + cell;
    forall i ensures i !in before * cell { }
    assert before * cell == {};
  }

  lemma {:induction false} RowCounts(db: Tables, row: int, cells: seq<Cell>)
    requires WellFormed(db)
    requires forall c :: 0 <= c < |cells| ==> cells[c] == CellAt(db, c + 1, row)
    ensures RowTotal(cells) == |ItemsInRow(db, row, |cells|)|
  {
    hide CellAt, ItemsAt, WellFormed;
    var n := |cells|;
    if n == 0 {
      forall i ensures i !in ItemsInRow(db, row, 0) { }
      assert ItemsInRow(db, row, 0) == {};
    } else {
      RowCounts(db, row, cells[..n - 1]);
      CellCounts(db, n, row);
      OneMoreCell(db, row, n);
    }
  }

  lemma OneMoreRow(db: Tables, n: int, cols: int)
    requires n >= 1
    ensures |ItemsInRect(db, n, cols)| == |ItemsInRect(db, n - 1, cols)| + |ItemsInRow(db, n, cols)|
  {
    var before, row := ItemsInRect(db, n - 1, cols), ItemsInRow(db, n, cols);
    forall i ensures i in ItemsInRect(db, n, cols) <==> i in before + row { }
    assert ItemsInRect(db, n, cols) == before + row;
    forall i ensures i !in before * row { }
    assert before * row == {};
  }

  lemma {:induction false} RowsCount(db: Tables, grid: seq<GridRow>, cols: int)
    requires WellFormed(db)
    requires forall r :: 0 <= r < |grid| ==>
               |grid[r].cells| == cols && forall c :: 0 <= c < cols ==> grid[r].cells[c] == CellAt(db, c + 1, r + 1)
    ensures GridTotal(grid) == |ItemsInRect(db, |grid|, cols)|
  {
    hide ItemsInRow, CellAt, WellFormed;
    var n := |grid|;
    if n == 0 {
      forall i ensures i !in ItemsInRect(db, 0, cols) { }
      assert ItemsInRect(db, 0, cols) == {};
    } else {
      RowsCount(db, grid[..n - 1], cols);
      RowCounts(db, n, grid[n - 1].cells);
      OneMoreRow(db, n, cols);
    }
  }

  /** On a full grid the cells together count every item once. */
  lemma GridCountsEveryItem(db: Tables, grid: seq<GridRow>)
    requires WellFormed(db) && FullGrid(db) && IsGrid(db, grid)
    ensures GridTotal(grid) == |db.items|
  {
    RowsCount(db, grid, db.cols);
    forall i | i in db.items
      ensures i in ItemsInRect(db, db.rows, db.cols)
    {
      assert Occupied(db, db.containers[db.items[i].container]);
    }
    assert ItemsInRect(db, db.rows, db.cols) == db.items.Keys;
  }

  lemma CellOnFullGrid(db: Tables, col: int, row: int)
    requires WellFormed(db) && FullGrid(db) && InRect(Pos(col, row), db.rows, db.cols)
    ensures var id := CellAt(db, col, row).containerId; id in db.containers && db.containers[id] == Pos(col, row)
  {
    assert Occupied(db, Pos(col, row));
    CellCounts(db, col, row);
  }

  lemma CellCoord(db: Tables, col: int, row: int)
    ensures CellAt(db, col, row).coord == LabelFor(col, row)
  {
  }

  /** On a full grid no two cells share a container, nor, as long as row letters differ, a label. */
  lemma GridCellsDiffer(db: Tables, grid: seq<GridRow>, r: int, c: int, r': int, c': int)
    requires WellFormed(db) && FullGrid(db) && IsGrid(db, grid)
    requires 0 <= r < |grid| && 0 <= r' < |grid| && 0 <= c < db.cols && 0 <= c' < db.cols && (r, c) != (r', c')
    ensures grid[r].cells[c].containerId != grid[r'].cells[c'].containerId
    ensures db.rows <= LAST_ROW ==> grid[r].cells[c].coord != grid[r'].cells[c'].coord
  {
    hide WellFormed, FullGrid, LabelFor, CellAt;
    CellOnFullGrid(db, c + 1, r + 1);
    CellOnFullGrid(db, c' + 1, r' + 1);
    CellCoord(db, c + 1, r + 1);
    CellCoord(db, c' + 1, r' + 1);
    if db.rows <= LAST_ROW && LabelFor(c + 1, r + 1) == LabelFor(c' + 1, r' + 1) {
      LabelInjective(c + 1, r + 1, c' + 1, r' + 1);
    }
  }
}
