/** Resizing the grid: which containers go, which come, and when the request is blocked. */
module Resize {
  import opened Sequences
  import opened Labels
  import opened Schema

  // ---------- the operation ----------

  predicate IsOutside(pos: Pos, rows: int, cols: int) {
    pos.row > rows || pos.col > cols
  }

  function Outside(db: Tables, rows: int, cols: int): set<int> {
    set c | c in db.containers && IsOutside(db.containers[c], rows, cols)
  }

  /** Some container outside the new bounds holds an item. */
  predicate Blocked(db: Tables, rows: int, cols: int) {
    exists i :: i in db.items && db.items[i].container in Outside(db, rows, cols)
  }

  function FillColumn(db: Tables, col: int, row: int, rows: int): Tables
    decreases rows - row
  {
    if row > rows then db
    else FillColumn(InsertContainerOrIgnore(db, Pos(col, row)), col, row + 1, rows)
  }

  function FillGrid(db: Tables, col: int, rows: int, cols: int): Tables
    decreases cols - col
  {
    if col > cols then db
    else FillGrid(FillColumn(db, col, 1, rows), col + 1, rows, cols)
  }

  function Shrunk(db: Tables, rows: int, cols: int): Tables {
    DeleteContainers(db, Outside(db, rows, cols)).(rows := rows, cols := cols)
  }

  function ResizeShelf(db: Tables, rows: int, cols: int): Tables {
    if Blocked(db, rows, cols) then db else FillGrid(Shrunk(db, rows, cols), 1, rows, cols)
  }

  // ---------- the report ----------

  datatype AffectedContainer = AffectedContainer(caption: string, itemCount: nat, items: seq<string>)

  datatype ResizeResult = ResizeResult(rows: int, cols: int, blocked: bool, affected: seq<AffectedContainer>, added: int, removed: int)

  function ItemName(db: Tables, i: int): string {
    if i in db.items then db.items[i].name else ""
  }

  function ItemNames(db: Tables, ids: seq<int>): (r: seq<string>)
    ensures |r| == |ids|
  {
    if ids == [] then [] else ItemNames(db, ids[..|ids| - 1]) + [ItemName(db, ids[|ids| - 1])]
  }

  function LabelOf(db: Tables, c: int): string {
    if c in db.containers then LabelFor(db.containers[c].col, db.containers[c].row) else ""
  }

  function AffectedAt(db: Tables, c: int): AffectedContainer {
    AffectedContainer(LabelOf(db, c), |ItemsIn(db, c)|, ItemNames(db, Scan(ItemsIn(db, c))))
  }

  /** The containers among `cs` that hold items, each with its items. */
  function Affected(db: Tables, cs: seq<int>): seq<AffectedContainer> {
    if cs == [] then []
    else
      var init, last := cs[..|cs| - 1], cs[|cs| - 1];
      Affected(db, init) + if ItemsIn(db, last) == {} then [] else [AffectedAt(db, last)]
  }

  lemma {:induction false} AffectedHas(db: Tables, cs: seq<int>, a: AffectedContainer)
    ensures a in Affected(db, cs) <==> exists c :: c in cs && ItemsIn(db, c) != {} && a == AffectedAt(db, c)
  {
    hide AffectedAt, ItemsIn;
    if cs != [] {
      var init, last := cs[..|cs| - 1], cs[|cs| - 1];
      AffectedHas(db, init, a);
      assert a in Affected(db, cs) <==> a in Affected(db, init) || (ItemsIn(db, last) != {} && a == AffectedAt(db, last));
      forall c ensures c in cs <==> c in init || c == last { LastOrBefore(cs, c); }
    }
  }

  lemma LastOrBefore(cs: seq<int>, c: int)
    requires cs != []
    ensures c in cs <==> c in cs[..|cs| - 1] || c == cs[|cs| - 1]
  {
    assert cs == cs[..|cs| - 1] + [cs[|cs| - 1]];
  }

  /** The report names a container exactly when the request is blocked. */
  lemma AffectedMeans(db: Tables, rows: int, cols: int)
    ensures Affected(db, Scan(Outside(db, rows, cols))) != [] <==> Blocked(db, rows, cols)
  {
    hide AffectedAt;
    var outside := Scan(Outside(db, rows, cols));
    if Affected(db, outside) != [] {
      AffectedHas(db, outside, Affected(db, outside)[0]);
      var c :| c in outside && ItemsIn(db, c) != {};
      var i := Pick(ItemsIn(db, c));
      assert i in db.items && db.items[i].container in Outside(db, rows, cols);
    }
    if i :| i in db.items && db.items[i].container in Outside(db, rows, cols) {
      var c := db.items[i].container;
      assert c in outside && i in ItemsIn(db, c);
      AffectedHas(db, outside, AffectedAt(db, c));
    }
  }

  /** The item lies in a container outside the new bounds. */
  ghost predicate LiesOutside(db: Tables, i: int, rows: int, cols: int) {
    && i in db.items && db.items[i].container in db.containers
    && (db.containers[db.items[i].container].row > rows || db.containers[db.items[i].container].col > cols)
  }

  /** The ids of the items in container `c`, ascending. */
  ghost predicate ListsItems(db: Tables, c: int, ids: seq<int>) {
    Ascending(ids) && forall i :: i in ids <==> i in db.items && db.items[i].container == c
  }

  /** The entry is container `c`: its label, and the number and the names of its items. */
  ghost predicate TellsAffected(db: Tables, c: int, a: AffectedContainer) {
    && c in db.containers && a.caption == LabelFor(db.containers[c].col, db.containers[c].row)
    && exists ids :: ListsItems(db, c, ids) && a.itemCount == |ids| && NamesItems(db, ids, a.items)
  }

  ghost predicate NamesItems(db: Tables, ids: seq<int>, names: seq<string>) {
    |names| == |ids| && forall k :: 0 <= k < |ids| ==> ids[k] in db.items && names[k] == db.items[ids[k]].name
  }

  /** The containers outside the new bounds that hold items, ascending. */
  ghost predicate ListsStuck(db: Tables, cs: seq<int>, rows: int, cols: int) {
    && Ascending(cs)
    && forall c :: c in cs <==> c in db.containers && exists i :: LiesOutside(db, i, rows, cols) && db.items[i].container == c
  }

  /** The report has an entry for every container outside the new bounds that holds items, and no other. */
  ghost predicate TellsReport(db: Tables, report: seq<AffectedContainer>, rows: int, cols: int) {
    exists cs :: ListsStuck(db, cs, rows, cols) && |report| == |cs| && forall k :: 0 <= k < |cs| ==> TellsAffected(db, cs[k], report[k])
  }

  lemma {:induction false} NamesTold(db: Tables, ids: seq<int>)
    requires forall k :: 0 <= k < |ids| ==> ids[k] in db.items
    ensures NamesItems(db, ids, ItemNames(db, ids))
  {
    if ids != [] {
      var init := ids[..|ids| - 1];
      NamesTold(db, init);
    }
  }

  lemma AffectedTold(db: Tables, c: int)
    requires c in db.containers
    ensures TellsAffected(db, c, AffectedAt(db, c))
  {
    hide LabelFor, ItemNames, NamesItems;
    var ids := Scan(ItemsIn(db, c));
    forall k | 0 <= k < |ids| ensures ids[k] in db.items { assert ids[k] in ids; }
    NamesTold(db, ids);
    assert ListsItems(db, c, ids);
  }

  /** The containers among `cs` that hold items. */
  function Stuck(db: Tables, cs: seq<int>): (r: seq<int>)
    ensures forall c :: c in r <==> c in cs && ItemsIn(db, c) != {}
  {
    if cs == [] then [] else
    var init, last := cs[..|cs| - 1], cs[|cs| - 1];
    assert cs == init + [last];
    Stuck(db, init) + if ItemsIn(db, last) == {} then [] else [last]
  }

  lemma {:induction false} StuckAscending(db: Tables, cs: seq<int>)
    requires Ascending(cs)
    ensures Ascending(Stuck(db, cs))
  {
    if cs != [] {
      var init, last := cs[..|cs| - 1], cs[|cs| - 1];
      StuckAscending(db, init);
      var r := Stuck(db, init);
      forall k | 0 <= k < |r| ensures r[k] < last { assert r[k] in r && r[k] in init; }
    }
  }

  lemma {:induction false} AffectedStuck(db: Tables, cs: seq<int>)
    ensures |Affected(db, cs)| == |Stuck(db, cs)|
    ensures forall k :: 0 <= k < |Stuck(db, cs)| ==> Affected(db, cs)[k] == AffectedAt(db, Stuck(db, cs)[k])
  {
    hide AffectedAt;
    if cs != [] {
      AffectedStuck(db, cs[..|cs| - 1]);
    }
  }

  lemma ReportTold(db: Tables, rows: int, cols: int)
    ensures TellsReport(db, Affected(db, Scan(Outside(db, rows, cols))), rows, cols)
  {
    hide AffectedAt, TellsAffected, Affected, Stuck, Scan;
    var outside := Scan(Outside(db, rows, cols));
    var cs := Stuck(db, outside);
    StuckAscending(db, outside);
    AffectedStuck(db, outside);
    forall c
      ensures c in cs <==> c in db.containers && exists i :: LiesOutside(db, i, rows, cols) && db.items[i].container == c
    {
      StuckOne(db, c, rows, cols);
    }
    assert ListsStuck(db, cs, rows, cols);
    forall k | 0 <= k < |cs| ensures TellsAffected(db, cs[k], AffectedAt(db, cs[k])) { assert cs[k] in cs; AffectedTold(db, cs[k]); }
  }

  lemma StuckOne(db: Tables, c: int, rows: int, cols: int)
    ensures c in Outside(db, rows, cols) && ItemsIn(db, c) != {} <==>
              c in db.containers && exists i :: LiesOutside(db, i, rows, cols) && db.items[i].container == c
  {
    if c in Outside(db, rows, cols) && ItemsIn(db, c) != {} {
      var i := Pick(ItemsIn(db, c));
      assert LiesOutside(db, i, rows, cols);
    }
    if i :| LiesOutside(db, i, rows, cols) && db.items[i].container == c {
      assert i in ItemsIn(db, c);
    }
  }

  lemma BlockedMeans(db: Tables, rows: int, cols: int)
    ensures Blocked(db, rows, cols) <==> exists i :: LiesOutside(db, i, rows, cols)
  {
    if i :| i in db.items && db.items[i].container in Outside(db, rows, cols) {
      assert LiesOutside(db, i, rows, cols);
    }
    if i :| LiesOutside(db, i, rows, cols) {
      assert db.items[i].container in Outside(db, rows, cols);
    }
  }

  // ---------- filling in ----------

  predicate InRect(pos: Pos, rows: int, cols: int) {
    1 <= pos.col <= cols && 1 <= pos.row <= rows
  }

  /** `b` adds to `a` new containers and nothing else. */
  ghost predicate OnlyGrows(a: Tables, b: Tables) {
    && b == a.(containers := b.containers, lastContainer := b.lastContainer)
    && (forall c :: c in a.containers ==> c in b.containers && b.containers[c] == a.containers[c])
    && (forall c :: c in b.containers && c !in a.containers ==> c > a.lastContainer)
    && a.lastContainer <= b.lastContainer
    && |a.containers| <= |b.containers|
  }

  lemma InsertOrIgnoreMeans(db: Tables, pos: Pos)
    requires WellFormed(db)
    ensures WellFormed(InsertContainerOrIgnore(db, pos))
    ensures OnlyGrows(db, InsertContainerOrIgnore(db, pos))
    ensures forall p :: Occupied(InsertContainerOrIgnore(db, pos), p) <==> Occupied(db, p) || p == pos
  {
    var b := InsertContainerOrIgnore(db, pos);
    if !Occupied(db, pos) {
      var c := b.lastContainer;
      assert c !in db.containers && b.containers == db.containers[c := pos];
      forall p
        ensures Occupied(b, p) <==> Occupied(db, p) || p == pos
      {
        if d :| d in db.containers && db.containers[d] == p {
          assert b.containers[d] == p;
        }
        assert b.containers[c] == pos;
      }
    }
  }

  lemma {:induction false} FillColumnMeans(db: Tables, col: int, row: int, rows: int)
    requires WellFormed(db)
    ensures var b := FillColumn(db, col, row, rows);
            && WellFormed(b) && OnlyGrows(db, b)
            && forall p :: Occupied(b, p) <==> Occupied(db, p) || (p.col == col && row <= p.row <= rows)
    decreases rows - row
  {
    hide WellFormed, Occupied;
    if row <= rows {
      InsertOrIgnoreMeans(db, Pos(col, row));
      FillColumnMeans(InsertContainerOrIgnore(db, Pos(col, row)), col, row + 1, rows);
    }
  }

  lemma {:induction false} FillGridMeans(db: Tables, col: int, rows: int, cols: int)
    requires WellFormed(db)
    ensures var b := FillGrid(db, col, rows, cols);
            && WellFormed(b) && OnlyGrows(db, b)
            && forall p :: Occupied(b, p) <==> Occupied(db, p) || (col <= p.col <= cols && 1 <= p.row <= rows)
    decreases cols - col
  {
    hide WellFormed, Occupied;
    if col <= cols {
      FillColumnMeans(db, col, 1, rows);
      FillGridMeans(FillColumn(db, col, 1, rows), col + 1, rows, cols);
    }
  }

  // ---------- what a resize does ----------

  lemma ShrunkRows(db: Tables, rows: int, cols: int)
    requires WellFormed(db) && !Blocked(db, rows, cols)
    ensures var s := Shrunk(db, rows, cols);
            && s == db.(rows := rows, cols := cols, containers := db.containers - Outside(db, rows, cols))
  {
    var out := Outside(db, rows, cols);
    assert forall i :: i in db.items ==> db.items[i].container !in out;
    assert (set i | i in db.items && db.items[i].container in out) == {};
    assert db.items - {} == db.items;
    assert (set l | l in db.links && l.0 !in {}) == db.links;
  }

  lemma ShrunkPositions(db: Tables, rows: int, cols: int, p: Pos)
    requires WellFormed(db) && !Blocked(db, rows, cols)
    ensures Occupied(Shrunk(db, rows, cols), p) <==> Occupied(db, p) && !IsOutside(p, rows, cols)
  {
    ShrunkRows(db, rows, cols);
    var s := Shrunk(db, rows, cols);
    if c :| c in db.containers && db.containers[c] == p {
      assert !IsOutside(p, rows, cols) ==> c in s.containers && s.containers[c] == p;
    }
  }

  lemma ShrunkCount(db: Tables, rows: int, cols: int)
    requires WellFormed(db) && !Blocked(db, rows, cols)
    ensures |Shrunk(db, rows, cols).containers| == |db.containers| - |Outside(db, rows, cols)|
  {
  }

  /** Every container outside goes, every container inside stays where it was. */
  lemma ShrunkMeans(db: Tables, rows: int, cols: int)
    requires WellFormed(db) && !Blocked(db, rows, cols)
    ensures var s := Shrunk(db, rows, cols);
            && WellFormed(s)
            && s == db.(rows := rows, cols := cols, containers := s.containers)
            && (forall c :: c in s.containers <==> c in db.containers && !IsOutside(db.containers[c], rows, cols))
            && (forall c :: c in s.containers ==> s.containers[c] == db.containers[c])
            && (forall p :: Occupied(s, p) <==> Occupied(db, p) && !IsOutside(p, rows, cols))
            && |s.containers| == |db.containers| - |Outside(db, rows, cols)|
  {
    hide Occupied, Blocked, WellFormed, Shrunk, IsOutside;
    ShrunkRows(db, rows, cols);
    ShrunkCount(db, rows, cols);
    ShrunkWellFormed(db, rows, cols);
    OutsideMeans(db, rows, cols);
    forall p { ShrunkPositions(db, rows, cols, p); }
  }

  lemma ShrunkWellFormed(db: Tables, rows: int, cols: int)
    requires WellFormed(db)
    ensures WellFormed(Shrunk(db, rows, cols))
  {
  }

  lemma OutsideMeans(db: Tables, rows: int, cols: int)
    ensures forall c :: c in Outside(db, rows, cols) <==> c in db.containers && IsOutside(db.containers[c], rows, cols)
  {
  }

  /**
   From `a` to `b` the shelf took the new size: no item or tag changed, containers within the
   new bounds kept id and place, those outside went, new ones have new ids, and what is occupied
   are the surviving places and the new rectangle.
   */
  ghost predicate Resized(a: Tables, b: Tables, rows: int, cols: int) {
    && b == a.(rows := rows, cols := cols, containers := b.containers, lastContainer := b.lastContainer)
    && a.lastContainer <= b.lastContainer
    && (forall c :: c in a.containers && a.containers[c].row <= rows && a.containers[c].col <= cols ==>
          c in b.containers && b.containers[c] == a.containers[c])
    && (forall c :: c in b.containers && c <= a.lastContainer ==>
          c in a.containers && a.containers[c].row <= rows && a.containers[c].col <= cols)
    && (forall p :: Occupied(b, p) <==>
          (Occupied(a, p) && p.row <= rows && p.col <= cols) || (1 <= p.col <= cols && 1 <= p.row <= rows))
  }

  /** A resize is blocked exactly when an item lies outside the new bounds, and then changes nothing. */
  lemma ResizeMeans(db: Tables, rows: int, cols: int)
    requires WellFormed(db)
    ensures var b := ResizeShelf(db, rows, cols);
            && WellFormed(b)
            && (Blocked(db, rows, cols) <==> exists i :: LiesOutside(db, i, rows, cols))
            && (Blocked(db, rows, cols) ==> b == db)
            && (!Blocked(db, rows, cols) ==> Resized(db, b, rows, cols))
  {
    hide Occupied, WellFormed, LiesOutside;
    BlockedMeans(db, rows, cols);
    if !Blocked(db, rows, cols) {
      ShrunkMeans(db, rows, cols);
      FillGridMeans(Shrunk(db, rows, cols), 1, rows, cols);
      IdsCounted(db);
    }
  }

  lemma ResizedSize(a: Tables, b: Tables, rows: int, cols: int)
    requires Resized(a, b, rows, cols)
    ensures b.rows == rows && b.cols == cols
  {
  }

  lemma IdsCounted(db: Tables)
    requires WellFormed(db)
    ensures forall c :: c in db.containers ==> c <= db.lastContainer
  {
  }

  /** The containers are exactly the rectangle that the shelf row announces. */
  ghost predicate FullGrid(db: Tables) {
    forall p :: Occupied(db, p) <==> 1 <= p.col <= db.cols && 1 <= p.row <= db.rows
  }

  /** A resize that goes through leaves a full grid exactly when no survivor sits at row or column 0 or below. */
  lemma ResizeFillsGridIff(db: Tables, rows: int, cols: int)
    requires WellFormed(db) && !Blocked(db, rows, cols)
    ensures FullGrid(ResizeShelf(db, rows, cols)) <==>
              forall c :: c in db.containers && !IsOutside(db.containers[c], rows, cols) ==> db.containers[c].col >= 1 && db.containers[c].row >= 1
  {
    ResizeMeans(db, rows, cols);
    var b := ResizeShelf(db, rows, cols);
    if FullGrid(b) {
      forall c | c in db.containers && !IsOutside(db.containers[c], rows, cols)
        ensures db.containers[c].col >= 1 && db.containers[c].row >= 1
      {
        assert Occupied(db, db.containers[c]);
        assert Occupied(b, db.containers[c]);
      }
    }
  }

  // ---------- areas ----------

  function Span(n: int): nat {
    if n < 0 then 0 else n
  }

  function Min(a: int, b: int): int {
    if a <= b then a else b
  }

  ghost function ColumnCells(col: int, rows: int): set<Pos> {
    set r | 1 <= r <= rows :: Pos(col, r)
  }

  ghost function RectCells(rows: int, cols: int): set<Pos> {
    set c, r | 1 <= c <= cols && 1 <= r <= rows :: Pos(c, r)
  }

  lemma {:induction false} ColumnSize(col: int, rows: int)
    ensures |ColumnCells(col, rows)| == Span(rows)
    decreases Span(rows)
  {
    if rows >= 1 {
      ColumnSize(col, rows - 1);
      assert ColumnCells(col, rows) == ColumnCells(col, rows - 1) + {Pos(col, rows)};
    } else {
      assert ColumnCells(col, rows) == {};
    }
  }

  lemma RectSplit(rows: int, cols: int)
    requires cols >= 1
    ensures RectCells(rows, cols) == RectCells(rows, cols - 1) + ColumnCells(cols, rows)
    ensures RectCells(rows, cols - 1) !! ColumnCells(cols, rows)
  {
  }

  lemma {:induction false} RectSize(rows: int, cols: int)
    ensures |RectCells(rows, cols)| == Span(rows) * Span(cols)
    decreases Span(cols)
  {
    hide ColumnCells;
    if cols >= 1 {
      RectSize(rows, cols - 1);
      ColumnSize(cols, rows);
      RectSplit(rows, cols);
      OneMoreColumn(Span(rows), Span(cols));
    } else {
      assert RectCells(rows, cols) == {};
    }
  }

  lemma OneMoreColumn(h: int, w: int)
    ensures h * w == h * (w - 1) + h
  {
  }

  lemma {:induction false} PositionCount(db: Tables, cs: set<int>)
    requires PositionsUnique(db) && cs <= db.containers.Keys
    ensures |set c | c in cs :: db.containers[c]| == |cs|
  {
    if cs != {} {
      var d := Pick(cs);
      PositionCount(db, cs - {d});
      assert (set c | c in cs :: db.containers[c]) == (set c | c in cs - {d} :: db.containers[c]) + {db.containers[d]};
      assert db.containers[d] !in (set c | c in cs - {d} :: db.containers[c]);
    }
  }

  /** A well-formed table whose positions form a rectangle has as many rows as the rectangle has cells. */
  lemma RectangleSize(db: Tables, rows: int, cols: int)
    requires WellFormed(db) && forall p :: Occupied(db, p) <==> InRect(p, rows, cols)
    ensures |db.containers| == Span(rows) * Span(cols)
  {
    PositionCount(db, db.containers.Keys);
    RectSize(rows, cols);
    var positions := set c | c in db.containers.Keys :: db.containers[c];
    forall p
      ensures p in positions <==> p in RectCells(rows, cols)
    {
      assert Occupied(db, p) <==> p in positions;
    }
    assert positions == RectCells(rows, cols);
  }

  /** From a full grid, removed = old area - overlap and added = new area - overlap. */
  lemma ResizeAreas(db: Tables, rows: int, cols: int)
    requires WellFormed(db) && FullGrid(db) && !Blocked(db, rows, cols)
    ensures var overlap := Span(Min(db.rows, rows)) * Span(Min(db.cols, cols));
            && |Outside(db, rows, cols)| == Span(db.rows) * Span(db.cols) - overlap
            && |ResizeShelf(db, rows, cols).containers| - |Shrunk(db, rows, cols).containers| == Span(rows) * Span(cols) - overlap
  {
    hide Occupied, WellFormed, Span;
    var s := Shrunk(db, rows, cols);
    var b := ResizeShelf(db, rows, cols);
    ShrunkMeans(db, rows, cols);
    ResizeMeans(db, rows, cols);
    RectangleSize(db, db.rows, db.cols);
    RectangleSize(s, Min(db.rows, rows), Min(db.cols, cols));
    RectangleSize(b, rows, cols);
  }
}
