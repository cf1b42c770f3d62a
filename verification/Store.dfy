/**
 The store: one database, changed by operations that work on a snapshot of the tables and
 commit it as a whole, or leave the tables as they were.
 */
module Store {
  import opened Wrappers
  import opened Sequences
  import opened Text
  import opened Labels
  import opened Schema
  import opened Documents
  import opened Operations
  import opened Resize
  import opened GridView
  import opened ExportQueries
  import opened RoundTrip
  import opened Search
  import opened Duplicates

  /** What a transaction leaves behind: the new tables, or the old ones if it was refused. */
  ghost function After(before: Tables, outcome: Result<Tables>): Tables {
    if outcome.Ok? then outcome.value else before
  }

  class Store {
    var db: Tables

    ghost predicate Valid()
      reads this
    {
      WellFormed(db)
    }

    /** A new database: the schema, one shelf row, and every container of a 5 by 10 grid. */
    constructor Open()
      ensures Valid() && FullGrid(db)
      ensures db.name == "My Organizer" && db.rows == 5 && db.cols == 10
      ensures db.items == map[] && db.tags == map[] && db.links == {}
    {
      db := Tables("My Organizer", 5, 10, map[], map[], map[], {}, 0, 0, 0);
      new;
      var col := 1;
      while col <= 10
        invariant 1 <= col <= 11
        invariant Valid()
        invariant forall p :: Occupied(db, p) <==> 1 <= p.col < col && 1 <= p.row <= 5
        invariant db.name == "My Organizer" && db.rows == 5 && db.cols == 10 && db.items == map[] && db.tags == map[] && db.links == {}
      {
        var row := 1;
        while row <= 5
          invariant 1 <= row <= 6
          invariant Valid()
          invariant forall p :: Occupied(db, p) <==> (1 <= p.col < col && 1 <= p.row <= 5) || (p.col == col && 1 <= p.row < row)
          invariant db.name == "My Organizer" && db.rows == 5 && db.cols == 10 && db.items == map[] && db.tags == map[] && db.links == {}
        {
          InsertOrIgnoreMeans(db, Pos(col, row));
          var inserted := InsertContainer(db, Pos(col, row));
          db := inserted.value;
          row := row + 1;
        }
        col := col + 1;
      }
    }

    // ---------- items ----------

    /** The loop that interns each tag and links it to the new item. */
    static method LinkTags(start: Tables, item: int, tags: seq<string>) returns (r: Result<Tables>)
      ensures r == TagAll(start, item, tags)
    {
      var tx := start;
      assert tags[0..] == tags;
      for k := 0 to |tags|
        invariant TagAll(tx, item, tags[k..]) == TagAll(start, item, tags)
      {
        assert tags[k..][0] == tags[k] && tags[k..][1..] == tags[k + 1..];
        tx := InsertTagOrIgnore(tx, tags[k]);
        var tagId := TagIdOf(tx, tags[k]);
        var linked := InsertLink(tx, item, tagId.value);
        if linked.Refused? {
          return linked;
        }
        tx := linked.value;
      }
      return Ok(tx);
    }

    method CreateItem(containerId: int, name: string, description: Option<string>, tags: seq<string>) returns (r: Result<int>)
      requires Valid()
      modifies this
      ensures Valid()
      ensures var outcome := Operations.CreateItem(old(db), containerId, name, description, tags);
              && db == After(old(db), outcome)
              && r == (if outcome.Ok? then Ok(db.lastItem) else Refused(outcome.why))
    {
      CreateItemMeans(db, containerId, name, description, tags);
      if containerId !in db.containers {
        return Refused(ContainerNotFound);
      }
      var tx := InsertItem(db, containerId, name, description).value;
      var itemId := tx.lastItem;
      var linked := LinkTags(tx, itemId, tags);
      if linked.Refused? {
        return Refused(linked.why);
      }
      db := linked.value;
      r := Ok(db.lastItem);
    }

    method UpdateItem(id: int, name: string, description: Option<string>, containerId: int) returns (r: Result<()>)
      requires Valid()
      modifies this
      ensures Valid()
      ensures var outcome := Operations.UpdateItem(old(db), id, name, description, containerId);
              && db == After(old(db), outcome)
              && r == (if outcome.Ok? then Ok(()) else Refused(outcome.why))
    {
      if id !in db.items {
        return Refused(ItemNotFound);
      }
      if containerId !in db.containers {
        return Refused(ContainerNotFound);
      }
      db := db.(items := db.items[id := Item(containerId, name, description)]);
      r := Ok(());
    }

    method DeleteItem(id: int) returns (r: Result<()>)
      requires Valid()
      modifies this
      ensures Valid()
      ensures var outcome := Operations.DeleteItem(old(db), id);
              && db == After(old(db), outcome)
              && r == (if outcome.Ok? then Ok(()) else Refused(outcome.why))
    {
      if id !in db.items {
        return Refused(ItemNotFound);
      }
      db := DeleteItems(db, {id});
      r := Ok(());
    }

    method AddTagToItem(itemId: int, tagName: string) returns (r: Result<()>)
      requires Valid()
      modifies this
      ensures Valid()
      ensures var outcome := Operations.AddTagToItem(old(db), itemId, tagName);
              && db == After(old(db), outcome)
              && r == (if outcome.Ok? then Ok(()) else Refused(outcome.why))
    {
      AddTagMeans(db, itemId, tagName);
      if itemId !in db.items {
        return Refused(ItemNotFound);
      }
      var tx := InsertTagOrIgnore(db, tagName);
      var tagId := TagIdOf(tx, tagName);
      var linked := InsertLinkOrIgnore(tx, itemId, tagId.value);
      db := linked.value;
      r := Ok(());
    }

    method RemoveTagFromItem(itemId: int, tagName: string) returns (r: Result<()>)
      requires Valid()
      modifies this
      ensures Valid()
      ensures var outcome := Operations.RemoveTagFromItem(old(db), itemId, tagName);
              && db == After(old(db), outcome)
              && r == (if outcome.Ok? then Ok(()) else Refused(outcome.why))
    {
      RemoveTagMeans(db, itemId, tagName);
      var tagId := TagIdOf(db, tagName);
      if tagId.None? {
        return Refused(TagNotFound);
      }
      var left := db.links - {(itemId, tagId.value)};
      if left == db.links {
        return Refused(TagNotAssociated);
      }
      db := db.(links := left);
      r := Ok(());
    }

    // ---------- tags ----------

    method RenameTag(tagId: int, newName: string) returns (r: Result<()>)
      requires Valid()
      modifies this
      ensures Valid()
      ensures var outcome := Operations.RenameTag(old(db), tagId, newName);
              && db == After(old(db), outcome)
              && r == (if outcome.Ok? then Ok(()) else Refused(outcome.why))
    {
      RenameTagMeans(db, tagId, newName);
      if tagId !in db.tags {
        return Refused(TagNotFound);
      }
      if exists u :: u in db.tags && u != tagId && db.tags[u] == newName {
        return Refused(UniqueViolated);
      }
      db := db.(tags := db.tags[tagId := newName]);
      r := Ok(());
    }

    method MergeTags(sourceId: int, targetId: int) returns (r: Result<()>)
      requires Valid()
      modifies this
      ensures Valid()
      ensures var outcome := Operations.MergeTags(old(db), sourceId, targetId);
              && db == After(old(db), outcome)
              && r == (if outcome.Ok? then Ok(()) else Refused(outcome.why))
    {
      MergeRefusedIff(db, sourceId, targetId);
      var copied := CopyLinks(db, sourceId, targetId);
      if copied.Refused? {
        return Refused(copied.why);
      }
      var tx := copied.value;
      tx := tx.(links := set l | l in tx.links && l.1 != sourceId);
      tx := DeleteTag(tx, sourceId);
      db := tx;
      r := Ok(());
    }

    method DeleteUnusedTag(tagId: int) returns (r: Result<()>)
      requires Valid()
      modifies this
      ensures Valid()
      ensures var outcome := Operations.DeleteUnusedTag(old(db), tagId);
              && db == After(old(db), outcome)
              && r == (if outcome.Ok? then Ok(()) else Refused(outcome.why))
    {
      if tagId !in db.tags || exists l: (int, int) :: l in db.links && l.1 == tagId {
        return Refused(TagInUse);
      }
      db := DeleteTag(db, tagId);
      r := Ok(());
    }

    // ---------- the grid ----------

    static method NamesInside(tx: Tables, inside: seq<int>) returns (names: seq<string>)
      ensures names == ItemNames(tx, inside)
    {
      names := [];
      for n := 0 to |inside|
        invariant names == ItemNames(tx, inside[..n])
      {
        assert inside[..n + 1][..n] == inside[..n];
        names := names + [ItemName(tx, inside[n])];
      }
      assert inside[..|inside|] == inside;
    }

    /** The loops that look for items in the containers a resize would remove. */
    static method CollectAffected(tx: Tables, outside: seq<int>) returns (affected: seq<AffectedContainer>)
      ensures affected == Affected(tx, outside)
    {
      affected := [];
      for k := 0 to |outside|
        invariant affected == Affected(tx, outside[..k])
      {
        assert outside[..k + 1][..k] == outside[..k];
        var inside := ItemsIn(tx, outside[k]);
        var names := NamesInside(tx, Scan(inside));
        assert |names| == |inside|;
        if |names| > 0 {
          affected := affected + [AffectedContainer(LabelOf(tx, outside[k]), |names|, names)];
        }
      }
      assert outside[..|outside|] == outside;
    }

    /** The nested loops that insert the missing containers and count them. */
    static method InsertMissing(start: Tables, rows: int, cols: int) returns (tx: Tables, added: int)
      requires WellFormed(start)
      ensures tx == FillGrid(start, 1, rows, cols)
      ensures added == |tx.containers| - |start.containers|
    {
      tx := start;
      added := 0;
      var col := 1;
      while col <= cols
        invariant FillGrid(tx, col, rows, cols) == FillGrid(start, 1, rows, cols)
        invariant added == |tx.containers| - |start.containers| && WellFormed(tx)
        decreases cols - col
      {
        var row := 1;
        while row <= rows
          invariant FillGrid(FillColumn(tx, col, row, rows), col + 1, rows, cols) == FillGrid(start, 1, rows, cols)
          invariant added == |tx.containers| - |start.containers| && WellFormed(tx)
          decreases rows - row
        {
          var inserted := InsertContainer(tx, Pos(col, row));
          if inserted.Ok? {
            InsertedIsOneMore(tx, Pos(col, row));
            tx := inserted.value;
            added := added + 1;
          }
          row := row + 1;
        }
        col := col + 1;
      }
    }

    static lemma InsertedIsOneMore(tx: Tables, pos: Pos)
      requires WellFormed(tx) && !Occupied(tx, pos)
      ensures |InsertContainer(tx, pos).value.containers| == |tx.containers| + 1
    {
    }

    method ResizeShelf(newRows: int, newCols: int) returns (result: ResizeResult)
      requires Valid()
      modifies this
      ensures Valid()
      ensures db == Resize.ResizeShelf(old(db), newRows, newCols)
      ensures result.blocked == Blocked(old(db), newRows, newCols)
      ensures result.affected == Affected(old(db), Scan(Outside(old(db), newRows, newCols)))
      ensures result.rows == db.rows && result.cols == db.cols
      ensures result.removed == if result.blocked then 0 else |Outside(old(db), newRows, newCols)|
      ensures result.added == |db.containers| - (|old(db).containers| - result.removed)
      ensures result.blocked <==> exists i :: LiesOutside(old(db), i, newRows, newCols)
      ensures result.blocked ==> db == old(db)
      ensures !result.blocked ==> Resized(old(db), db, newRows, newCols)
      ensures TellsReport(old(db), result.affected, newRows, newCols)
    {
      hide TellsReport, LiesOutside, Resized, WellFormed, Affected, Blocked, Outside, DeleteContainers, FillGrid, Scan;
      ReportTold(db, newRows, newCols);
      ResizeMeans(db, newRows, newCols);
      AffectedMeans(db, newRows, newCols);
      var affected := CollectAffected(db, Scan(Outside(db, newRows, newCols)));
      if |affected| > 0 {
        return ResizeResult(db.rows, db.cols, true, affected, 0, 0);
      }
      ShrunkMeans(db, newRows, newCols);
      var gone := Outside(db, newRows, newCols);
      var tx := DeleteContainers(db, gone);
      tx := tx.(rows := newRows, cols := newCols);
      var added;
      tx, added := InsertMissing(tx, newRows, newCols);
      db := tx;
      ResizedSize(old(db), db, newRows, newCols);
      result := ResizeResult(newRows, newCols, false, [], added, |gone|);
    }

    /** The loop over the container rows with their item counts. */
    method LoadCells() returns (cells: CellMap)
      requires Valid()
      ensures Tallied(db, Scan(db.containers.Keys), cells)
    {
      hide Tallied, Tally, WellFormed, Scan, Ascending;
      cells := map[];
      assert Tallied(db, [], cells) by { NothingTallied(db); }
      var rows := Scan(db.containers.Keys);
      for k := 0 to |rows|
        invariant Tallied(db, rows[..k], cells)
      {
        assert rows[k] in db.containers.Keys;
        assert rows[..k + 1] == rows[..k] + [rows[k]];
        TallyNext(db, rows[..k], cells, rows[k]);
        cells := Tally(db, cells, rows[k]);
      }
      assert rows[..|rows|] == rows;
    }

    /** The inner loop: the cells of one row. */
    method RowCells(info: CellMap, r: int) returns (cells: seq<Cell>)
      requires Valid() && db.cols >= 0 && Tallied(db, Scan(db.containers.Keys), info)
      ensures |cells| == db.cols && forall k :: 0 <= k < |cells| ==> cells[k] == CellAt(db, k + 1, r)
    {
      hide Tallied, CellAt, CellFrom, WellFormed;
      cells := [];
      for c := 1 to db.cols + 1
        invariant |cells| == c - 1
        invariant forall k :: 0 <= k < |cells| ==> cells[k] == CellAt(db, k + 1, r)
      {
        CellInfo(db, info, Pos(c, r));
        cells := cells + [CellFrom(info, c, r)];
      }
    }

    method UpdateShelfName(name: string)
      requires Valid()
      modifies this
      ensures Valid()
      ensures db == old(db).(name := name)
    {
      db := db.(name := name);
    }

    method GetGridData() returns (grid: seq<GridRow>)
      requires Valid() && db.rows >= 0 && db.cols >= 0
      ensures IsGrid(db, grid)
      ensures TellsGrid(db, grid)
    {
      hide TellsGrid, Tallied, CellAt, LabelFor, RowChar, WellFormed;
      var info := LoadCells();
      grid := [];
      for r := 1 to db.rows + 1
        invariant |grid| == r - 1
        invariant forall j :: 0 <= j < |grid| ==>
                    && grid[j].letter == RowChar(j + 1)
                    && |grid[j].cells| == db.cols
                    && forall k :: 0 <= k < |grid[j].cells| ==> grid[j].cells[k] == CellAt(db, k + 1, j + 1)
      {
        var cells := RowCells(info, r);
        grid := grid + [GridRow(RowChar(r), cells)];
      }
      GridTells(db, grid);
    }

    // ---------- export and import ----------

    method GroupTagRows(links: seq<LinkRow>) returns (tagMap: map<int, seq<string>>)
      ensures forall i :: if i in tagMap then tagMap[i] == TagsFor(links, i) else TagsFor(links, i) == []
    {
      tagMap := map[];
      for k := 0 to |links|
        invariant forall i :: if i in tagMap then tagMap[i] == TagsFor(links[..k], i) else TagsFor(links[..k], i) == []
      {
        assert links[..k + 1] == links[..k] + [links[k]];
        forall i { TagsForNext(links[..k], links[k], i); }
        var itemId := links[k].itemId;
        var soFar := if itemId in tagMap then tagMap[itemId] else [];
        tagMap := tagMap[itemId := soFar + [links[k].tagName]];
      }
      assert links[..|links|] == links;
    }

    static lemma NoItemsYet(links: seq<LinkRow>)
      ensures forall c :: ItemsFor([], links, c) == []
    {
    }

    method GroupItemRows(items: seq<ItemRow>, tagMap: map<int, seq<string>>, ghost links: seq<LinkRow>)
      returns (itemsByContainer: map<int, seq<DocItem>>)
      requires forall i :: if i in tagMap then tagMap[i] == TagsFor(links, i) else TagsFor(links, i) == []
      ensures forall c :: if c in itemsByContainer then itemsByContainer[c] == ItemsFor(items, links, c) else ItemsFor(items, links, c) == []
    {
      hide ItemsFor, TagsFor;
      NoItemsYet(links);
      itemsByContainer := map[];
      for k := 0 to |items|
        invariant forall c :: if c in itemsByContainer then itemsByContainer[c] == ItemsFor(items[..k], links, c)
                              else ItemsFor(items[..k], links, c) == []
      {
        assert items[..k + 1] == items[..k] + [items[k]];
        forall c { ItemsForNext(items[..k], links, items[k], c); }
        var row := items[k];
        var tags := if row.id in tagMap then tagMap[row.id] else [];
        var soFar := if row.containerId in itemsByContainer then itemsByContainer[row.containerId] else [];
        itemsByContainer := itemsByContainer[row.containerId := soFar + [DocItem(row.name, row.description, tags)]];
      }
      assert items[..|items|] == items;
    }

    method ExportAllData() returns (data: Document)
      requires Valid()
      ensures data == Export(db)
      ensures TellsShelf(db, data)
    {
      hide TellsShelf, WellFormed, ContainerRows, ItemRows, LinkRows, TagsFor, ItemsFor, LabelFor, Export;
      var containers := ContainerRows(db);
      var items := ItemRows(db);
      var links := LinkRows(db);
      var tagMap := GroupTagRows(links);
      var itemsByContainer := GroupItemRows(items, tagMap, links);
      var exported: seq<DocContainer> := [];
      for k := 0 to |containers|
        invariant |exported| == k
        invariant forall j :: 0 <= j < k ==> exported[j] == DocContainerOf(items, links, containers[j])
      {
        var c := containers[k];
        var inside := if c.id in itemsByContainer then itemsByContainer[c.id] else [];
        exported := exported + [DocContainer(c.col, c.row, LabelFor(c.col, c.row), inside)];
      }
      assert exported == Regrouped(db);
      RegroupedIsExport(db);
      assert Export(db) == Document(1, db.name, db.rows, db.cols, Export(db).containers) by { ExportHeader(db); }
      data := Document(1, db.name, db.rows, db.cols, exported);
      ExportMeans(db);
    }

    /** The middle loop of an import: the items of one container. */
    static method InsertItems(start: Tables, containerId: int, items: seq<DocItem>) returns (r: Result<Tables>)
      ensures r == AddItems(start, containerId, items)
    {
      var tx := start;
      assert items[0..] == items;
      for k := 0 to |items|
        invariant AddItems(tx, containerId, items[k..]) == AddItems(start, containerId, items)
      {
        assert items[k..][0] == items[k] && items[k..][1..] == items[k + 1..];
        var inserted := InsertItem(tx, containerId, items[k].name, items[k].description);
        if inserted.Refused? {
          return inserted;
        }
        var linked := LinkTags(inserted.value, inserted.value.lastItem, items[k].tags);
        if linked.Refused? {
          return linked;
        }
        tx := linked.value;
      }
      return Ok(tx);
    }

    method ImportAllData(data: Document) returns (r: Result<()>)
      requires Valid()
      modifies this
      ensures Valid()
      ensures var outcome := Import(old(db), data);
              && db == After(old(db), outcome)
              && r == (if outcome.Ok? then Ok(()) else Refused(outcome.why))
      ensures r.Ok? ==> exists told :: TellsShelf(db, told) && SameDocument(data, told)
    {
      hide WellFormed, InsertContainer, AddItems, Cleared, TellsShelf, SameDocument;
      if data.version != 1 {
        return Refused(UnsupportedVersion);
      }
      if Import(db, data).Ok? {
        ImportTells(db, data);
      }
      var tx := Cleared(db, data);
      var cs := data.containers;
      assert cs[0..] == cs;
      for k := 0 to |cs|
        invariant AddContainers(tx, cs[k..]) == Import(old(db), data)
        invariant db == old(db)
      {
        assert cs[k..][0] == cs[k] && cs[k..][1..] == cs[k + 1..];
        var inserted := InsertContainer(tx, Pos(cs[k].col, cs[k].row));
        if inserted.Refused? {
          return Refused(inserted.why);
        }
        var filled := InsertItems(inserted.value, inserted.value.lastContainer, cs[k].items);
        if filled.Refused? {
          return Refused(filled.why);
        }
        tx := filled.value;
      }
      db := tx;
      r := Ok(());
    }

    // ---------- search ----------

    /** Split, dedup and sort a packed tag list. */
    static method UnpackTags(packed: string) returns (tags: seq<string>)
      ensures tags == Unpacked(packed)
    {
      if packed == "" {
        assert FirstOccurrences<string>([]) == [];
        return [];
      }
      var deduped := Dedup(Split(packed));
      var slice := new string[|deduped|](k requires 0 <= k < |deduped| => deduped[k]);
      assert slice[..] == deduped;
      SortStrings(slice);
      tags := slice[..];
    }

    static method ComputeMatchedOn(name: string, description: Option<string>, tags: seq<string>, query: string, tagsActive: bool)
      returns (matched: seq<string>)
      ensures matched == Marks(name, description, tags, query, tagsActive)
    {
      hide Contains, Lower;
      matched := [];
      if query == "" {
        return;
      }
      if Contains(Lower(name), query) {
        matched := matched + ["name"];
      }
      if description.Some? && Contains(Lower(description.value), query) {
        matched := matched + ["description"];
      }
      if !tagsActive {
        ghost var before := matched;
        for k := 0 to |tags|
          invariant matched == before && query !in tags[..k]
        {
          if tags[k] == query {
            matched := matched + ["tag"];
            break;
          }
        }
      }
    }

    method SearchItemsBatch(query: string, filter: seq<string>) returns (response: SearchResponse)
      requires Valid()
      ensures response.totalCount == |Found(db, query, filter)|
      ensures var hits := Take(Ranked(db, Found(db, query, filter)), 50);
              && |response.results| == |hits|
              && forall k :: 0 <= k < |hits| ==> response.results[k].id == hits[k].id && Describes(db, response.results[k], query, filter)
      ensures FirstFifty(db, Found(db, query, filter), ResultIds(response.results))
    {
      hide WellFormed, Found, UnfilteredHits, FilteredHits, UnfilteredCount, FilteredCount, Ranked, Describes, HitOf, FirstFifty;
      ghost var found := Found(db, query, filter);
      RankedMeans(db, found);
      FoundArePlaced(db, query, filter);
      RankedAreFirst(db, found);
      if query == "" && filter == [] {
        EmptySearchFindsNothing(db);
        assert ResultIds([]) == HitIds(Take(Ranked(db, found), 50));
        return SearchResponse([], 0);
      }
      var ids := if filter == [] then UnfilteredHits(db, query) else FilteredHits(db, query, filter);
      HitsAreFound(db, query, filter);
      var rows := Take(Ranked(db, ids), 51);
      var results: seq<SearchResult> := [];
      for k := 0 to |rows|
        invariant |results| == k
        invariant forall j :: 0 <= j < k ==> results[j].id == rows[j].id && Describes(db, results[j], query, filter)
      {
        assert rows[k] in Ranked(db, ids);
        var result := BuildResult(rows[k].id, query, filter);
        results := results + [result];
      }
      var totalCount := |results|;
      if |results| == 51 {
        totalCount := if filter == [] then UnfilteredCount(db, query) else FilteredCount(db, query, filter);
        results := results[..50];
      }
      assert ResultIds(results) == HitIds(Take(Ranked(db, found), 50));
      response := SearchResponse(results, totalCount);
    }

    /** One turn of the result loop. */
    method BuildResult(id: int, query: string, filter: seq<string>) returns (result: SearchResult)
      requires Valid() && id in Found(db, query, filter)
      ensures result.id == id && Describes(db, result, query, filter)
    {
      var item := db.items[id];
      var pos := db.containers[item.container];
      var tags := UnpackTags(PackedTags(db, id, query, filter));
      var matchedOn := ComputeMatchedOn(item.name, item.description, tags, Lower(query), filter != []);
      result := SearchResult(id, item.container, LabelFor(pos.col, pos.row), item.name, item.description, tags, matchedOn);
      PackedTagsMeans(db, id, query, filter);
      MatchedFieldsMeans(db, id, query, filter, tags);
    }

    // ---------- duplicates ----------

    /** The row loop with its map of groups and its list of keys. */
    static method GroupRows(rows: seq<DupRow>) returns (groupMap: map<GroupKey, DuplicateGroup>, groupOrder: seq<GroupKey>)
      ensures groupOrder == KeyOrder(rows)
      ensures forall key :: key in groupMap <==> RowsWith(rows, key) != []
      ensures forall key :: key in groupMap ==> groupMap[key] == GroupFor(RowsWith(rows, key))
    {
      hide GroupFor, KeyOrder, RowsWith;
      groupMap, groupOrder := map[], [];
      NoRows();
      for k := 0 to |rows|
        invariant groupOrder == KeyOrder(rows[..k])
        invariant forall key :: key in groupMap <==> RowsWith(rows[..k], key) != []
        invariant forall key :: key in groupMap ==> groupMap[key] == GroupFor(RowsWith(rows[..k], key))
      {
        assert rows[..k + 1] == rows[..k] + [rows[k]];
        NextRow(rows[..k], rows[k]);
        var key := rows[k].key;
        if key !in groupMap {
          groupMap := groupMap[key := DuplicateGroup(rows[k].originalName, Unpack(key.fingerprint), 0, [])];
          groupOrder := groupOrder + [key];
        }
        var g := groupMap[key];
        var containers := g.containers + [LocationOf(rows[k])];
        groupMap := groupMap[key := g.(containers := containers, count := |containers|)];
      }
      assert rows[..|rows|] == rows;
    }

    method FindDuplicates() returns (groups: seq<DuplicateGroup>)
      requires Valid()
      ensures Duplicates.Groups(DuplicateRows(db), groups)
      ensures exists ids :: Finds(db, groups, ids)
    {
      hide Finds, WellFormed, DuplicateRows, GroupFor, RowsWith, KeyOrder;
      var rows := DuplicateRows(db);
      var groupMap, groupOrder := GroupRows(rows);
      groups := [];
      for k := 0 to |groupOrder|
        invariant |groups| == k
        invariant forall j :: 0 <= j < k ==> RowsWith(rows, groupOrder[j]) != [] && groups[j] == GroupFor(RowsWith(rows, groupOrder[j]))
      {
        assert groupOrder[k] in KeyOrder(rows);
        KeyHasRows(rows, groupOrder[k]);
        groups := groups + [groupMap[groupOrder[k]]];
      }
      GroupsFind(db, groups);
    }
  }
}
