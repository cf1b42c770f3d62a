/**
 The three batch queries of an export and the grouping that turns their rows back into nested
 lists: regrouping sorted batches by key equals sorting each group on its own.
 */
module ExportQueries {
  import opened Wrappers
  import opened Sequences
  import opened Text
  import opened Labels
  import opened Schema
  import opened Documents

  datatype ContainerRow = ContainerRow(id: int, col: int, row: int)

  datatype ItemRow = ItemRow(id: int, containerId: int, name: string, description: Option<string>)

  datatype LinkRow = LinkRow(itemId: int, tagName: string)

  predicate ByRowThenCol(a: ContainerRow, b: ContainerRow) {
    a.row < b.row || (a.row == b.row && a.col <= b.col)
  }

  predicate ByContainerThenName(a: ItemRow, b: ItemRow) {
    a.containerId < b.containerId || (a.containerId == b.containerId && Le(a.name, b.name))
  }

  predicate ByItemThenTag(a: LinkRow, b: LinkRow) {
    a.itemId < b.itemId || (a.itemId == b.itemId && Le(a.tagName, b.tagName))
  }

  lemma QueryOrders()
    ensures Order(ByRowThenCol) && Order(ByContainerThenName) && Order(ByItemThenTag)
  {
    LeOrder();
  }

  function ContainerRowOf(db: Tables, c: int): ContainerRow {
    if c in db.containers then ContainerRow(c, db.containers[c].col, db.containers[c].row) else ContainerRow(c, 0, 0)
  }

  function ItemRowOf(db: Tables, i: int): ItemRow {
    if i in db.items then ItemRow(i, db.items[i].container, db.items[i].name, db.items[i].description) else ItemRow(i, 0, "", None)
  }

  function ContainerRows(db: Tables): seq<ContainerRow> {
    SortBy(ByRowThenCol, Map(c => ContainerRowOf(db, c), Scan(db.containers.Keys)))
  }

  function ItemRows(db: Tables): seq<ItemRow> {
    SortBy(ByContainerThenName, Map(i => ItemRowOf(db, i), Scan(db.items.Keys)))
  }

  /** The item_tag rows of the given items, in primary key order, joined to tag. */
  function LinksOf(db: Tables, items: seq<int>): seq<LinkRow> {
    if items == [] then []
    else Map(n => LinkRow(items[0], n), Names(db, Scan(TagIds(db, items[0])))) + LinksOf(db, items[1..])
  }

  function LinkRows(db: Tables): seq<LinkRow> {
    SortBy(ByItemThenTag, LinksOf(db, Scan(set l | l in db.links :: l.0)))
  }

  // ---------- grouping ----------

  function TagsFor(rows: seq<LinkRow>, i: int): seq<string> {
    Map((r: LinkRow) => r.tagName, Filter((r: LinkRow) => r.itemId == i, rows))
  }

  lemma TagsForNext(rows: seq<LinkRow>, r: LinkRow, i: int)
    ensures TagsFor(rows + [r], i) == if r.itemId == i then TagsFor(rows, i) + [r.tagName] else TagsFor(rows, i)
  {
    FilterAppend((x: LinkRow) => x.itemId == i, rows, [r]);
    MapAppend((x: LinkRow) => x.tagName, Filter((x: LinkRow) => x.itemId == i, rows), [r]);
  }

  function DocItemOf(links: seq<LinkRow>, r: ItemRow): DocItem {
    DocItem(r.name, r.description, TagsFor(links, r.id))
  }

  function ItemsFor(rows: seq<ItemRow>, links: seq<LinkRow>, c: int): seq<DocItem> {
    Map((r: ItemRow) => DocItemOf(links, r), Filter((r: ItemRow) => r.containerId == c, rows))
  }

  lemma ItemsForNext(rows: seq<ItemRow>, links: seq<LinkRow>, r: ItemRow, c: int)
    ensures ItemsFor(rows + [r], links, c) ==
              if r.containerId == c then ItemsFor(rows, links, c) + [DocItemOf(links, r)] else ItemsFor(rows, links, c)
  {
    FilterAppend((x: ItemRow) => x.containerId == c, rows, [r]);
    MapAppend((x: ItemRow) => DocItemOf(links, x), Filter((x: ItemRow) => x.containerId == c, rows), [r]);
  }

  function DocContainerOf(items: seq<ItemRow>, links: seq<LinkRow>, r: ContainerRow): DocContainer {
    DocContainer(r.col, r.row, LabelFor(r.col, r.row), ItemsFor(items, links, r.id))
  }

  function Regrouped(db: Tables): seq<DocContainer> {
    Map((r: ContainerRow) => DocContainerOf(ItemRows(db), LinkRows(db), r), ContainerRows(db))
  }

  // ---------- tags ----------

  lemma {:induction false} FilterMap<A(!new), B(!new)>(p: B -> bool, f: A -> B, q: A -> bool, s: seq<A>)
    requires forall x :: q(x) == p(f(x))
    ensures Filter(p, Map(f, s)) == Map(f, Filter(q, s))
  {
    if s != [] {
      FilterMap(p, f, q, s[1..]);
      assert Map(f, s)[1..] == Map(f, s[1..]);
    }
  }

  lemma {:induction false} FilterAll<T(!new)>(p: T -> bool, s: seq<T>)
    ensures (forall x :: x in s ==> p(x)) ==> Filter(p, s) == s
    ensures (forall x :: x in s ==> !p(x)) ==> Filter(p, s) == []
  {
    if s != [] {
      FilterAll(p, s[1..]);
      assert s == [s[0]] + s[1..];
    }
  }

  function Block(db: Tables, i: int): seq<LinkRow> {
    Map(n => LinkRow(i, n), Names(db, Scan(TagIds(db, i))))
  }

  lemma {:induction false} LinksOfItem(db: Tables, items: seq<int>, i: int)
    requires Distinct(items)
    ensures Filter((r: LinkRow) => r.itemId == i, LinksOf(db, items)) == if i in items then Block(db, i) else []
  {
    if items != [] {
      var p := (r: LinkRow) => r.itemId == i;
      LinksOfItem(db, items[1..], i);
      FilterAppend(p, Block(db, items[0]), LinksOf(db, items[1..]));
      FilterAll(p, Block(db, items[0]));
      assert Map(n => LinkRow(items[0], n), Names(db, Scan(TagIds(db, items[0])))) == Block(db, items[0]);
      assert i in items <==> i == items[0] || i in items[1..];
      assert items[0] !in items[1..];
    }
  }

  lemma UntaggedBlock(db: Tables, i: int)
    requires i !in (set l | l in db.links :: l.0)
    ensures Block(db, i) == []
  {
  }

  lemma LinkRowsOfItem(db: Tables, i: int)
    ensures Filter((r: LinkRow) => r.itemId == i, LinkRows(db)) == SortBy(ByItemThenTag, Block(db, i))
  {
    hide TagIds, SortBy, Block, ByItemThenTag;
    var ids := set l | l in db.links :: l.0;
    QueryOrders();
    SortByFilter(ByItemThenTag, (r: LinkRow) => r.itemId == i, LinksOf(db, Scan(ids)));
    LinksOfItem(db, Scan(ids), i);
    if i !in ids {
      UntaggedBlock(db, i);
    }
  }

  lemma ByTagWithin(i: int, rows: seq<LinkRow>)
    requires forall k :: 0 <= k < |rows| ==> rows[k].itemId == i
    ensures SortBy(ByItemThenTag, rows) == SortBy((a: LinkRow, b: LinkRow) => Le(a.tagName, b.tagName), rows)
  {
    hide SortBy, Le;
    SortBySame(ByItemThenTag, (a: LinkRow, b: LinkRow) => Le(a.tagName, b.tagName), rows);
  }

  lemma BlockNames(db: Tables, i: int)
    ensures Map((r: LinkRow) => r.tagName, Block(db, i)) == Names(db, Scan(TagIds(db, i)))
    ensures forall k :: 0 <= k < |Block(db, i)| ==> Block(db, i)[k].itemId == i
  {
  }

  lemma BlockSorted(db: Tables, i: int)
    ensures Map((r: LinkRow) => r.tagName, SortBy(ByItemThenTag, Block(db, i))) == TagList(db, i)
  {
    hide TagIds, SortBy, Block, Le, Names, ByItemThenTag;
    BlockNames(db, i);
    ByTagWithin(i, Block(db, i));
    SortByMap((a: LinkRow, b: LinkRow) => Le(a.tagName, b.tagName), Le, (r: LinkRow) => r.tagName, Block(db, i));
  }

  /** The tag batch, regrouped, gives each item its sorted tag list. */
  lemma TagsForItem(db: Tables, i: int)
    ensures TagsFor(LinkRows(db), i) == TagList(db, i)
  {
    hide TagList, LinkRows, SortBy;
    LinkRowsOfItem(db, i);
    BlockSorted(db, i);
  }

  // ---------- items ----------

  lemma {:induction false} FilterAscending(p: int -> bool, s: seq<int>)
    requires Ascending(s)
    ensures Ascending(Filter(p, s))
  {
    if s != [] {
      FilterAscending(p, s[1..]);
      var rest := Filter(p, s[1..]);
      forall k | 0 <= k < |rest|
        ensures s[0] < rest[k]
      {
        assert rest[k] in s[1..];
      }
    }
  }

  lemma ScanOfContainer(db: Tables, c: int)
    ensures Filter(i => ItemRowOf(db, i).containerId == c, Scan(db.items.Keys)) == Scan(ItemsIn(db, c))
  {
    var p := i => ItemRowOf(db, i).containerId == c;
    var kept := Filter(p, Scan(db.items.Keys));
    FilterAscending(p, Scan(db.items.Keys));
    forall i
      ensures i in kept <==> i in Scan(ItemsIn(db, c))
    {
      assert i in Scan(db.items.Keys) <==> i in db.items;
    }
    AscendingUnique(kept, Scan(ItemsIn(db, c)));
  }

  lemma ItemRowsOfContainer(db: Tables, c: int)
    ensures Filter((r: ItemRow) => r.containerId == c, ItemRows(db)) ==
              SortBy(ByContainerThenName, Map(i => ItemRowOf(db, i), Scan(ItemsIn(db, c))))
  {
    hide SortBy, ItemRowOf, ByContainerThenName;
    var p := (r: ItemRow) => r.containerId == c;
    QueryOrders();
    SortByFilter(ByContainerThenName, p, Map(i => ItemRowOf(db, i), Scan(db.items.Keys)));
    FilterMap(p, i => ItemRowOf(db, i), i => ItemRowOf(db, i).containerId == c, Scan(db.items.Keys));
    ScanOfContainer(db, c);
  }

  lemma MineShareContainer(db: Tables, c: int, mine: seq<ItemRow>)
    requires mine == Map(i => ItemRowOf(db, i), Scan(ItemsIn(db, c)))
    ensures forall k :: 0 <= k < |mine| ==> mine[k].containerId == c
  {
    ScanOfItems(db, c);
  }

  lemma ByNameWithin(c: int, mine: seq<ItemRow>)
    requires forall k :: 0 <= k < |mine| ==> mine[k].containerId == c
    ensures SortBy(ByContainerThenName, mine) == SortBy((a: ItemRow, b: ItemRow) => Le(a.name, b.name), mine)
  {
    hide SortBy, Le;
    SortBySame(ByContainerThenName, (a: ItemRow, b: ItemRow) => Le(a.name, b.name), mine);
  }

  lemma ContainerRowsSorted(db: Tables, c: int, mine: seq<ItemRow>)
    requires mine == Map(i => ItemRowOf(db, i), Scan(ItemsIn(db, c)))
    ensures Map((r: ItemRow) => DocItemOf(LinkRows(db), r), SortBy(ByContainerThenName, mine)) == SortBy(ByName, Contents(db, c))
  {
    hide SortBy, LinkRows, TagsFor, Contents, Le, ByContainerThenName, ItemRowOf;
    MineAreContents(db, c, mine);
    MineShareContainer(db, c, mine);
    ByNameWithin(c, mine);
    SortByMap((a: ItemRow, b: ItemRow) => Le(a.name, b.name), ByName, (r: ItemRow) => DocItemOf(LinkRows(db), r), mine);
  }

  /** The item batch, regrouped, gives each container its items by name. */
  lemma ItemsForContainer(db: Tables, c: int)
    ensures ItemsFor(ItemRows(db), LinkRows(db), c) == SortBy(ByName, Contents(db, c))
  {
    hide SortBy, LinkRows, ItemRows, Contents, ByContainerThenName, ByName, DocItemOf;
    ItemRowsOfContainer(db, c);
    ContainerRowsSorted(db, c, Map(i => ItemRowOf(db, i), Scan(ItemsIn(db, c))));
  }

  lemma DocOfItemRow(db: Tables, i: int)
    requires i in db.items
    ensures DocItemOf(LinkRows(db), ItemRowOf(db, i)) == ItemDoc(db, i)
  {
    hide LinkRows, TagsFor, TagList;
    TagsForItem(db, i);
  }

  lemma MineAreContents(db: Tables, c: int, mine: seq<ItemRow>)
    requires mine == Map(i => ItemRowOf(db, i), Scan(ItemsIn(db, c)))
    ensures Map((r: ItemRow) => DocItemOf(LinkRows(db), r), mine) == Contents(db, c)
  {
    hide LinkRows, DocItemOf, ItemRowOf, ItemDoc, ItemsIn;
    var scan := Scan(ItemsIn(db, c));
    var row := i => ItemRowOf(db, i);
    var doc := (r: ItemRow) => DocItemOf(LinkRows(db), r);
    ScanOfItems(db, c);
    forall k | 0 <= k < |scan|
      ensures doc(row(scan[k])) == ItemDoc(db, scan[k])
    {
      DocOfItemRow(db, scan[k]);
    }
    MapMap(row, doc, i => ItemDoc(db, i), scan);
  }

  lemma DocsOfRows(db: Tables)
    ensures Map((r: ContainerRow) => DocContainerOf(ItemRows(db), LinkRows(db), r), Map(c => ContainerRowOf(db, c), Scan(db.containers.Keys)))
              == ContainerDocs(db, Scan(db.containers.Keys))
  {
    hide ItemRows, LinkRows, ContainerDoc, ContainerRowOf, DocContainerOf;
    var scan := Scan(db.containers.Keys);
    var row := c => ContainerRowOf(db, c);
    var doc := (r: ContainerRow) => DocContainerOf(ItemRows(db), LinkRows(db), r);
    forall k | 0 <= k < |scan|
      ensures doc(row(scan[k])) == ContainerDoc(db, scan[k])
    {
      assert scan[k] in db.containers.Keys;
      DocOfRow(db, scan[k]);
    }
    MapMap(row, doc, c => ContainerDoc(db, c), scan);
  }

  lemma DocOfRow(db: Tables, c: int)
    requires c in db.containers
    ensures DocContainerOf(ItemRows(db), LinkRows(db), ContainerRowOf(db, c)) == ContainerDoc(db, c)
  {
    hide ItemRows, LinkRows, ItemsFor, Contents, SortBy, TagsFor, LabelFor;
    ItemsForContainer(db, c);
  }

  /** All batches regrouped are the containers of the exported document. */
  lemma RegroupedIsExport(db: Tables)
    ensures Regrouped(db) == Export(db).containers
  {
    hide ItemRows, LinkRows, ItemsFor, ContainerDoc, SortBy, ContainerRowOf;
    var doc := (r: ContainerRow) => DocContainerOf(ItemRows(db), LinkRows(db), r);
    SortByMap(ByRowThenCol, ByRowCol, doc, Map(c => ContainerRowOf(db, c), Scan(db.containers.Keys)));
    DocsOfRows(db);
  }

  lemma ExportHeader(db: Tables)
    ensures Export(db) == Document(1, db.name, db.rows, db.cols, Export(db).containers)
  {
  }
}
