/**
 The export document, what exporting a store yields, what importing a document does, and
 how the two undo each other.
 */
module Documents {
  import opened Wrappers
  import opened Sequences
  import opened Text
  import opened Labels
  import opened Schema

  datatype DocItem = DocItem(name: string, description: Option<string>, tags: seq<string>)

  datatype DocContainer = DocContainer(col: int, row: int, caption: string, items: seq<DocItem>)

  datatype Document = Document(version: int, name: string, rows: int, cols: int, containers: seq<DocContainer>)

  predicate ByName(a: DocItem, b: DocItem) {
    Le(a.name, b.name)
  }

  predicate ByRowCol(a: DocContainer, b: DocContainer) {
    a.row < b.row || (a.row == b.row && a.col <= b.col)
  }

  lemma DocumentOrders()
    ensures Order(ByName) && Order(ByRowCol)
  {
    LeOrder();
  }

  // ---------- export ----------

  function ItemDoc(db: Tables, i: int): DocItem {
    if i in db.items then DocItem(db.items[i].name, db.items[i].description, TagList(db, i))
    else DocItem("", None, [])
  }

  function ItemDocs(db: Tables, ids: seq<int>): (r: seq<DocItem>)
    ensures |r| == |ids|
    ensures forall k :: 0 <= k < |ids| ==> r[k] == ItemDoc(db, ids[k])
  {
    Map(i => ItemDoc(db, i), ids)
  }

  /** The items of a container, in the order they were created. */
  function Contents(db: Tables, c: int): seq<DocItem> {
    ItemDocs(db, Scan(ItemsIn(db, c)))
  }

  function ContainerDoc(db: Tables, c: int): DocContainer {
    var pos := if c in db.containers then db.containers[c] else Pos(0, 0);
    DocContainer(pos.col, pos.row, LabelFor(pos.col, pos.row), SortBy(ByName, Contents(db, c)))
  }

  function ContainerDocs(db: Tables, ids: seq<int>): (r: seq<DocContainer>)
    ensures |r| == |ids|
    ensures forall k :: 0 <= k < |ids| ==> r[k] == ContainerDoc(db, ids[k])
  {
    Map(c => ContainerDoc(db, c), ids)
  }

  /** The whole shelf without ids: containers by row then column, items by name, tags by name. */
  function Export(db: Tables): Document {
    Document(1, db.name, db.rows, db.cols, SortBy(ByRowCol, ContainerDocs(db, Scan(db.containers.Keys))))
  }

  // ---------- import ----------

  function Cleared(db: Tables, doc: Document): Tables {
    db.(name := doc.name, rows := doc.rows, cols := doc.cols,
        containers := map[], items := map[], tags := map[], links := {})
  }

  function AddItem(db: Tables, c: int, item: DocItem): Result<Tables> {
    var inserted :- InsertItem(db, c, item.name, item.description);
    TagAll(inserted, inserted.lastItem, item.tags)
  }

  function AddItems(db: Tables, c: int, items: seq<DocItem>): Result<Tables>
    decreases |items|
  {
    if items == [] then Ok(db)
    else
      var next :- AddItem(db, c, items[0]);
      AddItems(next, c, items[1..])
  }

  function AddContainer(db: Tables, container: DocContainer): Result<Tables> {
    var inserted :- InsertContainer(db, Pos(container.col, container.row));
    AddItems(inserted, inserted.lastContainer, container.items)
  }

  function AddContainers(db: Tables, containers: seq<DocContainer>): Result<Tables>
    decreases |containers|
  {
    if containers == [] then Ok(db)
    else
      var next :- AddContainer(db, containers[0]);
      AddContainers(next, containers[1..])
  }

  function Import(db: Tables, doc: Document): Result<Tables> {
    if doc.version != 1 then Refused(UnsupportedVersion)
    else AddContainers(Cleared(db, doc), doc.containers)
  }

  // ---------- normal form ----------

  function NormalItem(item: DocItem): DocItem {
    item.(tags := SortBy(Le, item.tags))
  }

  function NormalItems(items: seq<DocItem>): (r: seq<DocItem>)
    ensures |r| == |items|
    ensures forall k :: 0 <= k < |items| ==> r[k] == NormalItem(items[k])
  {
    Map(NormalItem, items)
  }

  function NormalContainer(c: DocContainer): DocContainer {
    DocContainer(c.col, c.row, LabelFor(c.col, c.row), SortBy(ByName, NormalItems(c.items)))
  }

  function NormalContainers(cs: seq<DocContainer>): (r: seq<DocContainer>)
    ensures |r| == |cs|
    ensures forall k :: 0 <= k < |cs| ==> r[k] == NormalContainer(cs[k])
  {
    Map(NormalContainer, cs)
  }

  /** The document with everything in order and every label recomputed. */
  function Normal(doc: Document): Document {
    doc.(containers := SortBy(ByRowCol, NormalContainers(doc.containers)))
  }

  // ---------- what a document holds ----------

  predicate TagsDistinct(items: seq<DocItem>) {
    forall k :: 0 <= k < |items| ==> Distinct(items[k].tags)
  }

  function PosOf(c: DocContainer): Pos {
    Pos(c.col, c.row)
  }

  predicate HasPosition(cs: seq<DocContainer>, pos: Pos) {
    exists k :: 0 <= k < |cs| && PosOf(cs[k]) == pos
  }

  predicate PositionsDistinct(cs: seq<DocContainer>) {
    forall j, k :: 0 <= j < k < |cs| ==> PosOf(cs[j]) != PosOf(cs[k])
  }

  /** What an import needs of a document, and all it needs. */
  predicate Acceptable(doc: Document) {
    && doc.version == 1
    && PositionsDistinct(doc.containers)
    && forall k :: 0 <= k < |doc.containers| ==> TagsDistinct(doc.containers[k].items)
  }

  function ItemCount(cs: seq<DocContainer>): nat {
    if cs == [] then 0 else |cs[0].items| + ItemCount(cs[1..])
  }

  function ItemTags(items: seq<DocItem>): set<string> {
    if items == [] then {} else Elements(items[0].tags) + ItemTags(items[1..])
  }

  function DocTags(cs: seq<DocContainer>): set<string> {
    if cs == [] then {} else ItemTags(cs[0].items) + DocTags(cs[1..])
  }

  // ---------- import, step by step ----------

  /** Only the rows of item, tag and item_tag may differ. */
  ghost predicate SameContainers(a: Tables, b: Tables) {
    b == a.(items := b.items, tags := b.tags, links := b.links, lastItem := b.lastItem, lastTag := b.lastTag)
  }

  /** Container `c` gained `items` at its end; every other container holds what it held. */
  ghost predicate Filled(a: Tables, b: Tables, c: int, items: seq<DocItem>) {
    && SameContainers(a, b)
    && Contents(b, c) == Contents(a, c) + NormalItems(items)
    && (forall d :: d != c ==> Contents(b, d) == Contents(a, d))
    && |b.items| == |a.items| + |items|
    && AllNames(b) == AllNames(a) + ItemTags(items)
  }

  /** Tag rows and pairs are kept as they are; new tag rows have new ids. */
  ghost predicate TagsGrow(a: Tables, b: Tables) {
    && a.lastTag <= b.lastTag && a.links <= b.links
    && (forall t :: t in a.tags ==> t in b.tags && b.tags[t] == a.tags[t])
    && (forall t :: t in b.tags && t !in a.tags ==> t > a.lastTag)
  }

  /** One more item row, with its tags; every other item keeps its row and tags. */
  ghost predicate ItemAdded(a: Tables, b: Tables, c: int, item: DocItem) {
    && SameContainers(a, b) && TagsGrow(a, b) && b.lastItem == a.lastItem + 1
    && b.items == a.items[a.lastItem + 1 := Item(c, item.name, item.description)]
    && TagNames(b, a.lastItem + 1) == Elements(item.tags)
    && (forall j :: j != a.lastItem + 1 ==> TagNames(b, j) == TagNames(a, j))
    && AllNames(b) == AllNames(a) + Elements(item.tags)
  }

  lemma AddItemRows(db: Tables, c: int, item: DocItem)
    requires WellFormed(db) && c in db.containers
    ensures AddItem(db, c, item).Ok? <==> Distinct(item.tags)
    ensures AddItem(db, c, item).Ok? ==>
              WellFormed(AddItem(db, c, item).value) && ItemAdded(db, AddItem(db, c, item).value, c, item)
  {
    var inserted := InsertItem(db, c, item.name, item.description).value;
    var i := inserted.lastItem;
    forall j
      ensures TagNames(inserted, j) == TagNames(db, j)
    {
      NoNewTags(db, inserted, j);
    }
    assert TagNames(db, i) == {};
    TagAllMeans(inserted, i, item.tags);
  }

  lemma AddItemMeans(db: Tables, c: int, item: DocItem)
    requires WellFormed(db) && c in db.containers
    ensures AddItem(db, c, item).Ok? <==> Distinct(item.tags)
    ensures AddItem(db, c, item).Ok? ==>
              WellFormed(AddItem(db, c, item).value) && Filled(db, AddItem(db, c, item).value, c, [item])
  {
    AddItemRows(db, c, item);
    if Distinct(item.tags) {
      ItemAddedFills(db, AddItem(db, c, item).value, c, item);
    }
  }

  lemma ItemAddedFills(a: Tables, b: Tables, c: int, item: DocItem)
    requires WellFormed(a) && WellFormed(b) && Distinct(item.tags) && ItemAdded(a, b, c, item)
    ensures Filled(a, b, c, [item])
  {
    hide Contents, TagNames;
    NewItemDoc(a, b, c, item);
    OldItemDocs(a, b, a.lastItem + 1);
    TagsOfOne(item);
    assert a.lastItem + 1 !in a.items;
  }

  lemma TagsOfOne(item: DocItem)
    ensures ItemTags([item]) == Elements(item.tags)
  {
  }

  lemma NewItemTags(b: Tables, i: int, item: DocItem)
    requires WellFormed(b) && Distinct(item.tags) && TagNames(b, i) == Elements(item.tags)
    ensures TagList(b, i) == SortBy(Le, item.tags)
  {
    TagListListing(b, i);
    SortedListing(item.tags);
    ListingUnique(TagList(b, i), SortBy(Le, item.tags));
  }

  lemma ItemDocsAppend(db: Tables, ids: seq<int>, i: int)
    ensures ItemDocs(db, ids + [i]) == ItemDocs(db, ids) + [ItemDoc(db, i)]
  {
    hide ItemDoc;
  }

  lemma ItemDocsSame(a: Tables, b: Tables, ids: seq<int>)
    requires WellFormed(a) && WellFormed(b)
    requires forall k :: 0 <= k < |ids| ==>
               ids[k] in a.items && ids[k] in b.items && b.items[ids[k]] == a.items[ids[k]] && TagNames(b, ids[k]) == TagNames(a, ids[k])
    ensures ItemDocs(b, ids) == ItemDocs(a, ids)
  {
    forall k | 0 <= k < |ids|
      ensures ItemDoc(b, ids[k]) == ItemDoc(a, ids[k])
    {
      TagListDetermined(a, ids[k], b, ids[k]);
    }
  }

  lemma NewItemScan(a: Tables, b: Tables, c: int, item: DocItem)
    requires WellFormed(a) && ItemAdded(a, b, c, item)
    ensures Scan(ItemsIn(b, c)) == Scan(ItemsIn(a, c)) + [a.lastItem + 1]
  {
    assert ItemsIn(b, c) == ItemsIn(a, c) + {a.lastItem + 1};
    ScanAppend(ItemsIn(a, c), a.lastItem + 1);
  }

  lemma ScanOfItems(a: Tables, c: int)
    ensures forall k :: 0 <= k < |Scan(ItemsIn(a, c))| ==>
              Scan(ItemsIn(a, c))[k] in a.items && a.items[Scan(ItemsIn(a, c))[k]].container == c
  {
    var scan := Scan(ItemsIn(a, c));
    assert forall k :: 0 <= k < |scan| ==> scan[k] in ItemsIn(a, c);
  }

  lemma IdsCounted(a: Tables)
    requires WellFormed(a)
    ensures forall i :: i in a.items ==> i <= a.lastItem
  {
  }

  lemma OldItemsKept(a: Tables, b: Tables, c: int, item: DocItem)
    requires WellFormed(a) && WellFormed(b) && ItemAdded(a, b, c, item)
    ensures ItemDocs(b, Scan(ItemsIn(a, c))) == Contents(a, c)
  {
    hide WellFormed, ItemDoc, ItemDocs, TagNames;
    ScanOfItems(a, c);
    IdsCounted(a);
    ItemDocsSame(a, b, Scan(ItemsIn(a, c)));
  }

  lemma NewItemInNormalForm(a: Tables, b: Tables, c: int, item: DocItem)
    requires WellFormed(a) && WellFormed(b) && Distinct(item.tags) && ItemAdded(a, b, c, item)
    ensures [ItemDoc(b, a.lastItem + 1)] == NormalItems([item])
  {
    NewItemTags(b, a.lastItem + 1, item);
    NormalItemsOne(item);
  }

  lemma NewItemDoc(a: Tables, b: Tables, c: int, item: DocItem)
    requires WellFormed(a) && WellFormed(b) && Distinct(item.tags) && ItemAdded(a, b, c, item)
    ensures Contents(b, c) == Contents(a, c) + NormalItems([item])
  {
    hide WellFormed, ItemAdded, ItemDocs;
    NewItemScan(a, b, c, item);
    ItemDocsAppend(b, Scan(ItemsIn(a, c)), a.lastItem + 1);
    OldItemsKept(a, b, c, item);
    NewItemInNormalForm(a, b, c, item);
  }

  lemma NormalItemsOne(item: DocItem)
    ensures NormalItems([item]) == [NormalItem(item)]
  {
  }

  lemma OldItemDocs(a: Tables, b: Tables, i: int)
    requires WellFormed(a) && WellFormed(b)
    requires i !in a.items && i in b.items && b.items == a.items[i := b.items[i]]
    requires forall j :: j != i ==> TagNames(b, j) == TagNames(a, j)
    ensures forall d :: d != b.items[i].container ==> Contents(b, d) == Contents(a, d)
  {
    forall d | d != b.items[i].container
      ensures Contents(b, d) == Contents(a, d)
    {
      assert ItemsIn(b, d) == ItemsIn(a, d);
      SameContents(a, b, d);
    }
  }

  lemma SameContents(a: Tables, b: Tables, d: int)
    requires WellFormed(a) && WellFormed(b) && ItemsIn(b, d) == ItemsIn(a, d)
    requires forall j :: j in ItemsIn(a, d) ==> b.items[j] == a.items[j] && TagNames(b, j) == TagNames(a, j)
    ensures Contents(b, d) == Contents(a, d)
  {
    ScanOfItems(a, d);
    var scan := Scan(ItemsIn(a, d));
    forall k | 0 <= k < |scan|
      ensures scan[k] in ItemsIn(a, d) && scan[k] in ItemsIn(b, d)
    {
    }
    ItemDocsSame(a, b, scan);
  }

  lemma FilledOthers(a: Tables, m: Tables, b: Tables, c: int, items: seq<DocItem>)
    requires items != [] && Filled(a, m, c, [items[0]]) && Filled(m, b, c, items[1..])
    ensures forall d :: d != c ==> Contents(b, d) == Contents(a, d)
  {
  }

  lemma FilledNames(a: Tables, m: Tables, b: Tables, c: int, items: seq<DocItem>)
    requires items != [] && Filled(a, m, c, [items[0]]) && Filled(m, b, c, items[1..])
    ensures AllNames(b) == AllNames(a) + ItemTags(items)
  {
    TagsOfOne(items[0]);
    UnionAssociative(AllNames(a), Elements(items[0].tags), ItemTags(items[1..]));
  }

  lemma NormalItemsSplit(items: seq<DocItem>)
    requires items != []
    ensures NormalItems(items) == NormalItems([items[0]]) + NormalItems(items[1..])
  {
  }

  lemma FilledContents(a: Tables, m: Tables, b: Tables, c: int, items: seq<DocItem>)
    requires items != [] && Filled(a, m, c, [items[0]]) && Filled(m, b, c, items[1..])
    ensures Contents(b, c) == Contents(a, c) + NormalItems(items)
  {
    NormalItemsSplit(items);
    ConcatAssociative(Contents(a, c), NormalItems([items[0]]), NormalItems(items[1..]));
  }

  lemma FilledThen(a: Tables, m: Tables, b: Tables, c: int, items: seq<DocItem>)
    requires items != [] && Filled(a, m, c, [items[0]]) && Filled(m, b, c, items[1..])
    ensures Filled(a, b, c, items)
  {
    FilledOthers(a, m, b, c, items);
    FilledNames(a, m, b, c, items);
    FilledContents(a, m, b, c, items);
  }

  lemma {:induction false} AddItemsMeans(db: Tables, c: int, items: seq<DocItem>)
    requires WellFormed(db) && c in db.containers
    ensures AddItems(db, c, items).Ok? <==> TagsDistinct(items)
    ensures AddItems(db, c, items).Ok? ==>
              WellFormed(AddItems(db, c, items).value) && Filled(db, AddItems(db, c, items).value, c, items)
    decreases |items|
  {
    hide Contents, WellFormed, AddItem;
    if items == [] {
      assert NormalItems(items) == [];
    } else {
      AddItemMeans(db, c, items[0]);
      assert TagsDistinct(items) <==> Distinct(items[0].tags) && TagsDistinct(items[1..]);
      if Distinct(items[0].tags) {
        var next := AddItem(db, c, items[0]).value;
        AddItemsMeans(next, c, items[1..]);
        if TagsDistinct(items[1..]) {
          FilledThen(db, next, AddItems(next, c, items[1..]).value, c, items);
        }
      }
    }
  }

  /** Only rows may differ; name and size of the shelf are kept. */
  ghost predicate SameShelfRow(a: Tables, b: Tables) {
    b == a.(containers := b.containers, lastContainer := b.lastContainer,
            items := b.items, tags := b.tags, links := b.links, lastItem := b.lastItem, lastTag := b.lastTag)
  }

  /** The containers after `a` are those of `a`, as they were, followed by `cs` in normal form. */
  ghost predicate DocsExtended(a: Tables, b: Tables, cs: seq<DocContainer>) {
    ContainerDocs(b, Scan(b.containers.Keys)) == ContainerDocs(a, Scan(a.containers.Keys)) + NormalContainers(cs)
  }

  ghost predicate PositionsExtended(a: Tables, b: Tables, cs: seq<DocContainer>) {
    forall pos :: Occupied(b, pos) <==> Occupied(a, pos) || HasPosition(cs, pos)
  }

  ghost predicate SizesExtended(a: Tables, b: Tables, cs: seq<DocContainer>) {
    && |b.containers| == |a.containers| + |cs|
    && |b.items| == |a.items| + ItemCount(cs)
    && AllNames(b) == AllNames(a) + DocTags(cs)
  }

  ghost predicate Extended(a: Tables, b: Tables, cs: seq<DocContainer>) {
    SameShelfRow(a, b) && DocsExtended(a, b, cs) && PositionsExtended(a, b, cs) && SizesExtended(a, b, cs)
  }

  lemma AddContainerMeans(db: Tables, container: DocContainer)
    requires WellFormed(db)
    ensures AddContainer(db, container).Ok? <==> !Occupied(db, PosOf(container)) && TagsDistinct(container.items)
    ensures AddContainer(db, container).Ok? ==>
              WellFormed(AddContainer(db, container).value) && Extended(db, AddContainer(db, container).value, [container])
  {
    hide Contents, Extended, WellFormed, Filled, TagsDistinct, AddItems, Occupied;
    if !Occupied(db, PosOf(container)) {
      var inserted := InsertContainer(db, PosOf(container)).value;
      AddItemsMeans(inserted, inserted.lastContainer, container.items);
      if TagsDistinct(container.items) {
        ContainerAdded(db, AddItems(inserted, inserted.lastContainer, container.items).value, container);
      }
    }
  }

  lemma ContainerAddedRows(db: Tables, b: Tables, container: DocContainer)
    requires WellFormed(db) && WellFormed(b) && !Occupied(db, PosOf(container))
    requires Filled(InsertContainer(db, PosOf(container)).value, b, db.lastContainer + 1, container.items)
    ensures SameShelfRow(db, b)
  {
    hide AllNames, Contents, WellFormed, Occupied;
  }

  lemma ContainerAddedSizes(db: Tables, b: Tables, container: DocContainer)
    requires WellFormed(db) && WellFormed(b) && !Occupied(db, PosOf(container))
    requires Filled(InsertContainer(db, PosOf(container)).value, b, db.lastContainer + 1, container.items)
    ensures SizesExtended(db, b, [container])
  {
    hide AllNames, WellFormed, Occupied, Filled, ItemCount, DocTags, ItemTags;
    FilledSizes(InsertContainer(db, PosOf(container)).value, b, db.lastContainer + 1, container.items);
    SameTagNames(db, InsertContainer(db, PosOf(container)).value);
    CountsOfOne(container);
    OneMoreContainer(db, b, PosOf(container));
  }

  lemma FilledSizes(a: Tables, b: Tables, c: int, items: seq<DocItem>)
    requires Filled(a, b, c, items)
    ensures b.containers == a.containers
    ensures |b.items| == |a.items| + |items| && AllNames(b) == AllNames(a) + ItemTags(items)
  {
  }

  lemma OneMoreContainer(db: Tables, b: Tables, pos: Pos)
    requires WellFormed(db) && b.containers == db.containers[db.lastContainer + 1 := pos]
    ensures |b.containers| == |db.containers| + 1
  {
  }

  lemma ContainerAddedPositions(db: Tables, b: Tables, container: DocContainer)
    requires WellFormed(db) && WellFormed(b) && !Occupied(db, PosOf(container))
    requires Filled(InsertContainer(db, PosOf(container)).value, b, db.lastContainer + 1, container.items)
    ensures PositionsExtended(db, b, [container])
  {
    hide AllNames, Contents, HasPosition, WellFormed, Occupied;
    OccupiedByOne(db, b, container);
  }

  lemma ContainerAdded(db: Tables, b: Tables, container: DocContainer)
    requires WellFormed(db) && WellFormed(b) && !Occupied(db, PosOf(container))
    requires Filled(InsertContainer(db, PosOf(container)).value, b, db.lastContainer + 1, container.items)
    ensures Extended(db, b, [container])
  {
    hide Occupied, WellFormed, Filled, ContainerDocs, NormalContainers, Scan, SameShelfRow, PositionsExtended, SizesExtended;
    ContainerAddedRows(db, b, container);
    ContainerAddedSizes(db, b, container);
    ContainerAddedPositions(db, b, container);
    NewContainerDocs(db, InsertContainer(db, PosOf(container)).value, b, container);
  }

  lemma SameTagNames(a: Tables, b: Tables)
    requires b.tags == a.tags
    ensures AllNames(b) == AllNames(a)
  {
  }

  lemma OccupiedByOne(db: Tables, b: Tables, container: DocContainer)
    requires WellFormed(db) && !Occupied(db, PosOf(container))
    requires b.containers == db.containers[db.lastContainer + 1 := PosOf(container)]
    ensures forall pos :: Occupied(b, pos) <==> Occupied(db, pos) || HasPosition([container], pos)
  {
    assert db.lastContainer + 1 !in db.containers;
    OccupiedAfterInsert(db, b, PosOf(container), db.lastContainer + 1);
    HasOnePosition(container);
  }

  lemma ContainerDocsAppend(db: Tables, ids: seq<int>, c: int)
    ensures ContainerDocs(db, ids + [c]) == ContainerDocs(db, ids) + [ContainerDoc(db, c)]
  {
    hide ContainerDoc;
  }

  lemma NewContainerScan(db: Tables, b: Tables, pos: Pos)
    requires WellFormed(db) && b.containers == db.containers[db.lastContainer + 1 := pos]
    ensures Scan(b.containers.Keys) == Scan(db.containers.Keys) + [db.lastContainer + 1]
  {
    assert b.containers.Keys == db.containers.Keys + {db.lastContainer + 1};
    ScanAppend(db.containers.Keys, db.lastContainer + 1);
  }

  lemma NewContainerInNormalForm(db: Tables, inserted: Tables, b: Tables, container: DocContainer)
    requires WellFormed(db) && !Occupied(db, PosOf(container))
    requires inserted == InsertContainer(db, PosOf(container)).value
    requires Filled(inserted, b, db.lastContainer + 1, container.items)
    ensures [ContainerDoc(b, db.lastContainer + 1)] == NormalContainers([container])
  {
    hide SortBy, NormalItems, Contents, NormalContainers, Occupied, WellFormed;
    EmptyContainer(db, inserted);
    NothingBefore(Contents(inserted, db.lastContainer + 1), NormalItems(container.items));
    NormalContainersOne(container);
  }

  lemma NothingBefore<T>(a: seq<T>, b: seq<T>)
    requires a == []
    ensures a + b == b
  {
  }

  lemma NormalContainersOne(container: DocContainer)
    ensures NormalContainers([container]) == [NormalContainer(container)]
  {
  }

  lemma EmptyContainer(db: Tables, inserted: Tables)
    requires WellFormed(db) && inserted.items == db.items
    ensures Contents(inserted, db.lastContainer + 1) == []
  {
  }

  lemma OldContainersKept(db: Tables, inserted: Tables, b: Tables, container: DocContainer)
    requires WellFormed(db) && !Occupied(db, PosOf(container))
    requires inserted == InsertContainer(db, PosOf(container)).value
    requires Filled(inserted, b, db.lastContainer + 1, container.items)
    ensures ContainerDocs(b, Scan(db.containers.Keys)) == ContainerDocs(db, Scan(db.containers.Keys))
  {
    hide ContainerDoc, ContainerDocs, WellFormed, Filled, Occupied, Scan;
    var scan := Scan(db.containers.Keys);
    forall k | 0 <= k < |scan|
      ensures ContainerDoc(b, scan[k]) == ContainerDoc(db, scan[k])
    {
      assert scan[k] in db.containers.Keys;
      OldContainerKept(db, inserted, b, container, scan[k]);
    }
    ContainerDocsSame(db, b, scan);
  }

  lemma ContainerDocsSame(a: Tables, b: Tables, ids: seq<int>)
    requires forall k :: 0 <= k < |ids| ==> ContainerDoc(b, ids[k]) == ContainerDoc(a, ids[k])
    ensures ContainerDocs(b, ids) == ContainerDocs(a, ids)
  {
  }

  lemma OldContainerKept(db: Tables, inserted: Tables, b: Tables, container: DocContainer, d: int)
    requires WellFormed(db) && !Occupied(db, PosOf(container)) && d in db.containers
    requires inserted == InsertContainer(db, PosOf(container)).value
    requires Filled(inserted, b, db.lastContainer + 1, container.items)
    ensures ContainerDoc(b, d) == ContainerDoc(db, d)
  {
    hide Contents;
    assert d != db.lastContainer + 1;
    UntouchedContents(db, inserted, d);
  }

  lemma NewContainerDocs(db: Tables, inserted: Tables, b: Tables, container: DocContainer)
    requires WellFormed(db) && !Occupied(db, PosOf(container))
    requires inserted == InsertContainer(db, PosOf(container)).value
    requires Filled(inserted, b, db.lastContainer + 1, container.items)
    ensures ContainerDocs(b, Scan(b.containers.Keys)) == ContainerDocs(db, Scan(db.containers.Keys)) + NormalContainers([container])
  {
    hide Contents, ContainerDocs, NormalContainers, WellFormed;
    NewContainerScan(db, b, PosOf(container));
    ContainerDocsAppend(b, Scan(db.containers.Keys), db.lastContainer + 1);
    OldContainersKept(db, inserted, b, container);
    NewContainerInNormalForm(db, inserted, b, container);
  }

  lemma UntouchedContents(db: Tables, inserted: Tables, d: int)
    requires WellFormed(db) && WellFormed(inserted)
    requires inserted.items == db.items && inserted.tags == db.tags && inserted.links == db.links
    ensures Contents(inserted, d) == Contents(db, d)
  {
    assert ItemsIn(inserted, d) == ItemsIn(db, d);
    forall j ensures TagNames(inserted, j) == TagNames(db, j) { NoNewTags(db, inserted, j); }
    SameContents(db, inserted, d);
  }

  lemma CountsOfOne(container: DocContainer)
    ensures ItemCount([container]) == |container.items| && DocTags([container]) == ItemTags(container.items)
  {
  }

  lemma OccupiedAfterInsert(a: Tables, b: Tables, pos: Pos, c: int)
    requires c !in a.containers && b.containers == a.containers[c := pos]
    ensures forall p :: Occupied(b, p) <==> Occupied(a, p) || p == pos
  {
    forall p
      ensures Occupied(b, p) <==> Occupied(a, p) || p == pos
    {
      if Occupied(a, p) {
        var d :| d in a.containers && a.containers[d] == p;
        assert d in b.containers && b.containers[d] == p;
      }
      assert b.containers[c] == pos;
    }
  }

  lemma NormalContainersSplit(cs: seq<DocContainer>)
    requires cs != []
    ensures NormalContainers(cs) == NormalContainers([cs[0]]) + NormalContainers(cs[1..])
  {
  }

  lemma ExtendedDocs(a: Tables, m: Tables, b: Tables, cs: seq<DocContainer>)
    requires cs != [] && DocsExtended(a, m, [cs[0]]) && DocsExtended(m, b, cs[1..])
    ensures DocsExtended(a, b, cs)
  {
    hide ContainerDocs, NormalContainers, Scan;
    NormalContainersSplit(cs);
    ConcatAssociative(ContainerDocs(a, Scan(a.containers.Keys)), NormalContainers([cs[0]]), NormalContainers(cs[1..]));
  }

  lemma ExtendedSizes(a: Tables, m: Tables, b: Tables, cs: seq<DocContainer>)
    requires cs != [] && SizesExtended(a, m, [cs[0]]) && SizesExtended(m, b, cs[1..])
    ensures SizesExtended(a, b, cs)
  {
    hide AllNames;
    CountsOfOne(cs[0]);
    UnionAssociative(AllNames(a), DocTags([cs[0]]), DocTags(cs[1..]));
  }

  lemma ExtendedPositions(a: Tables, m: Tables, b: Tables, cs: seq<DocContainer>)
    requires cs != [] && PositionsExtended(a, m, [cs[0]]) && PositionsExtended(m, b, cs[1..])
    ensures PositionsExtended(a, b, cs)
  {
    hide Occupied, HasPosition;
    OccupiedSplit(a, m, cs);
    forall pos
      ensures Occupied(b, pos) <==> Occupied(a, pos) || HasPosition(cs, pos)
    {
      PositionSplit(cs, pos);
    }
  }

  lemma ExtendedThen(a: Tables, m: Tables, b: Tables, cs: seq<DocContainer>)
    requires cs != [] && Extended(a, m, [cs[0]]) && Extended(m, b, cs[1..])
    ensures Extended(a, b, cs)
  {
    hide DocsExtended, PositionsExtended, SizesExtended;
    ExtendedDocs(a, m, b, cs);
    ExtendedSizes(a, m, b, cs);
    ExtendedPositions(a, m, b, cs);
  }

  lemma OccupiedSplit(a: Tables, m: Tables, cs: seq<DocContainer>)
    requires cs != [] && PositionsExtended(a, m, [cs[0]])
    ensures forall pos :: Occupied(m, pos) <==> Occupied(a, pos) || pos == PosOf(cs[0])
  {
    hide Occupied, HasPosition;
    HasOnePosition(cs[0]);
  }

  lemma HasOnePosition(c: DocContainer)
    ensures forall pos :: HasPosition([c], pos) <==> pos == PosOf(c)
  {
    assert [c][0] == c;
  }

  lemma PositionSplit(cs: seq<DocContainer>, pos: Pos)
    requires cs != []
    ensures HasPosition(cs, pos) <==> PosOf(cs[0]) == pos || HasPosition(cs[1..], pos)
  {
  }

  predicate Fits(db: Tables, cs: seq<DocContainer>) {
    && PositionsDistinct(cs)
    && forall k :: 0 <= k < |cs| ==> !Occupied(db, PosOf(cs[k])) && TagsDistinct(cs[k].items)
  }

  lemma FitsCons(db: Tables, next: Tables, cs: seq<DocContainer>)
    requires cs != [] && !Occupied(db, PosOf(cs[0])) && TagsDistinct(cs[0].items)
    requires forall pos :: Occupied(next, pos) <==> Occupied(db, pos) || pos == PosOf(cs[0])
    ensures Fits(db, cs) <==> Fits(next, cs[1..])
  {
  }

  lemma DocsExtendedByNone(db: Tables)
    ensures DocsExtended(db, db, [])
  {
    hide ContainerDocs, Scan, NormalContainer;
    assert NormalContainers([]) == [];
  }

  lemma ExtendedByNone(db: Tables)
    ensures Extended(db, db, [])
  {
    hide DocsExtended, Occupied, AllNames;
    DocsExtendedByNone(db);
  }

  lemma {:induction false} AddContainersMeans(db: Tables, cs: seq<DocContainer>)
    requires WellFormed(db)
    ensures AddContainers(db, cs).Ok? <==> Fits(db, cs)
    ensures AddContainers(db, cs).Ok? ==>
              WellFormed(AddContainers(db, cs).value) && Extended(db, AddContainers(db, cs).value, cs)
    decreases |cs|
  {
    hide WellFormed, AddContainer, SameShelfRow, DocsExtended, PositionsExtended, SizesExtended, Occupied;
    if cs == [] {
      ExtendedByNone(db);
    } else {
      AddContainerMeans(db, cs[0]);
      if AddContainer(db, cs[0]).Ok? {
        var next := AddContainer(db, cs[0]).value;
        AddContainersMeans(next, cs[1..]);
        OccupiedSplit(db, next, cs);
        FitsCons(db, next, cs);
        if AddContainers(next, cs[1..]).Ok? {
          ExtendedThen(db, next, AddContainers(next, cs[1..]).value, cs);
        }
      }
    }
  }

  // ---------- the laws of import and export ----------

  lemma ClearedIsEmpty(db: Tables, doc: Document)
    ensures WellFormed(Cleared(db, doc))
    ensures AllNames(Cleared(db, doc)) == {}
    ensures forall pos :: !Occupied(Cleared(db, doc), pos)
    ensures ContainerDocs(Cleared(db, doc), Scan(Cleared(db, doc).containers.Keys)) == []
  {
  }

  lemma FitsCleared(db: Tables, doc: Document)
    ensures Fits(Cleared(db, doc), doc.containers) <==>
              PositionsDistinct(doc.containers) && forall k :: 0 <= k < |doc.containers| ==> TagsDistinct(doc.containers[k].items)
  {
  }

  /** An import succeeds exactly on acceptable documents, whatever the store held before. */
  lemma ImportSucceedsIff(db: Tables, doc: Document)
    ensures Import(db, doc).Ok? <==> Acceptable(doc)
  {
    hide WellFormed, Extended, Fits;
    ClearedIsEmpty(db, doc);
    FitsCleared(db, doc);
    AddContainersMeans(Cleared(db, doc), doc.containers);
  }

  /** After an import the schema holds and the tables have the sizes the document implies. */
  lemma ImportSizes(db: Tables, doc: Document)
    requires Import(db, doc).Ok?
    ensures var b := Import(db, doc).value;
            && WellFormed(b)
            && |b.containers| == |doc.containers|
            && |b.items| == ItemCount(doc.containers)
            && AllNames(b) == DocTags(doc.containers)
            && |b.tags| == |DocTags(doc.containers)|
  {
    hide WellFormed, ContainerDocs, NormalContainers, Occupied, HasPosition, Fits, AllNames;
    ClearedIsEmpty(db, doc);
    AddContainersMeans(Cleared(db, doc), doc.containers);
    TagRowCount(Import(db, doc).value);
  }

  /** What was imported is exported again in normal form. */
  lemma ImportThenExport(db: Tables, doc: Document)
    requires Import(db, doc).Ok?
    ensures Export(Import(db, doc).value) == Normal(doc)
  {
    hide WellFormed, ContainerDocs, NormalContainers, Occupied, HasPosition, Fits, AllNames, SortBy;
    ClearedIsEmpty(db, doc);
    AddContainersMeans(Cleared(db, doc), doc.containers);
    assert ContainerDocs(Cleared(db, doc), Scan(Cleared(db, doc).containers.Keys)) + NormalContainers(doc.containers) == NormalContainers(doc.containers);
  }

  /** Unique names: as many tag rows as tag names. */
  lemma TagRowCount(db: Tables)
    requires WellFormed(db)
    ensures |db.tags| == |AllNames(db)|
  {
    TagRowCountOf(db.tags.Keys, db);
    assert AllNames(db) == set t | t in db.tags.Keys :: db.tags[t];
  }

  lemma {:induction false} TagRowCountOf(ts: set<int>, db: Tables)
    requires NamesUnique(db) && ts <= db.tags.Keys
    ensures |set t | t in ts :: db.tags[t]| == |ts|
  {
    if ts != {} {
      var u := Pick(ts);
      TagRowCountOf(ts - {u}, db);
      assert (set t | t in ts :: db.tags[t]) == (set t | t in ts - {u} :: db.tags[t]) + {db.tags[u]};
      assert db.tags[u] !in (set t | t in ts - {u} :: db.tags[t]);
    }
  }
}
