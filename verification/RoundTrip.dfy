/**
 Export loses nothing but row ids and unused tags: the exported document is always accepted
 back, exports again unchanged, and rebuilds the same shelf.
 */
module RoundTrip {
  import opened Sequences
  import opened Text
  import opened Labels
  import opened Schema
  import opened Documents

  predicate PosLe(a: Pos, b: Pos) {
    a.row < b.row || (a.row == b.row && a.col <= b.col)
  }

  lemma PositionsDistinctMap(cs: seq<DocContainer>)
    ensures PositionsDistinct(cs) <==> Distinct(Map(PosOf, cs))
  {
  }

  lemma SortingKeepsPositionsDistinct(cs: seq<DocContainer>)
    requires PositionsDistinct(cs)
    ensures PositionsDistinct(SortBy(ByRowCol, cs))
  {
    PositionsDistinctMap(cs);
    SortByMap(ByRowCol, PosLe, PosOf, cs);
    PermutationDistinct(Map(PosOf, cs), SortBy(PosLe, Map(PosOf, cs)));
    PositionsDistinctMap(SortBy(ByRowCol, cs));
  }

  lemma DocPosition(db: Tables, c: int)
    requires c in db.containers
    ensures PosOf(ContainerDoc(db, c)) == db.containers[c]
  {
  }

  lemma ExportedPositions(db: Tables)
    requires WellFormed(db)
    ensures PositionsDistinct(Export(db).containers)
  {
    hide ContainerDocs, ContainerDoc, SortBy, Scan;
    var scan := Scan(db.containers.Keys);
    var docs := ContainerDocs(db, scan);
    forall k | 0 <= k < |docs|
      ensures scan[k] in db.containers && PosOf(docs[k]) == db.containers[scan[k]]
    {
      assert scan[k] in scan;
      DocPosition(db, scan[k]);
    }
    SortingKeepsPositionsDistinct(docs);
  }

  lemma ContentsSorted(db: Tables, c: int)
    requires WellFormed(db)
    ensures forall it :: it in Contents(db, c) ==> StrictlySorted(it.tags)
  {
    ScanOfItems(db, c);
    forall it | it in Contents(db, c)
      ensures StrictlySorted(it.tags)
    {
      var k :| 0 <= k < |Contents(db, c)| && Contents(db, c)[k] == it;
      TagListListing(db, Scan(ItemsIn(db, c))[k]);
    }
  }

  /** A container as an export writes it: items by name, tags strictly. */
  ghost predicate InOrder(d: DocContainer) {
    TagsDistinct(d.items) && NormalContainer(d) == d
  }

  lemma DocsInOrder(db: Tables, ids: seq<int>)
    requires WellFormed(db)
    ensures forall d :: d in ContainerDocs(db, ids) ==> InOrder(d)
  {
    hide ContainerDoc, WellFormed, InOrder;
    forall k | 0 <= k < |ids| ensures InOrder(ContainerDocs(db, ids)[k]) { ContainerInOrder(db, ids[k]); }
  }

  /** Every exported container is in order. */
  lemma ExportedContainers(db: Tables)
    requires WellFormed(db)
    ensures forall d :: d in Export(db).containers ==> InOrder(d)
  {
    hide ContainerDocs, WellFormed, InOrder;
    DocsInOrder(db, Scan(db.containers.Keys));
  }

  lemma ContainerInOrder(db: Tables, c: int)
    requires WellFormed(db)
    ensures InOrder(ContainerDoc(db, c))
  {
    hide Contents, WellFormed;
    ContentsSorted(db, c);
    var items := SortBy(ByName, Contents(db, c));
    forall k | 0 <= k < |items|
      ensures StrictlySorted(items[k].tags) && NormalItem(items[k]) == items[k]
    {
      assert items[k] in Contents(db, c);
      SortBySortedIdentity(Le, items[k].tags);
    }
    assert NormalItems(items) == items;
    DocumentOrders();
    SortByIdempotent(ByName, Contents(db, c));
  }

  /** What a store exports can always be imported. */
  lemma ExportAcceptable(db: Tables)
    requires WellFormed(db)
    ensures Acceptable(Export(db))
  {
    hide ContainerDocs, WellFormed, SortBy, Scan;
    ExportedPositions(db);
    ExportedContainers(db);
    var cs := Export(db).containers;
    forall k | 0 <= k < |cs| ensures TagsDistinct(cs[k].items) { assert InOrder(cs[k]); }
  }

  lemma NormalContainersIdentity(cs: seq<DocContainer>)
    requires forall d :: d in cs ==> InOrder(d)
    ensures NormalContainers(cs) == cs
  {
    hide NormalContainer, TagsDistinct;
    forall k | 0 <= k < |cs| ensures NormalContainer(cs[k]) == cs[k] { assert InOrder(cs[k]); }
  }

  lemma ExportIsNormal(db: Tables)
    requires WellFormed(db)
    ensures Normal(Export(db)) == Export(db)
  {
    hide ContainerDocs, WellFormed, NormalContainers, InOrder, ByRowCol, Scan;
    ExportedContainers(db);
    NormalContainersIdentity(Export(db).containers);
    DocumentOrders();
    SortByIdempotent(ByRowCol, ContainerDocs(db, Scan(db.containers.Keys)));
  }

  /** Export, import into any store, export: the same document again. */
  lemma ExportImportExport(db: Tables, into: Tables)
    requires WellFormed(db)
    ensures Import(into, Export(db)).Ok?
    ensures Export(Import(into, Export(db)).value) == Export(db)
  {
    hide Export, Import, WellFormed;
    ExportAcceptable(db);
    ImportSucceedsIff(into, Export(db));
    ImportThenExport(into, Export(db));
    ExportIsNormal(db);
  }

  // ---------- equal up to ids ----------

  ghost predicate ListsAll(ids: seq<int>, s: set<int>) {
    Distinct(ids) && Elements(ids) == s
  }

  /** Item `i` of `a` and item `j` of `b` differ at most in ids. */
  ghost predicate SameItem(a: Tables, i: int, b: Tables, j: int) {
    && i in a.items && j in b.items
    && a.items[i].container in a.containers && b.items[j].container in b.containers
    && a.items[i].name == b.items[j].name
    && a.items[i].description == b.items[j].description
    && TagNames(a, i) == TagNames(b, j)
    && a.containers[a.items[i].container] == b.containers[b.items[j].container]
  }

  ghost predicate SameItems(a: Tables, xs: seq<int>, b: Tables, ys: seq<int>) {
    |xs| == |ys| && forall k :: 0 <= k < |xs| ==> SameItem(a, xs[k], b, ys[k])
  }

  /**
   The two stores hold the same shelf: same name and size, same positions, and a one-to-one
   pairing of all items that keeps name, description, tag names and position.
   */
  ghost predicate SameShelf(a: Tables, b: Tables) {
    && a.name == b.name && a.rows == b.rows && a.cols == b.cols
    && (forall pos :: Occupied(a, pos) <==> Occupied(b, pos))
    && exists xs, ys :: ListsAll(xs, a.items.Keys) && ListsAll(ys, b.items.Keys) && SameItems(a, xs, b, ys)
  }

  /** The container ids in export order. */
  lemma ContainerOrder(db: Tables) returns (ids: seq<int>)
    requires WellFormed(db)
    ensures ListsAll(ids, db.containers.Keys)
    ensures ContainerDocs(db, ids) == Export(db).containers
  {
    hide ContainerDoc, WellFormed, ByRowCol, SortBy, Scan;
    var scan := Scan(db.containers.Keys);
    var le := (x: int, y: int) => ByRowCol(ContainerDoc(db, x), ContainerDoc(db, y));
    var f := (c: int) => ContainerDoc(db, c);
    ids := SortBy(le, scan);
    SortByMap(le, ByRowCol, f, scan);
    PermutationDistinct(scan, ids);
    assert ContainerDocs(db, scan) == Map(f, scan);
    assert ContainerDocs(db, ids) == Map(f, ids);
  }

  /** The item ids of a container in export order. */
  lemma ItemOrder(db: Tables, c: int) returns (ids: seq<int>)
    ensures ListsAll(ids, ItemsIn(db, c))
    ensures ItemDocs(db, ids) == ContainerDoc(db, c).items
  {
    hide TagList;
    var scan := Scan(ItemsIn(db, c));
    var le := (x: int, y: int) => ByName(ItemDoc(db, x), ItemDoc(db, y));
    var f := (i: int) => ItemDoc(db, i);
    ids := SortBy(le, scan);
    SortByMap(le, ByName, f, scan);
    PermutationDistinct(scan, ids);
    assert ItemDocs(db, scan) == Map(f, scan);
    assert ItemDocs(db, ids) == Map(f, ids);
  }

  // ---------- what an exported document says ----------

  /** The document item is item `i`: its name, its description, its tag names each once and in order. */
  ghost predicate TellsItem(db: Tables, i: int, item: DocItem) {
    && i in db.items
    && item.name == db.items[i].name && item.description == db.items[i].description
    && (forall j, k :: 0 <= j < k < |item.tags| ==> Precedes(item.tags[j], item.tags[k]) && item.tags[j] != item.tags[k])
    && Elements(item.tags) == TagNames(db, i)
  }

  ghost predicate TellsItems(db: Tables, ids: seq<int>, items: seq<DocItem>) {
    |ids| == |items| && forall k :: 0 <= k < |ids| ==> TellsItem(db, ids[k], items[k])
  }

  /** The document container is container `c`: its place, its label, its items each once and by name. */
  ghost predicate TellsContainer(db: Tables, c: int, d: DocContainer) {
    && c in db.containers
    && d.col == db.containers[c].col && d.row == db.containers[c].row && d.caption == LabelFor(d.col, d.row)
    && (forall j, k :: 0 <= j < k < |d.items| ==> Precedes(d.items[j].name, d.items[k].name))
    && exists ids :: ListsAll(ids, ItemsIn(db, c)) && TellsItems(db, ids, d.items)
  }

  ghost predicate TellsContainers(db: Tables, ids: seq<int>, cs: seq<DocContainer>) {
    |ids| == |cs| && forall k :: 0 <= k < |ids| ==> TellsContainer(db, ids[k], cs[k])
  }

  /** The document is the store: its header, and every container once, row by row and in a row by column. */
  ghost predicate TellsShelf(db: Tables, doc: Document) {
    && doc.version == 1 && doc.name == db.name && doc.rows == db.rows && doc.cols == db.cols
    && (forall j, k :: 0 <= j < k < |doc.containers| ==>
          doc.containers[j].row < doc.containers[k].row ||
          (doc.containers[j].row == doc.containers[k].row && doc.containers[j].col < doc.containers[k].col))
    && exists ids :: ListsAll(ids, db.containers.Keys) && TellsContainers(db, ids, doc.containers)
  }

  lemma StrictListing(tags: seq<string>)
    requires StrictlySorted(tags)
    ensures forall j, k :: 0 <= j < k < |tags| ==> Precedes(tags[j], tags[k]) && tags[j] != tags[k]
  {
    hide Le, Precedes;
    forall j, k | 0 <= j < k < |tags|
      ensures Precedes(tags[j], tags[k])
    {
      LeMeans(tags[j], tags[k]);
    }
  }

  lemma ItemTold(db: Tables, i: int)
    requires WellFormed(db) && i in db.items
    ensures TellsItem(db, i, ItemDoc(db, i))
  {
    hide Precedes, StrictlySorted, TagNames, TagList;
    TagListListing(db, i);
    StrictListing(TagList(db, i));
  }

  lemma ItemsByName(items: seq<DocItem>)
    ensures var sorted := SortBy(ByName, items);
            forall j, k :: 0 <= j < k < |sorted| ==> Precedes(sorted[j].name, sorted[k].name)
  {
    hide Le, Precedes, SortBy;
    DocumentOrders();
    SortBySorted(ByName, items);
    var sorted := SortBy(ByName, items);
    forall j, k | 0 <= j < k < |sorted|
      ensures Precedes(sorted[j].name, sorted[k].name)
    {
      assert ByName(sorted[j], sorted[k]);
      LeMeans(sorted[j].name, sorted[k].name);
    }
  }

  lemma ContainerTold(db: Tables, c: int)
    requires WellFormed(db) && c in db.containers
    ensures TellsContainer(db, c, ContainerDoc(db, c))
  {
    hide Precedes, SortBy, Contents, LabelFor, WellFormed, TellsItem, ItemDoc;
    ItemsByName(Contents(db, c));
    var ids := ItemOrder(db, c);
    forall k | 0 <= k < |ids|
      ensures TellsItem(db, ids[k], ContainerDoc(db, c).items[k])
    {
      assert ids[k] in Elements(ids);
      ItemTold(db, ids[k]);
      assert ItemDocs(db, ids)[k] == ItemDoc(db, ids[k]);
    }
    var d := ContainerDoc(db, c);
    assert d.items == SortBy(ByName, Contents(db, c));
    assert TellsItems(db, ids, d.items);
    assert d.col == db.containers[c].col && d.row == db.containers[c].row && d.caption == LabelFor(d.col, d.row);
    assert forall j, k :: 0 <= j < k < |d.items| ==> Precedes(d.items[j].name, d.items[k].name);
  }

  lemma ContainersRowByRow(db: Tables)
    requires WellFormed(db)
    ensures var cs := Export(db).containers;
            forall j, k :: 0 <= j < k < |cs| ==> cs[j].row < cs[k].row || (cs[j].row == cs[k].row && cs[j].col < cs[k].col)
  {
    hide SortBy, ContainerDocs, Scan, WellFormed;
    var cs := Export(db).containers;
    DocumentOrders();
    SortBySorted(ByRowCol, ContainerDocs(db, Scan(db.containers.Keys)));
    ExportedPositions(db);
    forall j, k | 0 <= j < k < |cs|
      ensures cs[j].row < cs[k].row || (cs[j].row == cs[k].row && cs[j].col < cs[k].col)
    {
      assert ByRowCol(cs[j], cs[k]) && PosOf(cs[j]) != PosOf(cs[k]);
    }
  }

  /** The exported document says what is in the store, in order and with nothing left out or added. */
  lemma ExportMeans(db: Tables)
    requires WellFormed(db)
    ensures TellsShelf(db, Export(db))
  {
    hide SortBy, ContainerDoc, Scan, WellFormed, TellsContainer;
    ContainersRowByRow(db);
    var ids := ContainerOrder(db);
    forall k | 0 <= k < |ids|
      ensures TellsContainer(db, ids[k], Export(db).containers[k])
    {
      assert ids[k] in Elements(ids);
      ContainerTold(db, ids[k]);
      assert ContainerDocs(db, ids)[k] == ContainerDoc(db, ids[k]);
    }
    assert TellsContainers(db, ids, Export(db).containers);
  }

  // ---------- what an import keeps of a document ----------

  /** `ks` goes through the positions 0 to `n - 1`, each once. */
  ghost predicate Rearranges(ks: seq<int>, n: nat) {
    |ks| == n && Distinct(ks) && forall k :: 0 <= k < |ks| ==> 0 <= ks[k] < n
  }

  /** The same name and description, and the same tags in any order. */
  ghost predicate SameDocItem(a: DocItem, b: DocItem) {
    a.name == b.name && a.description == b.description && multiset(a.tags) == multiset(b.tags)
  }

  ghost predicate ItemsRearranged(a: seq<DocItem>, b: seq<DocItem>, ks: seq<int>) {
    |b| == |a| && Rearranges(ks, |a|) && forall k :: 0 <= k < |ks| ==> 0 <= ks[k] < |a| && SameDocItem(a[ks[k]], b[k])
  }

  /** The same place and the same items in any order; the label does not count. */
  ghost predicate SameDocContainer(a: DocContainer, b: DocContainer) {
    a.col == b.col && a.row == b.row && exists ks :: ItemsRearranged(a.items, b.items, ks)
  }

  ghost predicate ContainersRearranged(a: seq<DocContainer>, b: seq<DocContainer>, ks: seq<int>) {
    |b| == |a| && Rearranges(ks, |a|) && forall k :: 0 <= k < |ks| ==> 0 <= ks[k] < |a| && SameDocContainer(a[ks[k]], b[k])
  }

  /** The documents differ at most in labels and in the order of containers, items and tags. */
  ghost predicate SameDocument(a: Document, b: Document) {
    && a.version == b.version && a.name == b.name && a.rows == b.rows && a.cols == b.cols
    && exists ks :: ContainersRearranged(a.containers, b.containers, ks)
  }

  function At<T>(s: seq<T>, k: int): T
    requires s != []
  {
    if 0 <= k < |s| then s[k] else s[0]
  }

  function Indices(n: nat): (r: seq<int>)
    ensures |r| == n && forall k :: 0 <= k < n ==> r[k] == k
  {
    if n == 0 then [] else Indices(n - 1) + [n - 1]
  }

  lemma SortedIndices(le: (int, int) -> bool, n: nat)
    ensures Rearranges(SortBy(le, Indices(n)), n)
  {
    hide SortBy, Indices;
    var all := Indices(n);
    var ks := SortBy(le, all);
    PermutationDistinct(all, ks);
    forall k | 0 <= k < |ks|
      ensures 0 <= ks[k] < n
    {
      assert ks[k] in ks && ks[k] in all;
    }
  }

  lemma AtAll<T>(s: seq<T>)
    requires s != []
    ensures Map(k => At(s, k), Indices(|s|)) == s
  {
  }

  /** A sort rearranges. */
  lemma SortRearranges<T(!new)>(le: (T, T) -> bool, s: seq<T>) returns (ks: seq<int>)
    ensures Rearranges(ks, |s|)
    ensures forall k :: 0 <= k < |ks| ==> 0 <= ks[k] < |s| && SortBy(le, s)[k] == s[ks[k]]
  {
    hide SortBy, Indices;
    if s == [] {
      ks := [];
    } else {
      var f := k => At(s, k);
      var leAt := (j: int, k: int) => le(At(s, j), At(s, k));
      ks := SortBy(leAt, Indices(|s|));
      SortedIndices(leAt, |s|);
      SortByMap(leAt, le, f, Indices(|s|));
      AtAll(s);
      assert SortBy(le, s) == Map(f, ks);
    }
  }

  lemma RearrangedLength(ks: seq<int>, n: nat)
    requires Rearranges(ks, n)
    ensures |ks| == n
  {
  }

  lemma NormalContainerKeeps(c: DocContainer)
    ensures SameDocContainer(c, NormalContainer(c))
  {
    hide SortBy, Rearranges;
    var ks := SortRearranges(ByName, NormalItems(c.items));
    assert ItemsRearranged(c.items, NormalContainer(c).items, ks);
  }

  lemma NormalKeeps(doc: Document)
    ensures SameDocument(doc, Normal(doc))
  {
    hide SortBy, Rearranges, SameDocContainer, NormalContainer;
    var ks := SortRearranges(ByRowCol, NormalContainers(doc.containers));
    RearrangedLength(ks, |doc.containers|);
    forall k | 0 <= k < |ks|
      ensures SameDocContainer(doc.containers[ks[k]], Normal(doc).containers[k])
    {
      NormalContainerKeeps(doc.containers[ks[k]]);
    }
    assert ContainersRearranged(doc.containers, Normal(doc).containers, ks);
  }

  /** After an import the store is the document: what it tells is the document up to labels and order. */
  lemma ImportTells(db: Tables, doc: Document)
    requires Import(db, doc).Ok?
    ensures WellFormed(Import(db, doc).value)
    ensures TellsShelf(Import(db, doc).value, Normal(doc)) && SameDocument(doc, Normal(doc))
  {
    hide Export, Import, Normal, TellsShelf, SameDocument, WellFormed, AllNames;
    ImportSizes(db, doc);
    ImportThenExport(db, doc);
    ExportMeans(Import(db, doc).value);
    NormalKeeps(doc);
  }

  // ---------- equal exports ----------

  lemma PairContainer(a: Tables, c: int, b: Tables, d: int) returns (xs: seq<int>, ys: seq<int>)
    requires WellFormed(a) && WellFormed(b) && c in a.containers && d in b.containers
    requires ContainerDoc(a, c) == ContainerDoc(b, d)
    ensures ListsAll(xs, ItemsIn(a, c)) && ListsAll(ys, ItemsIn(b, d)) && SameItems(a, xs, b, ys)
  {
    hide Contents;
    xs := ItemOrder(a, c);
    ys := ItemOrder(b, d);
    assert ItemDocs(a, xs) == ItemDocs(b, ys);
    forall k | 0 <= k < |xs|
      ensures SameItem(a, xs[k], b, ys[k])
    {
      assert xs[k] in Elements(xs) && ys[k] in Elements(ys);
      assert ItemDocs(a, xs)[k] == ItemDocs(b, ys)[k];
      TagListListing(a, xs[k]);
      TagListListing(b, ys[k]);
    }
  }

  /** The items of any of the containers `cs`. */
  ghost function ItemsOf(db: Tables, cs: seq<int>): set<int> {
    set i | i in db.items && db.items[i].container in cs
  }

  lemma JoinListings(db: Tables, head: seq<int>, tail: seq<int>, cs: seq<int>)
    requires cs != [] && Distinct(cs)
    requires ListsAll(head, ItemsIn(db, cs[0])) && ListsAll(tail, ItemsOf(db, cs[1..]))
    ensures ListsAll(head + tail, ItemsOf(db, cs))
  {
    var all := head + tail;
    forall i, j | 0 <= i < j < |all|
      ensures all[i] != all[j]
    {
      if i < |head| <= j {
        assert all[i] in Elements(head) && all[j] in Elements(tail);
        assert db.items[all[j]].container in cs[1..];
      }
    }
    ElementsOfConcat(head, tail);
    assert cs == [cs[0]] + cs[1..];
    assert ItemsOf(db, cs) == ItemsIn(db, cs[0]) + ItemsOf(db, cs[1..]);
  }

  lemma {:induction false} PairContainers(a: Tables, cs: seq<int>, b: Tables, ds: seq<int>) returns (xs: seq<int>, ys: seq<int>)
    requires WellFormed(a) && WellFormed(b) && Distinct(cs) && Distinct(ds)
    requires Elements(cs) <= a.containers.Keys && Elements(ds) <= b.containers.Keys
    requires ContainerDocs(a, cs) == ContainerDocs(b, ds)
    ensures ListsAll(xs, ItemsOf(a, cs)) && ListsAll(ys, ItemsOf(b, ds)) && SameItems(a, xs, b, ys)
    decreases |cs|
  {
    hide WellFormed, ContainerDoc, SameItem;
    if cs == [] {
      xs, ys := [], [];
    } else {
      assert |cs| == |ContainerDocs(a, cs)| == |ds|;
      assert cs[0] in Elements(cs) && ds[0] in Elements(ds);
      assert ContainerDocs(a, cs)[0] == ContainerDocs(b, ds)[0];
      var hx, hy := PairContainer(a, cs[0], b, ds[0]);
      TailDocs(a, cs);
      TailDocs(b, ds);
      var tx, ty := PairContainers(a, cs[1..], b, ds[1..]);
      JoinListings(a, hx, tx, cs);
      JoinListings(b, hy, ty, ds);
      xs, ys := hx + tx, hy + ty;
    }
  }

  lemma TailDocs(db: Tables, cs: seq<int>)
    requires cs != [] && Distinct(cs)
    ensures ContainerDocs(db, cs[1..]) == ContainerDocs(db, cs)[1..]
    ensures Distinct(cs[1..]) && Elements(cs[1..]) <= Elements(cs)
  {
  }

  lemma ListedPositions(db: Tables, pos: Pos)
    requires WellFormed(db)
    ensures Occupied(db, pos) <==> HasPosition(Export(db).containers, pos)
  {
    var ids := ContainerOrder(db);
    var cs := Export(db).containers;
    if c :| c in db.containers && db.containers[c] == pos {
      assert c in Elements(ids);
      var k :| 0 <= k < |ids| && ids[k] == c;
      assert PosOf(cs[k]) == pos;
    }
    if k :| 0 <= k < |cs| && PosOf(cs[k]) == pos {
      assert ids[k] in Elements(ids);
    }
  }

  /** Equal exports mean the same shelf. */
  lemma EqualExportsSameShelf(a: Tables, b: Tables)
    requires WellFormed(a) && WellFormed(b) && Export(a) == Export(b)
    ensures SameShelf(a, b)
  {
    hide ContainerDocs, SortBy, WellFormed, Occupied, HasPosition;
    forall pos
      ensures Occupied(a, pos) <==> Occupied(b, pos)
    {
      ListedPositions(a, pos);
      ListedPositions(b, pos);
    }
    EqualExportsSameItems(a, b);
  }

  lemma EqualExportsSameItems(a: Tables, b: Tables)
    requires WellFormed(a) && WellFormed(b) && Export(a) == Export(b)
    ensures exists xs, ys :: ListsAll(xs, a.items.Keys) && ListsAll(ys, b.items.Keys) && SameItems(a, xs, b, ys)
  {
    hide ContainerDocs, SortBy, WellFormed, ItemsOf, SameItems;
    var cs := ContainerOrder(a);
    var ds := ContainerOrder(b);
    assert Distinct(cs) && Distinct(ds);
    var xs, ys := PairContainers(a, cs, b, ds);
    AllItemsListed(a, cs);
    AllItemsListed(b, ds);
    assert ListsAll(xs, a.items.Keys) && ListsAll(ys, b.items.Keys);
  }

  lemma AllItemsListed(db: Tables, cs: seq<int>)
    requires WellFormed(db) && ListsAll(cs, db.containers.Keys)
    ensures ItemsOf(db, cs) == db.items.Keys
  {
    forall i | i in db.items
      ensures i in ItemsOf(db, cs)
    {
      assert db.items[i].container in Elements(cs);
    }
  }

  // ---------- tags in use ----------

  ghost function UsedNames(db: Tables): set<string> {
    set i, n | i in db.items && n in TagNames(db, i) :: n
  }

  lemma {:induction false} InItemTags(items: seq<DocItem>, n: string)
    ensures n in ItemTags(items) <==> exists k :: 0 <= k < |items| && n in items[k].tags
  {
    if items != [] {
      InItemTags(items[1..], n);
      if k :| 0 <= k < |items| && n in items[k].tags {
        assert k > 0 ==> items[1..][k - 1] == items[k];
      }
    }
  }

  lemma {:induction false} InDocTags(cs: seq<DocContainer>, n: string)
    ensures n in DocTags(cs) <==> exists k :: 0 <= k < |cs| && n in ItemTags(cs[k].items)
  {
    if cs != [] {
      InDocTags(cs[1..], n);
      if k :| 0 <= k < |cs| && n in ItemTags(cs[k].items) {
        assert k > 0 ==> cs[1..][k - 1] == cs[k];
      }
    }
  }

  lemma ContainerTags(db: Tables, c: int, n: string)
    requires WellFormed(db)
    ensures n in ItemTags(ContainerDoc(db, c).items) <==> exists i :: i in ItemsIn(db, c) && n in TagNames(db, i)
  {
    hide Contents;
    var items := ContainerDoc(db, c).items;
    var ids := ItemOrder(db, c);
    InItemTags(items, n);
    forall k | 0 <= k < |ids|
      ensures ids[k] in ItemsIn(db, c) && items[k].tags == TagList(db, ids[k]) && Elements(items[k].tags) == TagNames(db, ids[k])
    {
      assert ids[k] in Elements(ids);
      assert items[k] == ItemDocs(db, ids)[k];
      TagListListing(db, ids[k]);
    }
    if i :| i in ItemsIn(db, c) && n in TagNames(db, i) {
      assert i in Elements(ids);
      var k :| 0 <= k < |ids| && ids[k] == i;
      assert n in Elements(items[k].tags);
    }
    if k :| 0 <= k < |items| && n in items[k].tags {
      assert n in Elements(items[k].tags);
    }
  }

  lemma ExportedTagIsUsed(db: Tables, ids: seq<int>, n: string)
    requires WellFormed(db) && n in DocTags(ContainerDocs(db, ids))
    ensures n in UsedNames(db)
  {
    hide WellFormed, TagNames, ContainerDoc, DocTags;
    var cs := ContainerDocs(db, ids);
    InDocTags(cs, n);
    var k :| 0 <= k < |cs| && n in ItemTags(cs[k].items);
    ContainerTags(db, ids[k], n);
  }

  lemma UsedTagIsExported(db: Tables, ids: seq<int>, n: string)
    requires WellFormed(db) && ListsAll(ids, db.containers.Keys) && n in UsedNames(db)
    ensures n in DocTags(ContainerDocs(db, ids))
  {
    hide TagNames, ContainerDoc, DocTags;
    var cs := ContainerDocs(db, ids);
    InDocTags(cs, n);
    var i :| i in db.items && n in TagNames(db, i);
    var c := db.items[i].container;
    assert i in ItemsIn(db, c);
    ContainerTags(db, c, n);
    assert c in Elements(ids);
    var k :| 0 <= k < |ids| && ids[k] == c;
    assert n in ItemTags(cs[k].items);
  }

  /** The tags of an exported document are those that some item carries. */
  lemma ExportedTags(db: Tables)
    requires WellFormed(db)
    ensures DocTags(Export(db).containers) == UsedNames(db)
  {
    hide WellFormed, DocTags, UsedNames, ContainerDocs, Export;
    var ids := ContainerOrder(db);
    forall n
      ensures n in DocTags(Export(db).containers) <==> n in UsedNames(db)
    {
      if n in DocTags(Export(db).containers) { ExportedTagIsUsed(db, ids, n); }
      if n in UsedNames(db) { UsedTagIsExported(db, ids, n); }
    }
  }

  /**
   Importing what a store exported, into any store, gives back the same shelf up to row ids;
   the tag table then holds exactly the names that some item carries.
   */
  lemma ImportRestores(db: Tables, into: Tables)
    requires WellFormed(db)
    ensures Import(into, Export(db)).Ok?
    ensures SameShelf(db, Import(into, Export(db)).value)
    ensures AllNames(Import(into, Export(db)).value) == UsedNames(db)
  {
    hide Export, Import, SameShelf, AllNames, WellFormed, UsedNames;
    ExportImportExport(db, into);
    ImportSizes(into, Export(db));
    EqualExportsSameShelf(db, Import(into, Export(db)).value);
    ExportedTags(db);
  }
}
