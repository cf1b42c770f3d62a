/**
 Duplicate detection: rows keyed by normalized name and tag fingerprint, grouped by a map and
 an order list, against the plain notion of items that are alike.
 */
module Duplicates {
  import opened Wrappers
  import opened Sequences
  import opened Text
  import opened Labels
  import opened Schema
  import opened Search

  // ---------- the query ----------

  datatype GroupKey = GroupKey(normName: string, fingerprint: string)

  datatype DupRow = DupRow(id: int, originalName: string, key: GroupKey, containerId: int, col: int, row: int)

  function NormName(db: Tables, i: int): string {
    if i in db.items then Lower(SqlTrim(db.items[i].name)) else ""
  }

  function KeyOf(db: Tables, i: int): GroupKey {
    GroupKey(NormName(db, i), Join(TagList(db, i)))
  }

  /** The containers over which a key is spread. */
  function Spread(db: Tables, key: GroupKey): set<int> {
    set i | i in db.items && KeyOf(db, i) == key :: db.items[i].container
  }

  /** Items whose key has COUNT(DISTINCT container_id) >= 2. */
  function Repeated(db: Tables): set<int> {
    set i | i in db.items && Placed(db, i) && |Spread(db, KeyOf(db, i))| >= 2
  }

  function RowOf(db: Tables, i: int): DupRow {
    if Placed(db, i) then
      var item := db.items[i];
      DupRow(i, item.name, KeyOf(db, i), item.container, db.containers[item.container].col, db.containers[item.container].row)
    else DupRow(i, "", KeyOf(db, i), 0, 0, 0)
  }

  function RowsOf(db: Tables, ids: seq<int>): (r: seq<DupRow>)
    ensures |r| == |ids|
    ensures forall k :: 0 <= k < |ids| ==> r[k] == RowOf(db, ids[k])
  {
    Map(i => RowOf(db, i), ids)
  }

  predicate ByNormColRow(a: DupRow, b: DupRow) {
    if a.key.normName != b.key.normName then Le(a.key.normName, b.key.normName)
    else a.col < b.col || (a.col == b.col && a.row <= b.row)
  }

  lemma ByNormColRowOrder()
    ensures Order(ByNormColRow)
  {
    LeOrder();
  }

  function DuplicateRows(db: Tables): seq<DupRow> {
    SortBy(ByNormColRow, RowsOf(db, Scan(Repeated(db))))
  }

  // ---------- grouping ----------

  datatype Location = Location(containerId: int, caption: string)

  datatype DuplicateGroup = DuplicateGroup(name: string, tags: seq<string>, count: nat, containers: seq<Location>)

  function LocationOf(r: DupRow): Location {
    Location(r.containerId, LabelFor(r.col, r.row))
  }

  function Keys(rows: seq<DupRow>): (r: seq<GroupKey>)
    ensures |r| == |rows|
    ensures forall k :: 0 <= k < |rows| ==> r[k] == rows[k].key
  {
    Map((r: DupRow) => r.key, rows)
  }

  function RowsWith(rows: seq<DupRow>, key: GroupKey): (r: seq<DupRow>)
    ensures forall x :: x in r <==> x in rows && x.key == key
  {
    Filter((r: DupRow) => r.key == key, rows)
  }

  lemma RowsWithNext(rows: seq<DupRow>, r: DupRow, key: GroupKey)
    ensures RowsWith(rows + [r], key) == if r.key == key then RowsWith(rows, key) + [r] else RowsWith(rows, key)
  {
    FilterAppend((x: DupRow) => x.key == key, rows, [r]);
  }

  /** The group that a run of rows with one key makes. */
  function GroupFor(rows: seq<DupRow>): DuplicateGroup
    requires rows != []
  {
    DuplicateGroup(rows[0].originalName, Unpack(rows[0].key.fingerprint), |rows|, Map(LocationOf, rows))
  }

  /** The keys in the order in which the rows first show them. */
  function KeyOrder(rows: seq<DupRow>): seq<GroupKey> {
    FirstOccurrences(Keys(rows))
  }

  lemma KeyHasRows(rows: seq<DupRow>, key: GroupKey)
    ensures key in KeyOrder(rows) <==> RowsWith(rows, key) != []
  {
    assert key in KeyOrder(rows) <==> key in Elements(KeyOrder(rows));
    assert key in Keys(rows) <==> key in Elements(Keys(rows));
    if key in Keys(rows) {
      var k :| 0 <= k < |rows| && Keys(rows)[k] == key;
      assert rows[k] in RowsWith(rows, key);
    }
    if RowsWith(rows, key) != [] {
      assert RowsWith(rows, key)[0] in rows;
      var k :| 0 <= k < |rows| && rows[k] == RowsWith(rows, key)[0];
      assert Keys(rows)[k] == key;
    }
  }

  lemma NoRows()
    ensures KeyOrder([]) == [] && forall key :: RowsWith([], key) == []
  {
  }

  /** What one more row does to the keys and to the groups. */
  lemma NextRow(rows: seq<DupRow>, r: DupRow)
    ensures KeyOrder(rows + [r]) == if RowsWith(rows, r.key) == [] then KeyOrder(rows) + [r.key] else KeyOrder(rows)
    ensures forall key :: RowsWith(rows + [r], key) == if r.key == key then RowsWith(rows, key) + [r] else RowsWith(rows, key)
    ensures var g := if RowsWith(rows, r.key) == [] then DuplicateGroup(r.originalName, Unpack(r.key.fingerprint), 0, [])
                     else GroupFor(RowsWith(rows, r.key));
            var places := g.containers + [LocationOf(r)];
            GroupFor(RowsWith(rows, r.key) + [r]) == g.(count := |places|, containers := places)
  {
    forall key { RowsWithNext(rows, r, key); }
    assert Keys(rows + [r]) == Keys(rows) + [r.key];
    KeyHasRows(rows, r.key);
    OneMoreKey(Keys(rows), r.key);
    OneMoreInGroup(RowsWith(rows, r.key), r);
  }

  lemma OneMoreInGroup(rows: seq<DupRow>, r: DupRow)
    ensures var g := if rows == [] then DuplicateGroup(r.originalName, Unpack(r.key.fingerprint), 0, []) else GroupFor(rows);
            var places := g.containers + [LocationOf(r)];
            GroupFor(rows + [r]) == g.(count := |places|, containers := places)
  {
  }

  lemma OneMoreKey(keys: seq<GroupKey>, key: GroupKey)
    ensures FirstOccurrences(keys + [key]) == if key in keys then FirstOccurrences(keys) else FirstOccurrences(keys) + [key]
    ensures key in keys <==> key in FirstOccurrences(keys)
  {
    var all := keys + [key];
    assert all[..|all| - 1] == keys;
    assert key in keys <==> key in Elements(keys);
    assert key in FirstOccurrences(keys) <==> key in Elements(FirstOccurrences(keys));
  }

  /** The groups are, key by key in order of appearance, made of all rows with that key. */
  ghost predicate Groups(rows: seq<DupRow>, groups: seq<DuplicateGroup>) {
    && |groups| == |KeyOrder(rows)|
    && forall k :: 0 <= k < |groups| ==>
         RowsWith(rows, KeyOrder(rows)[k]) != [] && groups[k] == GroupFor(RowsWith(rows, KeyOrder(rows)[k]))
  }

  // ---------- items that are alike ----------

  /** The same name up to case and surrounding blanks, and the same tags. */
  ghost predicate Alike(db: Tables, i: int, j: int) {
    && i in db.items && j in db.items
    && SameName(db.items[i].name, db.items[j].name)
    && TagNames(db, i) == TagNames(db, j)
  }

  lemma AlikeMeans(db: Tables, i: int, j: int)
    requires i in db.items && j in db.items
    ensures Alike(db, i, j) <==> NormName(db, i) == NormName(db, j) && TagNames(db, i) == TagNames(db, j)
  {
    hide SameName, SqlTrim, Lower, TagNames;
    SameNameMeans(db.items[i].name, db.items[j].name);
  }

  ghost function Class(db: Tables, i: int): set<int> {
    set j | j in db.items && Alike(db, i, j)
  }

  ghost predicate SpansTwo(db: Tables, s: set<int>) {
    exists i, j :: i in s && j in s && i in db.items && j in db.items && db.items[i].container != db.items[j].container
  }

  /** Alike items always share their key, whatever their tags are called. */
  lemma AlikeShareKey(db: Tables, i: int, j: int)
    requires WellFormed(db) && Alike(db, i, j)
    ensures KeyOf(db, i) == KeyOf(db, j)
  {
    hide SameName, TagNames, NormName, TagList;
    AlikeMeans(db, i, j);
    TagListDetermined(db, i, db, j);
  }

  /** An item's packed tag list reads back exactly when its tag set is readable. */
  lemma PackedListReturnsIff(db: Tables, i: int)
    requires WellFormed(db)
    ensures Unpack(Join(TagList(db, i))) == TagList(db, i) <==> Readable(TagNames(db, i))
  {
    hide Unpack, Join, TagList, StrictlySorted;
    TagListListing(db, i);
    var ts := TagList(db, i);
    ListingIsDistinct(ts);
    UnpackJoin(ts);
    OnlyEmptyName(ts);
    assert forall k :: 0 <= k < |ts| ==> ts[k] in Elements(ts);
  }

  lemma ListingIsDistinct(s: seq<string>)
    requires StrictlySorted(s)
    ensures Distinct(s)
  {
  }

  /** Between items with readable tags a shared key means alike; with other tags it need not. */
  lemma KeysMeanAlike(db: Tables, i: int, j: int)
    requires WellFormed(db) && i in db.items && j in db.items && Readable(TagNames(db, i)) && Readable(TagNames(db, j))
    ensures KeyOf(db, i) == KeyOf(db, j) <==> Alike(db, i, j)
  {
    hide TagNames, TagList, Unpack, Join, Readable, Alike, NormName;
    AlikeMeans(db, i, j);
    TagListListing(db, i);
    TagListListing(db, j);
    PackedListReturnsIff(db, i);
    PackedListReturnsIff(db, j);
    if Alike(db, i, j) {
      AlikeShareKey(db, i, j);
    }
  }

  /** Two drawers with a screw each, one tagged "a|b", the other "a" and "b". */
  function PipedShelf(): Tables {
    Tables("shelf", 1, 2, map[1 := Pos(1, 1), 2 := Pos(2, 1)], map[1 := Item(1, "screw", None), 2 := Item(2, "screw", None)],
           map[1 := "a|b", 2 := "a", 3 := "b"], {(1, 1), (2, 2), (2, 3)}, 2, 2, 3)
  }

  lemma PipedShelfIsWellFormed()
    ensures WellFormed(PipedShelf())
  {
  }

  lemma PipedTags()
    ensures TagNames(PipedShelf(), 1) == {"a|b"} && TagNames(PipedShelf(), 2) == {"a", "b"}
  {
    var db := PipedShelf();
    forall n ensures n in TagNames(db, 1) <==> n == "a|b" { assert (1, 1) in db.links && db.tags[1] == "a|b"; }
    forall n
      ensures n in TagNames(db, 2) <==> n == "a" || n == "b"
    {
      assert (2, 2) in db.links && db.tags[2] == "a";
      assert (2, 3) in db.links && db.tags[3] == "b";
    }
  }

  lemma ListedAs(db: Tables, i: int, names: seq<string>)
    requires WellFormed(db) && StrictlySorted(names) && Elements(names) == TagNames(db, i)
    ensures TagList(db, i) == names
  {
    TagListListing(db, i);
    ListingUnique(TagList(db, i), names);
  }

  /** Unlike items can get the same key, and are then reported as duplicates. */
  lemma PipeFoolsFingerprint()
    ensures var db := PipedShelf();
            WellFormed(db) && KeyOf(db, 1) == KeyOf(db, 2) && !Alike(db, 1, 2) && 1 in Repeated(db) && 2 in Repeated(db)
  {
    hide TagNames, TagList, Join, SqlTrim, Lower, WellFormed;
    var db := PipedShelf();
    PipedShelfIsWellFormed();
    PipedTags();
    var one, two := ["a|b"], ["a", "b"];
    assert Elements(one) == {"a|b"} by { assert one[0] == "a|b"; }
    assert Elements(two) == {"a", "b"} by { assert two[0] == "a" && two[1] == "b"; }
    ListedAs(db, 1, one);
    ListedAs(db, 2, two);
    JoinsAlike();
    assert "a" in TagNames(db, 2) && "a" !in TagNames(db, 1);
    SpreadOverTwo(db);
  }

  lemma JoinsAlike()
    ensures Join(["a|b"]) == Join(["a", "b"])
  {
    assert "a" + "|" + "b" == "a|b";
  }

  lemma SpreadOverTwo(db: Tables)
    requires db == PipedShelf() && KeyOf(db, 1) == KeyOf(db, 2)
    ensures 1 in Repeated(db) && 2 in Repeated(db)
  {
    hide KeyOf;
    var spread := Spread(db, KeyOf(db, 1));
    assert db.items[1].container in spread && db.items[2].container in spread;
    TwoMembers(spread);
  }

  lemma {:induction false} TwoMembers(s: set<int>)
    ensures |s| >= 2 <==> exists x, y :: x in s && y in s && x != y
  {
    if x, y :| x in s && y in s && x != y {
      assert {x, y} <= s;
      SubsetSize({x, y}, s);
    }
    if |s| >= 2 {
      var x := Pick(s);
      var y := Pick(s - {x});
      assert x in s && y in s && x != y;
    }
  }

  /** The items that share item i's key. */
  ghost function WithKey(db: Tables, key: GroupKey): set<int> {
    set j | j in db.items && KeyOf(db, j) == key
  }

  lemma RepeatedMeans(db: Tables, i: int)
    requires WellFormed(db) && i in db.items
    ensures i in Repeated(db) <==> SpansTwo(db, WithKey(db, KeyOf(db, i)))
  {
    hide KeyOf;
    var spread := Spread(db, KeyOf(db, i));
    TwoMembers(spread);
    if c, d :| c in spread && d in spread && c != d {
      var j :| j in db.items && KeyOf(db, j) == KeyOf(db, i) && db.items[j].container == c;
      var k :| k in db.items && KeyOf(db, k) == KeyOf(db, i) && db.items[k].container == d;
      assert j in WithKey(db, KeyOf(db, i)) && k in WithKey(db, KeyOf(db, i));
    }
    if SpansTwo(db, WithKey(db, KeyOf(db, i))) {
      var j, k :| j in WithKey(db, KeyOf(db, i)) && k in WithKey(db, KeyOf(db, i)) && db.items[j].container != db.items[k].container;
      assert db.items[j].container in spread && db.items[k].container in spread;
    }
  }

  lemma ClassSharesKey(db: Tables, i: int)
    requires WellFormed(db)
    ensures Class(db, i) <= WithKey(db, KeyOf(db, i))
  {
    hide KeyOf, Alike;
    forall j | j in Class(db, i) ensures KeyOf(db, i) == KeyOf(db, j) { AlikeShareKey(db, i, j); }
  }

  function Ids(rows: seq<DupRow>): (r: seq<int>)
    ensures |r| == |rows|
    ensures forall k :: 0 <= k < |rows| ==> r[k] == rows[k].id
  {
    Map((r: DupRow) => r.id, rows)
  }

  lemma RowsListing(db: Tables)
    ensures Distinct(RowsOf(db, Scan(Repeated(db))))
    ensures forall r :: r in RowsOf(db, Scan(Repeated(db))) <==> r.id in Repeated(db) && r == RowOf(db, r.id)
  {
    hide RowOf, Repeated;
    var scan := Scan(Repeated(db));
    var rows := RowsOf(db, scan);
    forall k | 0 <= k < |rows| ensures rows[k].id == scan[k] && scan[k] in Repeated(db) { RowId(db, scan[k]); }
    forall r
      ensures r in rows <==> r.id in Repeated(db) && r == RowOf(db, r.id)
    {
      if r.id in Repeated(db) {
        assert r.id in scan;
        var k :| 0 <= k < |scan| && scan[k] == r.id;
        assert rows[k] == RowOf(db, r.id);
      }
    }
  }

  lemma RowId(db: Tables, i: int)
    ensures RowOf(db, i).id == i && RowOf(db, i).key == KeyOf(db, i)
  {
  }

  /** Sorting neither loses nor repeats a row. */
  lemma DuplicateRowsListing(db: Tables)
    ensures Distinct(DuplicateRows(db)) && Sorted(ByNormColRow, DuplicateRows(db))
    ensures forall r :: r in DuplicateRows(db) <==> r.id in Repeated(db) && r == RowOf(db, r.id)
  {
    hide RowOf, Repeated, RowsOf, ByNormColRow;
    var rows := RowsOf(db, Scan(Repeated(db)));
    RowsListing(db);
    ByNormColRowOrder();
    SortBySorted(ByNormColRow, rows);
    PermutationDistinct(rows, SortBy(ByNormColRow, rows));
  }

  lemma {:induction false} FilterDistinct<T(!new)>(p: T -> bool, s: seq<T>)
    requires Distinct(s)
    ensures Distinct(Filter(p, s))
  {
    if s != [] {
      FilterDistinct(p, s[1..]);
      assert s[0] !in s[1..];
      if p(s[0]) {
        DistinctCons(s[0], Filter(p, s[1..]));
      }
    }
  }

  /** The rows of one key are, once each, the items with that key. */
  lemma GroupIsKeyClass(db: Tables, i: int)
    requires WellFormed(db) && i in Repeated(db)
    ensures Distinct(Ids(RowsWith(DuplicateRows(db), KeyOf(db, i))))
    ensures Elements(Ids(RowsWith(DuplicateRows(db), KeyOf(db, i)))) == WithKey(db, KeyOf(db, i))
  {
    hide KeyOf, RowOf, DuplicateRows;
    var all := DuplicateRows(db);
    var rows := RowsWith(all, KeyOf(db, i));
    DuplicateRowsListing(db);
    FilterDistinct((r: DupRow) => r.key == KeyOf(db, i), all);
    forall k | 0 <= k < |rows|
      ensures rows[k].id in Repeated(db) && rows[k] == RowOf(db, rows[k].id) && KeyOf(db, rows[k].id) == KeyOf(db, i)
    {
      assert rows[k] in all;
      RowId(db, rows[k].id);
    }
    forall j
      ensures j in Ids(rows) <==> j in WithKey(db, KeyOf(db, i))
    {
      if j in WithKey(db, KeyOf(db, i)) {
        SameKeyRepeated(db, i, j);
        RowId(db, j);
        assert RowOf(db, j) in rows;
        var k :| 0 <= k < |rows| && rows[k] == RowOf(db, j);
        assert Ids(rows)[k] == j;
      }
      if j in Ids(rows) {
        var k :| 0 <= k < |rows| && Ids(rows)[k] == j;
      }
    }
  }

  lemma SameKeyRepeated(db: Tables, i: int, j: int)
    requires WellFormed(db) && i in Repeated(db) && j in db.items && KeyOf(db, i) == KeyOf(db, j)
    ensures j in Repeated(db)
  {
    hide KeyOf;
  }

  /** A group lists its members once each, in column and row order, each with its place, and counts them. */
  ghost predicate ListsPlaces(db: Tables, group: DuplicateGroup, ids: seq<int>) {
    && ids != [] && Distinct(ids)
    && (forall k :: 0 <= k < |ids| ==> Placed(db, ids[k]))
    && group.name == db.items[ids[0]].name
    && group.count == |ids| == |group.containers|
    && (forall k :: 0 <= k < |ids| ==>
          && group.containers[k].containerId == db.items[ids[k]].container
          && group.containers[k].caption ==
             LabelFor(db.containers[db.items[ids[k]].container].col, db.containers[db.items[ids[k]].container].row))
    && (forall j, k :: 0 <= j < k < |ids| ==> ShelvedBefore(db, ids[j], ids[k]))
  }

  /** A group reports one class of alike items that spans two containers, its tags, size and places. */
  ghost predicate Reports(db: Tables, group: DuplicateGroup, ids: seq<int>) {
    && ListsPlaces(db, group, ids)
    && Elements(ids) == Class(db, ids[0]) && SpansTwo(db, Class(db, ids[0]))
    && StrictlySorted(group.tags) && Elements(group.tags) == TagNames(db, ids[0])
  }

  lemma GroupPlaces(db: Tables, key: GroupKey)
    ensures var rows := RowsWith(DuplicateRows(db), key);
            forall k :: 0 <= k < |rows| ==> rows[k] == RowOf(db, rows[k].id) && Placed(db, rows[k].id) && rows[k].key == key
  {
    hide KeyOf, DuplicateRows, RowOf;
    var rows := RowsWith(DuplicateRows(db), key);
    DuplicateRowsListing(db);
    forall k | 0 <= k < |rows|
      ensures rows[k] == RowOf(db, rows[k].id) && Placed(db, rows[k].id) && rows[k].key == key
    {
      assert rows[k] in rows && rows[k] in DuplicateRows(db);
    }
  }

  lemma {:induction false} FilterSorted<T(!new)>(le: (T, T) -> bool, p: T -> bool, s: seq<T>)
    requires Sorted(le, s)
    ensures Sorted(le, Filter(p, s))
  {
    if s != [] {
      FilterSorted(le, p, s[1..]);
      var rest := Filter(p, s[1..]);
      forall k | 0 <= k < |rest|
        ensures le(s[0], rest[k])
      {
        assert rest[k] in s[1..];
      }
    }
  }

  lemma GroupInOrder(db: Tables, key: GroupKey)
    ensures var rows := RowsWith(DuplicateRows(db), key);
            forall j, k :: 0 <= j < k < |rows| ==>
              rows[j].col < rows[k].col || (rows[j].col == rows[k].col && rows[j].row <= rows[k].row)
  {
    hide DuplicateRows;
    var rows := RowsWith(DuplicateRows(db), key);
    DuplicateRowsListing(db);
    FilterSorted(ByNormColRow, (r: DupRow) => r.key == key, DuplicateRows(db));
    forall k | 0 <= k < |rows| ensures rows[k].key == key { assert rows[k] in rows; }
  }

  lemma GroupListsPlaces(db: Tables, key: GroupKey)
    requires RowsWith(DuplicateRows(db), key) != [] && Distinct(Ids(RowsWith(DuplicateRows(db), key)))
    ensures ListsPlaces(db, GroupFor(RowsWith(DuplicateRows(db), key)), Ids(RowsWith(DuplicateRows(db), key)))
  {
    hide KeyOf, DuplicateRows, RowsWith, LabelFor, Unpack;
    GroupPlaces(db, key);
    GroupInOrder(db, key);
  }

  /** What every group lists, whatever the tags are called. */
  lemma GroupLists(db: Tables, key: GroupKey)
    requires WellFormed(db) && RowsWith(DuplicateRows(db), key) != []
    ensures var rows := RowsWith(DuplicateRows(db), key);
            && ListsPlaces(db, GroupFor(rows), Ids(rows))
            && Elements(Ids(rows)) == WithKey(db, key) && SpansTwo(db, WithKey(db, key))
            && KeyOf(db, Ids(rows)[0]) == key && Ids(rows)[0] in Repeated(db)
            && GroupFor(rows).tags == Unpack(key.fingerprint)
  {
    hide KeyOf, DuplicateRows, RowsWith, RowOf, Repeated, ListsPlaces, GroupFor, WithKey, SpansTwo;
    var rows := RowsWith(DuplicateRows(db), key);
    var i := rows[0].id;
    DuplicateRowsListing(db);
    GroupPlaces(db, key);
    assert rows[0] in rows && rows[0] in DuplicateRows(db);
    RowId(db, i);
    GroupIsKeyClass(db, i);
    RepeatedIsItem(db, i);
    RepeatedMeans(db, i);
    GroupListsPlaces(db, key);
    assert rows[0].key == key;
    TagsOfGroup(rows);
  }

  lemma TagsOfGroup(rows: seq<DupRow>)
    requires rows != []
    ensures GroupFor(rows).tags == Unpack(rows[0].key.fingerprint)
  {
  }

  lemma RepeatedIsItem(db: Tables, i: int)
    requires i in Repeated(db)
    ensures i in db.items
  {
  }

  /** The item ids behind each group. */
  ghost function GroupIds(db: Tables): (r: seq<seq<int>>)
    ensures |r| == |KeyOrder(DuplicateRows(db))|
    ensures forall k :: 0 <= k < |r| ==> r[k] == Ids(RowsWith(DuplicateRows(db), KeyOrder(DuplicateRows(db))[k]))
  {
    Map((key: GroupKey) => Ids(RowsWith(DuplicateRows(db), key)), KeyOrder(DuplicateRows(db)))
  }

  /**
   Whatever the tags are called, each group lists, once each and in order of place, all items
   with its key, and these sit in two containers at least.
   */
  lemma GroupsListKeyClasses(db: Tables, groups: seq<DuplicateGroup>)
    requires WellFormed(db) && Groups(DuplicateRows(db), groups)
    ensures |GroupIds(db)| == |groups|
    ensures forall k :: 0 <= k < |groups| ==>
              && ListsPlaces(db, groups[k], GroupIds(db)[k])
              && Elements(GroupIds(db)[k]) == WithKey(db, KeyOf(db, GroupIds(db)[k][0]))
              && SpansTwo(db, Elements(GroupIds(db)[k]))
  {
    hide ListsPlaces, DuplicateRows, WithKey, KeyOf, SpansTwo;
    forall k | 0 <= k < |groups|
      ensures ListsPlaces(db, groups[k], GroupIds(db)[k])
      ensures Elements(GroupIds(db)[k]) == WithKey(db, KeyOf(db, GroupIds(db)[k][0])) && SpansTwo(db, Elements(GroupIds(db)[k]))
    {
      GroupLists(db, KeyOrder(DuplicateRows(db))[k]);
    }
  }

  lemma {:induction false} FirstOccurrencesSorted<T(!new)>(le: (T, T) -> bool, s: seq<T>)
    requires Sorted(le, s)
    ensures Sorted(le, FirstOccurrences(s))
  {
    if s != [] {
      var init, last := s[..|s| - 1], s[|s| - 1];
      FirstOccurrencesSorted(le, init);
      var r := FirstOccurrences(init);
      forall k | 0 <= k < |r|
        ensures le(r[k], last)
      {
        assert r[k] in Elements(r) && r[k] in Elements(init);
        var m :| 0 <= m < |init| && init[m] == r[k];
        assert s[m] == init[m];
      }
    }
  }

  predicate ByNorm(a: GroupKey, b: GroupKey) {
    Le(a.normName, b.normName)
  }

  lemma KeysSorted(db: Tables)
    ensures Sorted(ByNorm, KeyOrder(DuplicateRows(db)))
  {
    hide DuplicateRows, Le;
    var rows := DuplicateRows(db);
    DuplicateRowsListing(db);
    LeOrder();
    forall j, k | 0 <= j < k < |rows|
      ensures ByNorm(Keys(rows)[j], Keys(rows)[k])
    {
      assert ByNormColRow(rows[j], rows[k]);
    }
    FirstOccurrencesSorted(ByNorm, Keys(rows));
  }

  /** The groups come in order of their names, folded and trimmed. */
  lemma GroupsInOrder(db: Tables, groups: seq<DuplicateGroup>)
    requires WellFormed(db) && Groups(DuplicateRows(db), groups)
    ensures forall j, k :: 0 <= j < k < |groups| ==> Precedes(Lower(SqlTrim(groups[j].name)), Lower(SqlTrim(groups[k].name)))
  {
    hide DuplicateRows, Le, Precedes, Lower, SqlTrim, GroupFor, RowsWith;
    KeysSorted(db);
    var keys := KeyOrder(DuplicateRows(db));
    forall j | 0 <= j < |groups|
      ensures Lower(SqlTrim(groups[j].name)) == keys[j].normName
    {
      GroupName(db, keys[j]);
    }
    forall j, k | 0 <= j < k < |groups|
      ensures Precedes(Lower(SqlTrim(groups[j].name)), Lower(SqlTrim(groups[k].name)))
    {
      assert ByNorm(keys[j], keys[k]);
      LeMeans(keys[j].normName, keys[k].normName);
    }
  }

  lemma GroupName(db: Tables, key: GroupKey)
    requires RowsWith(DuplicateRows(db), key) != []
    ensures Lower(SqlTrim(GroupFor(RowsWith(DuplicateRows(db), key)).name)) == key.normName
  {
    hide DuplicateRows, Lower, SqlTrim, TagList, Join, RowsWith;
    var rows := RowsWith(DuplicateRows(db), key);
    GroupPlaces(db, key);
    assert rows[0] == RowOf(db, rows[0].id);
  }

  lemma ReadableGroupReports(db: Tables, key: GroupKey)
    requires WellFormed(db) && RowsWith(DuplicateRows(db), key) != []
    requires forall i :: i in Repeated(db) ==> Readable(TagNames(db, i))
    ensures Reports(db, GroupFor(RowsWith(DuplicateRows(db), key)), Ids(RowsWith(DuplicateRows(db), key)))
  {
    hide ListsPlaces, Repeated, TagNames, Readable, KeyOf, SpansTwo, DuplicateRows, RowsWith, Unpack, StrictlySorted, Alike;
    var rows := RowsWith(DuplicateRows(db), key);
    var i := Ids(rows)[0];
    GroupLists(db, key);
    ReadableClass(db, i);
    ReadableTags(db, i);
    assert rows[0].key == key by { GroupPlaces(db, key); }
  }

  lemma ReadableTags(db: Tables, i: int)
    requires WellFormed(db) && Readable(TagNames(db, i))
    ensures StrictlySorted(Unpack(KeyOf(db, i).fingerprint)) && Elements(Unpack(KeyOf(db, i).fingerprint)) == TagNames(db, i)
  {
    PackedListReturnsIff(db, i);
    TagListListing(db, i);
  }

  lemma ReadableClass(db: Tables, i: int)
    requires WellFormed(db) && i in Repeated(db)
    requires forall j :: j in Repeated(db) ==> Readable(TagNames(db, j))
    ensures WithKey(db, KeyOf(db, i)) == Class(db, i)
  {
    hide KeyOf, TagNames, Readable, Alike, Repeated;
    ClassSharesKey(db, i);
    forall j | j in WithKey(db, KeyOf(db, i))
      ensures j in Class(db, i)
    {
      SameKeyRepeated(db, i, j);
      RepeatedIsItem(db, i);
      KeysMeanAlike(db, i, j);
    }
  }

  lemma ReportedTagsReadable(db: Tables, i: int, j: int, group: DuplicateGroup)
    requires WellFormed(db) && Alike(db, i, j)
    requires group.tags == Unpack(KeyOf(db, i).fingerprint)
    requires StrictlySorted(group.tags) && Elements(group.tags) == TagNames(db, i)
    ensures Readable(TagNames(db, j))
  {
    TagListListing(db, i);
    ListingUnique(group.tags, TagList(db, i));
    PackedListReturnsIff(db, i);
  }

  lemma ReportedItemReadable(db: Tables, i: int, key: GroupKey)
    requires WellFormed(db) && RowsWith(DuplicateRows(db), key) != [] && i in Ids(RowsWith(DuplicateRows(db), key))
    requires Reports(db, GroupFor(RowsWith(DuplicateRows(db), key)), Ids(RowsWith(DuplicateRows(db), key)))
    ensures Readable(TagNames(db, i))
  {
    hide ListsPlaces, Repeated, TagNames, Readable, KeyOf, SpansTwo, DuplicateRows, RowsWith, Unpack, StrictlySorted, Alike;
    var rows := RowsWith(DuplicateRows(db), key);
    GroupLists(db, key);
    assert rows[0].key == key by { GroupPlaces(db, key); }
    assert i in Elements(Ids(rows));
    ReportedTagsReadable(db, Ids(rows)[0], i, GroupFor(rows));
  }

  /**
   Sound: every group reports one class of alike items that spans two containers, exactly when
   every item with a repeated key has readable tags.
   */
  lemma DuplicatesSoundIff(db: Tables, groups: seq<DuplicateGroup>)
    requires WellFormed(db) && Groups(DuplicateRows(db), groups)
    ensures |GroupIds(db)| == |groups|
    ensures (forall k :: 0 <= k < |groups| ==> Reports(db, groups[k], GroupIds(db)[k])) <==>
              forall i :: i in Repeated(db) ==> Readable(TagNames(db, i))
  {
    hide Reports, DuplicateRows, Repeated, Readable, TagNames, GroupFor, RowsWith, KeyOf;
    if forall i :: i in Repeated(db) ==> Readable(TagNames(db, i)) {
      forall k | 0 <= k < |groups|
        ensures Reports(db, groups[k], GroupIds(db)[k])
      {
        ReadableGroupReports(db, KeyOrder(DuplicateRows(db))[k]);
      }
    }
    if forall k :: 0 <= k < |groups| ==> Reports(db, groups[k], GroupIds(db)[k]) {
      forall i | i in Repeated(db)
        ensures Readable(TagNames(db, i))
      {
        RepeatedGrouped(db, i);
        var k :| 0 <= k < |GroupIds(db)| && i in GroupIds(db)[k];
        ReportedItemReadable(db, i, KeyOrder(DuplicateRows(db))[k]);
      }
    }
  }

  lemma GroupMember(db: Tables, i: int, k: nat)
    requires k < |GroupIds(db)| && i in GroupIds(db)[k]
    ensures i in Repeated(db) && KeyOrder(DuplicateRows(db))[k] == KeyOf(db, i)
  {
    hide KeyOf, DuplicateRows, RowOf, Repeated, KeyOrder;
    var rows := DuplicateRows(db);
    DuplicateRowsListing(db);
    RowId(db, i);
    var group := RowsWith(rows, KeyOrder(rows)[k]);
    var m :| 0 <= m < |group| && Ids(group)[m] == i;
    assert group[m] in rows;
  }

  lemma RepeatedGrouped(db: Tables, i: int)
    requires i in Repeated(db)
    ensures exists k :: 0 <= k < |GroupIds(db)| && i in GroupIds(db)[k]
  {
    hide KeyOf, DuplicateRows, RowOf, Repeated, KeyOrder;
    var rows := DuplicateRows(db);
    DuplicateRowsListing(db);
    RowId(db, i);
    var group := RowsWith(rows, KeyOf(db, i));
    assert RowOf(db, i) in group;
    KeyHasRows(rows, KeyOf(db, i));
    var k :| 0 <= k < |KeyOrder(rows)| && KeyOrder(rows)[k] == KeyOf(db, i);
    var m :| 0 <= m < |group| && group[m] == RowOf(db, i);
    assert Ids(group)[m] == i;
    assert i in GroupIds(db)[k];
  }

  lemma GroupedMeans(db: Tables, i: int)
    requires WellFormed(db) && i in db.items
    ensures (exists k :: 0 <= k < |GroupIds(db)| && i in GroupIds(db)[k]) <==> i in Repeated(db)
    ensures forall j, k :: 0 <= j < k < |GroupIds(db)| ==> !(i in GroupIds(db)[j] && i in GroupIds(db)[k])
  {
    hide KeyOf, DuplicateRows, Repeated, GroupIds, Keys;
    if i in Repeated(db) {
      RepeatedGrouped(db, i);
    }
    forall k | 0 <= k < |GroupIds(db)| && i in GroupIds(db)[k]
      ensures i in Repeated(db) && KeyOrder(DuplicateRows(db))[k] == KeyOf(db, i)
    {
      GroupMember(db, i, k);
    }
  }

  lemma ClassGrouped(db: Tables, i: int, k: nat)
    requires WellFormed(db) && i in db.items && k < |GroupIds(db)| && i in GroupIds(db)[k]
    ensures Class(db, i) <= Elements(GroupIds(db)[k])
  {
    hide KeyOf, DuplicateRows, Repeated, Class, WithKey, KeyOrder;
    GroupMember(db, i, k);
    GroupIsKeyClass(db, i);
    ClassSharesKey(db, i);
  }

  lemma SpanningIsRepeated(db: Tables, i: int)
    requires WellFormed(db) && i in db.items && SpansTwo(db, Class(db, i))
    ensures i in Repeated(db)
  {
    hide KeyOf, Repeated, Class, WithKey;
    RepeatedMeans(db, i);
    ClassSharesKey(db, i);
  }

  /**
   Complete, whatever the tags are called: an item whose class spans two containers is in a
   group, in just one, and its whole class with it.
   */
  lemma DuplicatesComplete(db: Tables, i: int)
    requires WellFormed(db) && i in db.items
    ensures SpansTwo(db, Class(db, i)) ==>
              exists k :: 0 <= k < |GroupIds(db)| && i in GroupIds(db)[k] && Class(db, i) <= Elements(GroupIds(db)[k])
    ensures forall j, k :: 0 <= j < k < |GroupIds(db)| ==> !(i in GroupIds(db)[j] && i in GroupIds(db)[k])
  {
    hide KeyOf, DuplicateRows, Repeated, Class, SpansTwo, GroupIds, Keys, Elements;
    GroupedMeans(db, i);
    if SpansTwo(db, Class(db, i)) {
      SpanningIsRepeated(db, i);
      var k :| 0 <= k < |GroupIds(db)| && i in GroupIds(db)[k];
      ClassGrouped(db, i, k);
    }
  }

  /** With readable tags the groups are exactly the classes that span two containers. */
  lemma ReadableGroupedIff(db: Tables, i: int)
    requires WellFormed(db) && i in db.items && forall j :: j in Repeated(db) ==> Readable(TagNames(db, j))
    ensures (exists k :: 0 <= k < |GroupIds(db)| && i in GroupIds(db)[k]) <==> SpansTwo(db, Class(db, i))
  {
    hide KeyOf, Repeated, Class, WithKey, GroupIds, Readable, TagNames, SpansTwo;
    GroupedMeans(db, i);
    RepeatedMeans(db, i);
    if SpansTwo(db, Class(db, i)) {
      SpanningIsRepeated(db, i);
    }
    if i in Repeated(db) {
      ReadableClass(db, i);
    }
  }

  /**
   The report finds the duplicates: there are items behind every group, listed by place, no item
   in two groups; every class of alike items in two containers is in a group; and if all items
   reported have readable tags, every group is such a class with its tags.
   */
  ghost predicate Finds(db: Tables, groups: seq<DuplicateGroup>, ids: seq<seq<int>>) {
    && |ids| == |groups|
    && (forall k :: 0 <= k < |ids| ==> ListsPlaces(db, groups[k], ids[k]) && SpansTwo(db, Elements(ids[k])))
    && (forall i, j, k :: i in db.items && 0 <= j < k < |ids| ==> !(i in ids[j] && i in ids[k]))
    && (forall i :: i in db.items && SpansTwo(db, Class(db, i)) ==>
          exists k :: 0 <= k < |ids| && i in ids[k] && Class(db, i) <= Elements(ids[k]))
    && ((forall i, k :: i in db.items && 0 <= k < |ids| && i in ids[k] ==> Readable(TagNames(db, i))) ==>
          forall k :: 0 <= k < |ids| ==> Reports(db, groups[k], ids[k]))
  }

  lemma GroupsFind(db: Tables, groups: seq<DuplicateGroup>)
    requires WellFormed(db) && Groups(DuplicateRows(db), groups)
    ensures Finds(db, groups, GroupIds(db))
  {
    hide ListsPlaces, Reports, SpansTwo, Class, DuplicateRows, Repeated, Readable, TagNames, GroupIds, KeyOf, WithKey, Elements;
    GroupsListKeyClasses(db, groups);
    forall i | i in db.items
      ensures forall j, k :: 0 <= j < k < |GroupIds(db)| ==> !(i in GroupIds(db)[j] && i in GroupIds(db)[k])
      ensures SpansTwo(db, Class(db, i)) ==>
                exists k :: 0 <= k < |GroupIds(db)| && i in GroupIds(db)[k] && Class(db, i) <= Elements(GroupIds(db)[k])
      ensures (exists k :: 0 <= k < |GroupIds(db)| && i in GroupIds(db)[k]) <==> i in Repeated(db)
    {
      DuplicatesComplete(db, i);
      GroupedMeans(db, i);
    }
    DuplicatesSoundIff(db, groups);
    forall i | i in Repeated(db) ensures i in db.items { RepeatedIsItem(db, i); }
  }
}
