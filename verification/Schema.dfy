/**
 The five tables, their declared constraints, and the single SQL statements that the store
 runs on them. A statement either yields the new tables or is refused by a constraint.
 */
module Schema {
  import opened Wrappers
  import opened Sequences
  import opened Text

  datatype Pos = Pos(col: int, row: int)

  datatype Item = Item(container: int, name: string, description: Option<string>)

  /**
   The one shelf row and the tables container, item, tag and item_tag, keyed by row id.
   The `last` fields are SQLite's AUTOINCREMENT counters.
   */
  datatype Tables = Tables(
    name: string, rows: int, cols: int,
    containers: map<int, Pos>,
    items: map<int, Item>,
    tags: map<int, string>,
    links: set<(int, int)>,
    lastContainer: int, lastItem: int, lastTag: int)

  ghost predicate PositionsUnique(db: Tables) {
    forall c, d :: c in db.containers && d in db.containers && db.containers[c] == db.containers[d] ==> c == d
  }

  ghost predicate NamesUnique(db: Tables) {
    forall t, u :: t in db.tags && u in db.tags && db.tags[t] == db.tags[u] ==> t == u
  }

  /** Ids handed out so far never exceed the counters, so the next id is new. */
  ghost predicate Counted(db: Tables) {
    && (forall c :: c in db.containers ==> c <= db.lastContainer)
    && (forall i :: i in db.items ==> i <= db.lastItem)
    && (forall t :: t in db.tags ==> t <= db.lastTag)
  }

  /** Everything the schema declares. */
  ghost predicate WellFormed(db: Tables) {
    && PositionsUnique(db)
    && NamesUnique(db)
    && Counted(db)
    && (forall i :: i in db.items ==> db.items[i].container in db.containers)
    && (forall l :: l in db.links ==> l.0 in db.items && l.1 in db.tags)
  }

  // ---------- what the tables say ----------

  predicate Occupied(db: Tables, pos: Pos) {
    exists c :: c in db.containers && db.containers[c] == pos
  }

  function ItemsIn(db: Tables, c: int): set<int> {
    set i | i in db.items && db.items[i].container == c
  }

  function TagIds(db: Tables, i: int): set<int> {
    set t | t in db.tags && (i, t) in db.links
  }

  function TagNames(db: Tables, i: int): set<string> {
    set t | t in db.tags && (i, t) in db.links :: db.tags[t]
  }

  function AllNames(db: Tables): set<string> {
    set t | t in db.tags :: db.tags[t]
  }

  function TagName(db: Tables, t: int): string {
    if t in db.tags then db.tags[t] else ""
  }

  function Names(db: Tables, ts: seq<int>): (r: seq<string>)
    ensures |r| == |ts|
    ensures forall k :: 0 <= k < |ts| ==> r[k] == TagName(db, ts[k])
  {
    if ts == [] then [] else [TagName(db, ts[0])] + Names(db, ts[1..])
  }

  /** SELECT t.name ... WHERE it.item_id = i ORDER BY t.name */
  function TagList(db: Tables, i: int): seq<string> {
    SortBy(Le, Names(db, Scan(TagIds(db, i))))
  }

  lemma NamesListing(db: Tables, i: int, ts: seq<int>)
    requires WellFormed(db)
    requires Distinct(ts) && forall t :: t in ts <==> t in TagIds(db, i)
    ensures Distinct(Names(db, ts)) && Elements(Names(db, ts)) == TagNames(db, i)
  {
    var r := Names(db, ts);
    forall a, b | 0 <= a < b < |r|
      ensures r[a] != r[b]
    {
      assert ts[a] in ts && ts[b] in ts;
    }
    forall n
      ensures n in Elements(r) <==> n in TagNames(db, i)
    {
      if n in TagNames(db, i) {
        var t :| t in db.tags && (i, t) in db.links && db.tags[t] == n;
        assert t in TagIds(db, i) && t in ts;
        var k :| 0 <= k < |ts| && ts[k] == t;
        assert r[k] == n;
      }
      if n in r {
        var k :| 0 <= k < |r| && r[k] == n;
        assert ts[k] in ts;
      }
    }
  }

  /** The listed tags are the item's tag set in strict order. */
  lemma TagListListing(db: Tables, i: int)
    requires WellFormed(db)
    ensures StrictlySorted(TagList(db, i)) && Elements(TagList(db, i)) == TagNames(db, i)
  {
    NamesListing(db, i, Scan(TagIds(db, i)));
    SortedListing(Names(db, Scan(TagIds(db, i))));
  }

  lemma TagListDetermined(db: Tables, i: int, db': Tables, i': int)
    requires WellFormed(db) && WellFormed(db') && TagNames(db, i) == TagNames(db', i')
    ensures TagList(db, i) == TagList(db', i')
  {
    TagListListing(db, i);
    TagListListing(db', i');
    ListingUnique(TagList(db, i), TagList(db', i'));
  }

  lemma NoNewTags(db: Tables, db': Tables, i: int)
    requires db'.tags == db.tags
    requires forall t :: (i, t) in db.links <==> (i, t) in db'.links
    ensures TagNames(db', i) == TagNames(db, i)
  {
  }

  // ---------- INSERT ----------

  /** INSERT INTO container; the id given out is the new `lastContainer`. */
  function InsertContainer(db: Tables, pos: Pos): (r: Result<Tables>)
    ensures r.Ok? <==> !Occupied(db, pos)
    ensures WellFormed(db) && r.Ok? ==> WellFormed(r.value)
  {
    if Occupied(db, pos) then Refused(UniqueViolated)
    else
      var id := db.lastContainer + 1;
      Ok(db.(containers := db.containers[id := pos], lastContainer := id))
  }

  /** INSERT OR IGNORE INTO container */
  function InsertContainerOrIgnore(db: Tables, pos: Pos): Tables {
    var r := InsertContainer(db, pos);
    if r.Ok? then r.value else db
  }

  /** INSERT INTO item; the id given out is the new `lastItem`. */
  function InsertItem(db: Tables, c: int, name: string, description: Option<string>): (r: Result<Tables>)
    ensures r.Ok? <==> c in db.containers
    ensures WellFormed(db) && r.Ok? ==> WellFormed(r.value)
  {
    if c !in db.containers then Refused(ForeignKeyViolated)
    else
      var id := db.lastItem + 1;
      Ok(db.(items := db.items[id := Item(c, name, description)], lastItem := id))
  }

  /** SELECT id FROM tag WHERE name = ? */
  function TagIdOf(db: Tables, name: string): (r: Option<int>)
    ensures r.None? ==> name !in AllNames(db)
    ensures r.Some? ==> r.value in db.tags && db.tags[r.value] == name
  {
    var ids := set t | t in db.tags && db.tags[t] == name;
    if ids == {} then
      assert forall t :: t in db.tags && db.tags[t] == name ==> t in ids;
      None
    else Some(Least(ids))
  }

  /** INSERT OR IGNORE INTO tag */
  function InsertTagOrIgnore(db: Tables, name: string): (r: Tables)
    ensures WellFormed(db) ==> WellFormed(r)
    ensures name in AllNames(r)
  {
    if TagIdOf(db, name).Some? then db
    else
      var id := db.lastTag + 1;
      var r := db.(tags := db.tags[id := name], lastTag := id);
      assert r.tags[id] == name;
      r
  }

  /** INSERT INTO item_tag */
  function InsertLink(db: Tables, i: int, t: int): (r: Result<Tables>)
    ensures r.Ok? <==> i in db.items && t in db.tags && (i, t) !in db.links
    ensures WellFormed(db) && r.Ok? ==> WellFormed(r.value)
  {
    if (i, t) in db.links then Refused(UniqueViolated)
    else if i !in db.items || t !in db.tags then Refused(ForeignKeyViolated)
    else Ok(db.(links := db.links + {(i, t)}))
  }

  /** INSERT OR IGNORE INTO item_tag: a repeated pair is skipped, a dangling one still refused. */
  function InsertLinkOrIgnore(db: Tables, i: int, t: int): (r: Result<Tables>)
    ensures r.Ok? <==> (i, t) in db.links || (i in db.items && t in db.tags)
    ensures WellFormed(db) && r.Ok? ==> WellFormed(r.value)
  {
    if (i, t) in db.links then Ok(db) else InsertLink(db, i, t)
  }

  // ---------- DELETE, with ON DELETE CASCADE ----------

  function DeleteItems(db: Tables, gone: set<int>): (r: Tables)
    ensures WellFormed(db) ==> WellFormed(r)
  {
    db.(items := db.items - gone, links := set l | l in db.links && l.0 !in gone)
  }

  function DeleteTag(db: Tables, t: int): (r: Tables)
    ensures WellFormed(db) ==> WellFormed(r)
  {
    db.(tags := db.tags - {t}, links := set l | l in db.links && l.1 != t)
  }

  function DeleteContainers(db: Tables, gone: set<int>): (r: Tables)
    ensures WellFormed(db) ==> WellFormed(r)
  {
    DeleteItems(db.(containers := db.containers - gone), set i | i in db.items && db.items[i].container in gone)
  }

  // ---------- tagging an item, as CreateItem and ImportAllData do it ----------

  function TagIdFor(db: Tables, name: string): int {
    var found := TagIdOf(db, name);
    if found.Some? then found.value else 0
  }

  /** Intern the name, then link it; linking the same name twice breaks the primary key. */
  function TagItem(db: Tables, i: int, name: string): Result<Tables> {
    var interned := InsertTagOrIgnore(db, name);
    InsertLink(interned, i, TagIdFor(interned, name))
  }

  function TagAll(db: Tables, i: int, names: seq<string>): Result<Tables>
    decreases |names|
  {
    if names == [] then Ok(db)
    else
      var next :- TagItem(db, i, names[0]);
      TagAll(next, i, names[1..])
  }

  /** `db'` is `db` with `names` interned and linked to item `i`, and nothing else changed. */
  ghost predicate Tagged(db: Tables, db': Tables, i: int, names: set<string>) {
    && db' == db.(tags := db'.tags, links := db'.links, lastTag := db'.lastTag)
    && TagNames(db', i) == TagNames(db, i) + names
    && (forall j :: j != i ==> TagNames(db', j) == TagNames(db, j))
    && AllNames(db') == AllNames(db) + names
    && (forall t :: t in db.tags ==> t in db'.tags && db'.tags[t] == db.tags[t])
    && (forall t :: t in db'.tags && t !in db.tags ==> t > db.lastTag)
    && db.links <= db'.links
    && db.lastTag <= db'.lastTag
  }

  lemma InternMeans(db: Tables, name: string)
    requires WellFormed(db)
    ensures var r := InsertTagOrIgnore(db, name);
            && WellFormed(r)
            && AllNames(r) == AllNames(db) + {name}
            && (forall j :: TagNames(r, j) == TagNames(db, j))
            && TagIdOf(r, name).Some?
  {
    var r := InsertTagOrIgnore(db, name);
    if TagIdOf(db, name).None? {
      var id := db.lastTag + 1;
      assert r.tags.Keys == db.tags.Keys + {id};
      forall j
        ensures TagNames(r, j) == TagNames(db, j)
      {
        assert (j, id) !in db.links;
      }
      forall n
        ensures n in AllNames(r) <==> n in AllNames(db) + {name}
      {
        assert r.tags[id] == name;
        if n in AllNames(db) {
          var t :| t in db.tags && db.tags[t] == n;
          assert t in r.tags && r.tags[t] == n;
        }
      }
    } else {
      assert name in AllNames(db);
    }
  }

  lemma LinkMeans(db: Tables, i: int, t: int)
    requires WellFormed(db) && i in db.items && t in db.tags
    ensures var db' := db.(links := db.links + {(i, t)});
            && WellFormed(db')
            && TagNames(db', i) == TagNames(db, i) + {db.tags[t]}
            && (forall j :: j != i ==> TagNames(db', j) == TagNames(db, j))
    ensures (i, t) in db.links <==> db.tags[t] in TagNames(db, i)
  {
  }

  lemma TagItemMeans(db: Tables, i: int, name: string)
    requires WellFormed(db) && i in db.items
    ensures TagItem(db, i, name).Ok? <==> name !in TagNames(db, i)
    ensures TagItem(db, i, name).Ok? ==>
              WellFormed(TagItem(db, i, name).value) && Tagged(db, TagItem(db, i, name).value, i, {name})
  {
    InternMeans(db, name);
    var interned := InsertTagOrIgnore(db, name);
    var t := TagIdFor(interned, name);
    LinkMeans(interned, i, t);
  }

  lemma TaggedTransitive(a: Tables, b: Tables, c: Tables, i: int, m: set<string>, n: set<string>)
    requires Tagged(a, b, i, m) && Tagged(b, c, i, n)
    ensures Tagged(a, c, i, m + n)
  {
  }

  /** Tagging succeeds exactly when no name repeats and none is on the item already. */
  lemma {:induction false} TagAllMeans(db: Tables, i: int, names: seq<string>)
    requires WellFormed(db) && i in db.items
    ensures TagAll(db, i, names).Ok? <==> Distinct(names) && Elements(names) !! TagNames(db, i)
    ensures TagAll(db, i, names).Ok? ==>
              WellFormed(TagAll(db, i, names).value) && Tagged(db, TagAll(db, i, names).value, i, Elements(names))
    decreases |names|
  {
    if names != [] {
      var rest := names[1..];
      assert names == [names[0]] + rest;
      ElementsOfConcat([names[0]], rest);
      assert Elements([names[0]]) == {names[0]};
      TagItemMeans(db, i, names[0]);
      if TagItem(db, i, names[0]).Ok? {
        var next := TagItem(db, i, names[0]).value;
        TagAllMeans(next, i, rest);
        if TagAll(next, i, rest).Ok? {
          TaggedTransitive(db, next, TagAll(next, i, rest).value, i, {names[0]}, Elements(rest));
        }
        assert Distinct(names) <==> Distinct(rest) && names[0] !in rest by {
          DistinctCons(names[0], rest);
        }
      } else {
        assert names[0] in Elements(names);
      }
    }
  }

  /** Tagging an existing item can only fail on a repeated tag. */
  lemma {:induction false} TagAllRefused(db: Tables, i: int, names: seq<string>)
    requires WellFormed(db) && i in db.items && TagAll(db, i, names).Refused?
    ensures TagAll(db, i, names).why == UniqueViolated
    decreases |names|
  {
    TagItemMeans(db, i, names[0]);
    if TagItem(db, i, names[0]).Ok? {
      TagAllRefused(TagItem(db, i, names[0]).value, i, names[1..]);
    } else {
      InternMeans(db, names[0]);
    }
  }

  lemma DistinctCons<T>(x: T, s: seq<T>)
    ensures Distinct([x] + s) <==> Distinct(s) && x !in s
  {
    var r := [x] + s;
    assert r[0] == x && r[1..] == s;
    if Distinct(r) {
      assert forall k :: 0 <= k < |s| ==> s[k] == r[k + 1];
      forall a, b | 0 <= a < b < |s| ensures s[a] != s[b] { assert r[a + 1] != r[b + 1]; }
    }
  }
}
