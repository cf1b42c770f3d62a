/**
 The batch search: the two SQL queries behind it, the counting query, the tag-list pipeline
 that rebuilds an item's tags, and the plain filter that all of it amounts to.
 */
module Search {
  import opened Wrappers
  import opened Sequences
  import opened Text
  import opened Labels
  import opened Schema
  import Like

  // ---------- the plain filter ----------

  ghost predicate NameHit(db: Tables, i: int, query: string) {
    i in db.items && Occurs(query, db.items[i].name)
  }

  ghost predicate DescriptionHit(db: Tables, i: int, query: string) {
    i in db.items && db.items[i].description.Some? && Occurs(query, db.items[i].description.value)
  }

  ghost predicate TextHit(db: Tables, i: int, query: string) {
    NameHit(db, i, query) || DescriptionHit(db, i, query)
  }

  /** A tag of the item without capitals that is the given word, case aside. */
  ghost predicate IsTagWord(n: string, word: string) {
    !HasCapital(n) && SameButCase(n, word)
  }

  ghost predicate HasTag(db: Tables, i: int, word: string) {
    exists n :: n in TagNames(db, i) && IsTagWord(n, word)
  }

  /**
   Without tag filter: the query occurs in name or description, or is a tag. With one: all its
   words are tags, and the query occurs in name or description. Case is ignored; an empty search
   selects nothing.
   */
  ghost predicate Wanted(db: Tables, i: int, query: string, filter: seq<string>) {
    if filter == [] then query != "" && (TextHit(db, i, query) || HasTag(db, i, query))
    else TextHit(db, i, query) && forall k :: 0 <= k < |filter| ==> HasTag(db, i, filter[k])
  }

  ghost function Selected(db: Tables, query: string, filter: seq<string>): set<int> {
    set i | i in db.items && Wanted(db, i, query, filter)
  }

  lemma HasTagMeans(db: Tables, i: int, word: string)
    ensures HasTag(db, i, word) <==> Lower(word) in TagNames(db, i)
  {
    hide TagNames;
    forall n ensures IsTagWord(n, word) <==> n == Lower(word) { IsLowerOf(n, word); }
  }

  lemma HasTagsMeans(db: Tables, i: int, filter: seq<string>)
    ensures (forall k :: 0 <= k < |filter| ==> HasTag(db, i, filter[k])) <==> Elements(LowerAll(filter)) <= TagNames(db, i)
  {
    hide TagNames, HasTag, Lower;
    forall k | 0 <= k < |filter|
      ensures HasTag(db, i, filter[k]) <==> LowerAll(filter)[k] in TagNames(db, i)
    {
      HasTagMeans(db, i, filter[k]);
    }
    assert forall k :: 0 <= k < |filter| ==> LowerAll(filter)[k] in Elements(LowerAll(filter));
  }

  // ---------- the queries ----------

  predicate Placed(db: Tables, i: int) {
    i in db.items && db.items[i].container in db.containers
  }

  function DescriptionOf(db: Tables, i: int): string {
    if i in db.items && db.items[i].description.Some? then db.items[i].description.value else ""
  }

  predicate TextLike(db: Tables, i: int, query: string) {
    var pattern := Like.SearchPattern(Lower(query));
    i in db.items &&
    (Like.Matches(pattern, Lower(db.items[i].name), Like.BACKSLASH) ||
     Like.Matches(pattern, Lower(DescriptionOf(db, i)), Like.BACKSLASH))
  }

  /** One row of item JOIN container LEFT JOIN item_tag LEFT JOIN tag; no tag is NULL. */
  datatype JoinRow = JoinRow(item: int, tag: Option<int>)

  function LeftJoin(db: Tables): set<JoinRow> {
    (set l | l in db.links && Placed(db, l.0) :: JoinRow(l.0, Some(l.1))) +
    (set i | i in db.items && Placed(db, i) && TagIds(db, i) == {} :: JoinRow(i, None))
  }

  /** The WHERE clause runs on single rows, before any grouping. */
  predicate KeepsRow(db: Tables, row: JoinRow, query: string) {
    || TextLike(db, row.item, query)
    || (row.tag.Some? && row.tag.value in db.tags && db.tags[row.tag.value] == Lower(query))
  }

  function KeptRows(db: Tables, query: string): set<JoinRow> {
    set r | r in LeftJoin(db) && KeepsRow(db, r, query)
  }

  /** GROUP BY i.id */
  function Groups(rows: set<JoinRow>): set<int> {
    set r | r in rows :: r.item
  }

  /** The tags whose names GROUP_CONCAT joins for the group of item `i`. */
  function GroupTags(db: Tables, rows: set<JoinRow>, i: int): set<int> {
    set t | t in db.tags && JoinRow(i, Some(t)) in rows
  }

  function UnfilteredHits(db: Tables, query: string): set<int> {
    Groups(KeptRows(db, query))
  }

  /** COUNT(DISTINCT t.name) over the rows of item `i` whose tag name is in the filter. */
  function MatchingNames(db: Tables, i: int, filter: seq<string>): set<string> {
    set t | t in db.tags && (i, t) in db.links && db.tags[t] in LowerAll(filter) :: db.tags[t]
  }

  predicate PassesHaving(db: Tables, i: int, query: string, filter: seq<string>) {
    && MatchingNames(db, i, filter) != {}
    && |MatchingNames(db, i, filter)| == |filter|
    && (query == "" || TextLike(db, i, query))
  }

  function FilteredHits(db: Tables, query: string, filter: seq<string>): set<int> {
    set i | i in db.items && Placed(db, i) && PassesHaving(db, i, query, filter)
  }

  /** The counting query for filtered searches does not join container. */
  function FilteredCount(db: Tables, query: string, filter: seq<string>): nat {
    |set i | i in db.items && PassesHaving(db, i, query, filter)|
  }

  function UnfilteredCount(db: Tables, query: string): nat {
    |Groups(KeptRows(db, query))|
  }

  // ---------- what the queries select ----------

  lemma LikeMeansOccurs(query: string, text: string)
    ensures Like.Matches(Like.SearchPattern(Lower(query)), Lower(text), Like.BACKSLASH) <==> Occurs(query, text)
  {
    LowerIdempotent(query);
    LowerIdempotent(text);
    Like.SearchPatternMeansContains(Lower(query), Lower(text));
    OccursMeans(query, text);
  }

  lemma OccursInNothing(query: string, text: string)
    ensures Occurs(query, "") <==> query == ""
    ensures query == "" ==> Occurs(query, text)
  {
    if query == "" {
      assert OccursAt(query, text, 0) && OccursAt(query, "", 0);
    }
  }

  lemma TextLikeMeans(db: Tables, i: int, query: string)
    ensures TextLike(db, i, query) <==> TextHit(db, i, query)
  {
    hide Like.Matches, Lower, Occurs;
    if i in db.items {
      LikeMeansOccurs(query, db.items[i].name);
      LikeMeansOccurs(query, DescriptionOf(db, i));
      OccursInNothing(query, db.items[i].name);
    }
  }

  lemma JoinedItem(db: Tables, i: int)
    requires WellFormed(db) && i in db.items
    ensures forall t :: JoinRow(i, Some(t)) in LeftJoin(db) <==> (i, t) in db.links
    ensures exists r :: r in LeftJoin(db) && r.item == i
  {
    forall t
      ensures JoinRow(i, Some(t)) in LeftJoin(db) <==> (i, t) in db.links
    {
      if (i, t) in db.links {
        assert Placed(db, (i, t).0);
      }
    }
    if TagIds(db, i) == {} {
      assert JoinRow(i, None) in LeftJoin(db);
    } else {
      var t := Pick(TagIds(db, i));
      assert JoinRow(i, Some(t)) in LeftJoin(db);
    }
  }

  /** Without tag filter the grouped query selects exactly the wanted items. */
  lemma UnfilteredHitsMeans(db: Tables, query: string)
    requires WellFormed(db) && query != ""
    ensures UnfilteredHits(db, query) == Selected(db, query, [])
  {
    hide TextLike, TextHit;
    forall i
      ensures i in UnfilteredHits(db, query) <==> i in Selected(db, query, [])
    {
      TextLikeMeans(db, i, query);
      if i in UnfilteredHits(db, query) {
        HitIsWanted(db, query, i);
      }
      if i in Selected(db, query, []) {
        WantedIsHit(db, query, i);
      }
    }
  }

  lemma HitIsWanted(db: Tables, query: string, i: int)
    requires WellFormed(db) && query != "" && i in UnfilteredHits(db, query)
    ensures i in Selected(db, query, [])
  {
    hide TextLike, TextHit;
    TextLikeMeans(db, i, query);
    var r :| r in KeptRows(db, query) && r.item == i;
    assert r in LeftJoin(db) && i in db.items;
    if !TextLike(db, i, query) {
      var t := r.tag.value;
      assert (i, t) in db.links && t in db.tags;
      assert db.tags[t] in TagNames(db, i);
    }
  }

  lemma WantedIsHit(db: Tables, query: string, i: int)
    requires WellFormed(db) && query != "" && i in Selected(db, query, [])
    ensures i in UnfilteredHits(db, query)
  {
    hide TextLike, TextHit, LeftJoin;
    TextLikeMeans(db, i, query);
    JoinedItem(db, i);
    if TextHit(db, i, query) {
      var r :| r in LeftJoin(db) && r.item == i;
      assert r in KeptRows(db, query);
    } else {
      var t :| t in db.tags && (i, t) in db.links && db.tags[t] == Lower(query);
      var r := JoinRow(i, Some(t));
      assert r in KeptRows(db, query) && r.item == i;
    }
  }

  lemma {:induction false} SubsetSize<T>(a: set<T>, b: set<T>)
    requires a <= b
    ensures |a| <= |b| && (|a| == |b| ==> a == b)
  {
    if a != {} {
      var x := Pick(a);
      SubsetSize(a - {x}, b - {x});
    }
  }

  lemma {:induction false} ElementsSize<T>(s: seq<T>)
    ensures |Elements(s)| <= |s|
    ensures |Elements(s)| == |s| <==> Distinct(s)
  {
    if s != [] {
      var init, last := s[..|s| - 1], s[|s| - 1];
      ElementsSize(init);
      assert s == init + [last];
      ElementsOfConcat(init, [last]);
      assert Elements(s) == Elements(init) + {last};
      if last in init {
        assert last in Elements(init);
        assert Elements(s) == Elements(init);
        var k :| 0 <= k < |init| && init[k] == last;
        assert s[k] == s[|s| - 1];
      } else {
        assert last !in Elements(init);
        assert Distinct(s) <==> Distinct(init);
      }
    }
  }

  /**
   The HAVING count is reached exactly when the filter, lowercased, repeats no tag and the item
   carries all of it; a repeated filter tag can never be matched.
   */
  lemma HavingMeans(db: Tables, i: int, filter: seq<string>)
    ensures |MatchingNames(db, i, filter)| == |filter| <==>
              Distinct(LowerAll(filter)) && Elements(LowerAll(filter)) <= TagNames(db, i)
  {
    var wanted := Elements(LowerAll(filter));
    var matched := MatchingNames(db, i, filter);
    assert matched == TagNames(db, i) * wanted;
    ElementsSize(LowerAll(filter));
    SubsetSize(matched, wanted);
    if wanted <= TagNames(db, i) {
      assert matched == wanted;
    }
  }

  /** No word of the filter is another one, case aside. */
  ghost predicate NoneTwice(filter: seq<string>) {
    forall j, k :: 0 <= j < k < |filter| ==> !SameButCase(filter[j], filter[k])
  }

  /** What a search finds: nothing if the filter repeats a word, else the wanted items. */
  ghost function Found(db: Tables, query: string, filter: seq<string>): set<int> {
    if NoneTwice(filter) then Selected(db, query, filter) else {}
  }

  lemma NoneTwiceMeans(filter: seq<string>)
    ensures NoneTwice(filter) <==> Distinct(LowerAll(filter))
  {
    hide Lower, SameButCase;
    forall j, k | 0 <= j < k < |filter|
      ensures SameButCase(filter[j], filter[k]) <==> LowerAll(filter)[j] == LowerAll(filter)[k]
    {
      LowerMeans(filter[j], filter[k]);
    }
  }

  lemma PassesHavingMeans(db: Tables, i: int, query: string, filter: seq<string>)
    requires filter != [] && i in db.items
    ensures PassesHaving(db, i, query, filter) <==> NoneTwice(filter) && Wanted(db, i, query, filter)
  {
    hide TextLike, TextHit, NoneTwice, HasTag, MatchingNames, TagNames, Elements, LowerAll, Distinct;
    HavingMeans(db, i, filter);
    NoneTwiceMeans(filter);
    HasTagsMeans(db, i, filter);
    TextLikeMeans(db, i, query);
    SomeNamesMatch(db, i, filter);
    if query == "" {
      EmptyQueryHits(db, i);
    }
  }

  lemma SomeNamesMatch(db: Tables, i: int, filter: seq<string>)
    requires filter != []
    ensures |MatchingNames(db, i, filter)| == |filter| ==> MatchingNames(db, i, filter) != {}
  {
    hide MatchingNames;
  }

  lemma EmptyQueryHits(db: Tables, i: int)
    requires i in db.items
    ensures TextHit(db, i, "")
  {
    hide Occurs;
    OccursInNothing("", db.items[i].name);
  }

  lemma FilteredHitsMeans(db: Tables, query: string, filter: seq<string>)
    requires WellFormed(db) && filter != []
    ensures FilteredHits(db, query, filter) == Found(db, query, filter)
    ensures FilteredCount(db, query, filter) == |Found(db, query, filter)|
  {
    hide PassesHaving, Wanted, NoneTwice;
    forall i | i in db.items
      ensures PassesHaving(db, i, query, filter) <==> NoneTwice(filter) && Wanted(db, i, query, filter)
    {
      PassesHavingMeans(db, i, query, filter);
    }
    var counted := set i | i in db.items && PassesHaving(db, i, query, filter);
    forall i ensures i in counted <==> i in Found(db, query, filter) { }
    assert counted == Found(db, query, filter);
    forall i ensures i in FilteredHits(db, query, filter) <==> i in Found(db, query, filter) { }
  }

  /** In an unfiltered search the tags of a hit are all its tags if its text matched, else just the query. */
  lemma KeptTags(db: Tables, query: string, i: int)
    requires WellFormed(db) && i in db.items && Wanted(db, i, query, [])
    ensures TextHit(db, i, query) ==> GroupTags(db, KeptRows(db, query), i) == TagIds(db, i)
    ensures !TextHit(db, i, query) ==>
              GroupTags(db, KeptRows(db, query), i) == set t | t in TagIds(db, i) && db.tags[t] == Lower(query)
  {
    hide TextLike, TextHit, LeftJoin;
    TextLikeMeans(db, i, query);
    JoinedItem(db, i);
    var group := GroupTags(db, KeptRows(db, query), i);
    forall t
      ensures t in group <==> t in TagIds(db, i) && (TextHit(db, i, query) || db.tags[t] == Lower(query))
    {
      var r := JoinRow(i, Some(t));
      assert r in KeptRows(db, query) <==> r in LeftJoin(db) && KeepsRow(db, r, query);
    }
  }

  // ---------- order and cut ----------

  datatype Hit = Hit(id: int, col: int, row: int)

  predicate ByColRow(a: Hit, b: Hit) {
    a.col < b.col || (a.col == b.col && a.row <= b.row)
  }

  function HitOf(db: Tables, i: int): Hit {
    if Placed(db, i) then Hit(i, db.containers[db.items[i].container].col, db.containers[db.items[i].container].row)
    else Hit(i, 0, 0)
  }

  function HitsOf(db: Tables, ids: seq<int>): (r: seq<Hit>)
    ensures |r| == |ids|
    ensures forall k :: 0 <= k < |ids| ==> r[k] == HitOf(db, ids[k])
  {
    Map(i => HitOf(db, i), ids)
  }

  /** ORDER BY col, row; equal positions by id. */
  function Ranked(db: Tables, ids: set<int>): seq<Hit> {
    SortBy(ByColRow, HitsOf(db, Scan(ids)))
  }

  lemma HitsListing(db: Tables, ids: set<int>)
    ensures Distinct(HitsOf(db, Scan(ids)))
    ensures forall h :: h in HitsOf(db, Scan(ids)) <==> h.id in ids && h == HitOf(db, h.id)
  {
    hide HitOf;
    var scan := Scan(ids);
    var hits := HitsOf(db, scan);
    forall k | 0 <= k < |hits| ensures hits[k].id == scan[k] && scan[k] in ids { HitId(db, scan[k]); }
    forall h
      ensures h in hits <==> h.id in ids && h == HitOf(db, h.id)
    {
      if h.id in ids {
        assert h.id in scan;
        var k :| 0 <= k < |scan| && scan[k] == h.id;
        assert hits[k] == HitOf(db, h.id);
      }
    }
  }

  lemma HitId(db: Tables, i: int)
    ensures HitOf(db, i).id == i
  {
  }

  /** The ranking lists each selected item once, by column and then row. */
  lemma RankedMeans(db: Tables, ids: set<int>)
    ensures |Ranked(db, ids)| == |ids|
    ensures Sorted(ByColRow, Ranked(db, ids)) && Distinct(Ranked(db, ids))
    ensures forall h :: h in Ranked(db, ids) <==> h.id in ids && h == HitOf(db, h.id)
  {
    hide HitOf, HitsOf;
    var hits := HitsOf(db, Scan(ids));
    assert |hits| == |ids|;
    HitsListing(db, ids);
    ByColRowOrder();
    SortBySorted(ByColRow, hits);
    PermutationDistinct(hits, SortBy(ByColRow, hits));
  }

  lemma ByColRowOrder()
    ensures Order(ByColRow)
  {
  }

  /** Item i's container stands in an earlier column than item j's, or in the same column and no later row. */
  ghost predicate ShelvedBefore(db: Tables, i: int, j: int) {
    && Placed(db, i) && Placed(db, j)
    && var p, q := db.containers[db.items[i].container], db.containers[db.items[j].container];
       p.col < q.col || (p.col == q.col && p.row <= q.row)
  }

  /** Fifty of the items found, or all if there are fewer: each once, in order, and none left out that belongs before one shown. */
  ghost predicate FirstFifty(db: Tables, found: set<int>, ids: seq<int>) {
    && |ids| == (if |found| <= 50 then |found| else 50)
    && Distinct(ids) && Elements(ids) <= found
    && (forall j, k :: 0 <= j < k < |ids| ==> ShelvedBefore(db, ids[j], ids[k]))
    && (forall i, k :: i in found && i !in ids && 0 <= k < |ids| ==> ShelvedBefore(db, ids[k], i))
  }

  function HitIds(hits: seq<Hit>): (r: seq<int>)
    ensures |r| == |hits|
    ensures forall k :: 0 <= k < |hits| ==> r[k] == hits[k].id
  {
    Map((h: Hit) => h.id, hits)
  }

  lemma HitBefore(db: Tables, i: int, j: int)
    requires Placed(db, i) && Placed(db, j)
    ensures ByColRow(HitOf(db, i), HitOf(db, j)) <==> ShelvedBefore(db, i, j)
  {
  }

  /** The first fifty of the ranking are the first fifty of the shelf. */
  lemma RankedAreFirst(db: Tables, found: set<int>)
    requires forall i :: i in found ==> Placed(db, i)
    ensures FirstFifty(db, found, HitIds(Take(Ranked(db, found), 50)))
  {
    hide HitOf, Ranked, ShelvedBefore, ByColRow, Placed;
    var all := Ranked(db, found);
    var ids := HitIds(Take(all, 50));
    RankedMeans(db, found);
    forall k | 0 <= k < |all|
      ensures all[k].id in found && all[k] == HitOf(db, all[k].id)
    {
      assert all[k] in all;
    }
    forall j, k | 0 <= j < k < |all|
      ensures ShelvedBefore(db, all[j].id, all[k].id) && all[j].id != all[k].id
    {
      HitBefore(db, all[j].id, all[k].id);
    }
    forall i, k | i in found && i !in ids && 0 <= k < |ids|
      ensures ShelvedBefore(db, ids[k], i)
    {
      HitId(db, i);
      assert HitOf(db, i) in all;
      var m :| 0 <= m < |all| && all[m] == HitOf(db, i);
      assert m >= |ids| by { NotAmong(ids, all, m); }
    }
  }

  lemma NotAmong(ids: seq<int>, all: seq<Hit>, m: nat)
    requires |ids| <= |all| && m < |all| && forall k :: 0 <= k < |ids| ==> ids[k] == all[k].id
    requires all[m].id !in ids
    ensures m >= |ids|
  {
  }

  // ---------- the tag list of a result ----------

  /** What the split, dedup and sort steps make of a packed list. */
  function Unpacked(packed: string): seq<string> {
    SortBy(Le, FirstOccurrences(Unpack(packed)))
  }

  /** A set of names that survives being packed into one string. */
  ghost predicate Readable(names: set<string>) {
    names != {""} && forall n :: n in names ==> '|' !in n
  }

  lemma UnpackedList(packed: string)
    ensures StrictlySorted(Unpacked(packed)) && Elements(Unpacked(packed)) == Elements(Unpack(packed))
  {
    hide Unpack, StrictlySorted;
    SortedListing(FirstOccurrences(Unpack(packed)));
  }

  lemma PartsHoldNoPipe(packed: string, n: string)
    requires n in Elements(Unpack(packed))
    ensures '|' !in n
  {
  }

  /**
   Whatever order and repetition the names were joined in, the pipeline yields a strictly sorted
   list; it is the set of names exactly when no name holds "|" and the list is not one empty name.
   */
  lemma UnpackedMeans(names: seq<string>)
    ensures StrictlySorted(Unpacked(Join(names)))
    ensures Elements(Unpacked(Join(names))) == Elements(names) <==> names != [""] && forall n :: n in names ==> '|' !in n
  {
    hide Split, Le, Unpack, Unpacked, StrictlySorted;
    UnpackedList(Join(names));
    UnpackJoin(names);
    if names == [""] {
      assert Unpack("") == [] by { EmptyMeansNoTags(); }
      assert names[0] in Elements(names);
    } else if n :| n in names && '|' in n {
      assert n in Elements(names);
      if n in Elements(Unpack(Join(names))) {
        PartsHoldNoPipe(Join(names), n);
      }
    } else {
      assert forall k :: 0 <= k < |names| ==> names[k] in names;
    }
  }

  lemma EmptyMeansNoTags()
    ensures Unpack("") == []
  {
  }

  lemma UnpackedParts(names: seq<string>, part: string)
    requires names != [] && names != [""]
    ensures part in Elements(Unpacked(Join(names))) <==> IsPartOf(part, names)
  {
    hide Split, Unpacked, IsPartOf;
    UnpackedList(Join(names));
    if Join(names) == "" {
      JoinEmpty(names);
    }
    SplitJoinParts(names, part);
  }

  lemma SamePartsOf(a: seq<string>, b: seq<string>, part: string)
    requires Elements(a) == Elements(b) && IsPartOf(part, a)
    ensures IsPartOf(part, b)
  {
    hide Split;
    var k :| 0 <= k < |a| && part in Split(a[k]);
    assert a[k] in Elements(b);
  }

  /** Order and repetition do not show in the result; the one exception is a lone empty name. */
  lemma UnpackedIgnoresOrder(a: seq<string>, b: seq<string>)
    requires Elements(a) == Elements(b)
    ensures Unpacked(Join(a)) == Unpacked(Join(b)) <==> (a == [""] <==> b == [""])
  {
    hide Unpacked, StrictlySorted, IsPartOf, Le;
    UnpackedList(Join(a));
    UnpackedList(Join(b));
    if a == [] || b == [] {
      NoElements(a, b);
    } else if a == [""] && b != [""] {
      LoneEmptyName(a, b);
    } else if b == [""] && a != [""] {
      LoneEmptyName(b, a);
    } else if a != [""] {
      forall part
        ensures part in Elements(Unpacked(Join(a))) <==> part in Elements(Unpacked(Join(b)))
      {
        UnpackedParts(a, part);
        UnpackedParts(b, part);
        if IsPartOf(part, a) { SamePartsOf(a, b, part); }
        if IsPartOf(part, b) { SamePartsOf(b, a, part); }
      }
      ListingUnique(Unpacked(Join(a)), Unpacked(Join(b)));
    }
  }

  lemma NoElements(a: seq<string>, b: seq<string>)
    requires Elements(a) == Elements(b) && (a == [] || b == [])
    ensures a == b
  {
    EmptyElements(a);
    EmptyElements(b);
  }

  lemma EmptyElements(s: seq<string>)
    ensures Elements(s) == {} <==> s == []
  {
    if s != [] {
      assert s[0] in Elements(s);
    }
  }

  lemma LoneEmptyName(a: seq<string>, b: seq<string>)
    requires a == [""] && b != [""] && b != [] && Elements(a) == Elements(b)
    ensures Unpacked(Join(a)) != Unpacked(Join(b))
  {
    hide Unpacked, Unpack;
    UnpackedList(Join(a));
    EmptyMeansNoTags();
    assert b[0] in Elements(a);
    assert "" in Split(b[0]);
    assert IsPartOf("", b);
    UnpackedParts(b, "");
  }

  /** A tag name with "|" in it comes back as two tags. */
  lemma PipeSplitsTag()
    ensures Unpacked(Join(["a|b"])) == ["a", "b"]
  {
    SplitHead("a", "b");
    SplitHead("b", "");
    assert "a" + "|" + "b" == "a|b";
    assert Unpack("a|b") == ["a", "b"];
    var two := ["a", "b"];
    assert Distinct(two);
    FirstOccurrencesIdentity(two);
    assert Sorted(Le, two);
    SortBySortedIdentity(Le, two);
  }

  // ---------- results ----------

  datatype SearchResult = SearchResult(id: int, containerId: int, caption: string, name: string,
                                       description: Option<string>, tags: seq<string>, matchedOn: seq<string>)

  datatype SearchResponse = SearchResponse(results: seq<SearchResult>, totalCount: nat)

  function ResultIds(results: seq<SearchResult>): (r: seq<int>)
    ensures |r| == |results|
    ensures forall k :: 0 <= k < |results| ==> r[k] == results[k].id
  {
    Map((r: SearchResult) => r.id, results)
  }

  ghost function ShownTags(db: Tables, i: int, query: string, filter: seq<string>): set<string> {
    if filter != [] || TextHit(db, i, query) then TagNames(db, i) else set n | n in TagNames(db, i) && IsTagWord(n, query)
  }

  /** The fields in which item `i` matched. */
  ghost function MatchedFields(db: Tables, i: int, query: string, filter: seq<string>): seq<string> {
    if query == "" then [] else
      (if NameHit(db, i, query) then ["name"] else []) +
      (if DescriptionHit(db, i, query) then ["description"] else []) +
      (if filter == [] && HasTag(db, i, query) then ["tag"] else [])
  }

  function FieldMarks(name: bool, description: bool, tag: bool): seq<string> {
    (if name then ["name"] else []) + (if description then ["description"] else []) + (if tag then ["tag"] else [])
  }

  /** What computeMatchedOn makes of a result row; its query is already in lower case. */
  function Marks(name: string, description: Option<string>, tags: seq<string>, query: string, tagsActive: bool): seq<string> {
    if query == "" then [] else
    FieldMarks(Contains(Lower(name), query), description.Some? && Contains(Lower(description.value), query), !tagsActive && query in tags)
  }

  /** When the marks are right: the query is not a mere part of a tag the item has, nor has it parts itself. */
  ghost predicate MarksReliable(db: Tables, i: int, query: string, filter: seq<string>) {
    || query == ""
    || filter != []
    || (if '|' in query then Lower(query) !in TagNames(db, i)
        else Lower(query) in TagNames(db, i) || forall n :: n in TagNames(db, i) ==> Lower(query) !in Split(n))
  }

  /** The tags that come back from a packed list of these names. */
  ghost function ReadBack(names: set<string>): set<string> {
    if names == {""} then {} else set n, part | n in names && part in Split(n) :: part
  }

  /**
   A result describes its item: its own row, the tags that come back from the packed list, which
   are those to show exactly when these are readable, and marks that are exactly the fields that
   matched exactly when they are reliable.
   */
  ghost predicate Describes(db: Tables, r: SearchResult, query: string, filter: seq<string>) {
    && Placed(db, r.id)
    && r.containerId == db.items[r.id].container
    && r.caption == LabelFor(db.containers[r.containerId].col, db.containers[r.containerId].row)
    && r.name == db.items[r.id].name
    && r.description == db.items[r.id].description
    && StrictlySorted(r.tags) && Elements(r.tags) == ReadBack(ShownTags(db, r.id, query, filter))
    && (Elements(r.tags) == ShownTags(db, r.id, query, filter) <==> Readable(ShownTags(db, r.id, query, filter)))
    && r.matchedOn == Marks(r.name, r.description, r.tags, Lower(query), filter != [])
    && (r.matchedOn == MatchedFields(db, r.id, query, filter) <==> MarksReliable(db, r.id, query, filter))
  }

  function PackedNames(db: Tables, i: int, query: string, filter: seq<string>): seq<string> {
    Names(db, Scan(if filter == [] then GroupTags(db, KeptRows(db, query), i) else TagIds(db, i)))
  }

  /** The packed tag list that the query delivers with item `i`. */
  function PackedTags(db: Tables, i: int, query: string, filter: seq<string>): string {
    Join(PackedNames(db, i, query, filter))
  }

  lemma NamesOf(db: Tables, ts: set<int>)
    requires ts <= db.tags.Keys
    ensures Elements(Names(db, Scan(ts))) == set t | t in ts :: db.tags[t]
  {
    hide Names, Scan;
    forall n
      ensures n in Elements(Names(db, Scan(ts))) <==> n in set t | t in ts :: db.tags[t]
    {
      NameListed(db, ts, n);
    }
  }

  lemma NameListed(db: Tables, ts: set<int>, n: string)
    requires ts <= db.tags.Keys
    ensures n in Names(db, Scan(ts)) <==> exists t :: t in ts && db.tags[t] == n
  {
    hide Names, Scan;
    var scan := Scan(ts);
    var names := Names(db, scan);
    if t :| t in ts && db.tags[t] == n {
      assert t in scan;
      var k :| 0 <= k < |scan| && scan[k] == t;
      assert names[k] == n;
    }
    if n in names {
      var k :| 0 <= k < |names| && names[k] == n;
      assert scan[k] in scan;
    }
  }

  lemma NamesDistinct(db: Tables, ts: set<int>)
    requires WellFormed(db) && ts <= db.tags.Keys
    ensures Distinct(Names(db, Scan(ts)))
  {
    hide Names, Scan;
    var scan := Scan(ts);
    forall j, k | 0 <= j < k < |scan|
      ensures Names(db, scan)[j] != Names(db, scan)[k]
    {
      assert scan[j] in scan && scan[k] in scan && scan[j] != scan[k];
    }
  }

  lemma PackedNamesMeans(db: Tables, i: int, query: string, filter: seq<string>)
    requires WellFormed(db) && i in db.items && Wanted(db, i, query, filter)
    ensures Distinct(PackedNames(db, i, query, filter))
    ensures Elements(PackedNames(db, i, query, filter)) == ShownTags(db, i, query, filter)
  {
    hide TextHit, KeptRows, WellFormed;
    var ts := if filter == [] then GroupTags(db, KeptRows(db, query), i) else TagIds(db, i);
    NamesOf(db, ts);
    NamesDistinct(db, ts);
    if filter == [] {
      KeptTags(db, query, i);
    }
    ShownNames(db, i, query, filter, ts);
  }

  lemma OnlyEmptyName(names: seq<string>)
    requires Distinct(names)
    ensures Elements(names) == {""} <==> names == [""]
  {
    EmptyNameElements();
    if Elements(names) == {""} {
      DistinctCardinality(names);
      assert names[0] in Elements(names);
    }
  }

  lemma EmptyNameElements()
    ensures Elements([""]) == {""}
  {
    assert [""][0] == "";
  }

  lemma ReadBackMeans(names: seq<string>)
    requires Distinct(names)
    ensures Elements(Unpacked(Join(names))) == ReadBack(Elements(names))
    ensures Elements(Unpacked(Join(names))) == Elements(names) <==> Readable(Elements(names))
  {
    hide Split, Unpacked, Unpack, Join;
    UnpackedMeans(names);
    OnlyEmptyName(names);
    EmptyElements(names);
    UnpackedList(Join(names));
    EmptyMeansNoTags();
    if names == [] || names == [""] {
      assert Join(names) == "" by { JoinOfNothing(names); }
    } else {
      forall part
        ensures part in Elements(Unpacked(Join(names))) <==> part in ReadBack(Elements(names))
      {
        UnpackedParts(names, part);
        PartsOfElements(names, part);
      }
    }
  }

  lemma JoinOfNothing(names: seq<string>)
    requires names == [] || names == [""]
    ensures Join(names) == ""
  {
  }

  lemma PartsOfElements(names: seq<string>, part: string)
    ensures IsPartOf(part, names) <==> exists n :: n in Elements(names) && part in Split(n)
  {
    hide Split;
    if k :| 0 <= k < |names| && part in Split(names[k]) {
      assert names[k] in Elements(names);
    }
  }

  /** The tags of a result: strictly sorted, and those to show exactly when these are readable. */
  lemma PackedTagsMeans(db: Tables, i: int, query: string, filter: seq<string>)
    requires WellFormed(db) && i in db.items && Wanted(db, i, query, filter)
    ensures var tags := Unpacked(PackedTags(db, i, query, filter));
            && StrictlySorted(tags)
            && Elements(tags) == ReadBack(ShownTags(db, i, query, filter))
            && (Elements(tags) == ShownTags(db, i, query, filter) <==> Readable(ShownTags(db, i, query, filter)))
  {
    hide Wanted, PackedNames, Join, Unpacked, ReadBack, Readable, ShownTags, WellFormed, StrictlySorted;
    PackedNamesMeans(db, i, query, filter);
    UnpackedList(PackedTags(db, i, query, filter));
    ReadBackMeans(PackedNames(db, i, query, filter));
  }

  lemma ShownNames(db: Tables, i: int, query: string, filter: seq<string>, ts: set<int>)
    requires WellFormed(db) && Wanted(db, i, query, filter)
    requires ts == if filter != [] || TextHit(db, i, query) then TagIds(db, i) else set t | t in TagIds(db, i) && db.tags[t] == Lower(query)
    ensures (set t | t in ts :: db.tags[t]) == ShownTags(db, i, query, filter)
  {
    hide TextHit, Lower, IsTagWord;
    ShownMeans(db, i, query, filter);
    var names := set t | t in ts :: db.tags[t];
    if filter != [] || TextHit(db, i, query) {
      assert names == TagNames(db, i);
    } else {
      forall n ensures n in names <==> n == Lower(query) { OneNameShown(db, i, query, n); }
    }
  }

  lemma OneNameShown(db: Tables, i: int, query: string, n: string)
    requires Lower(query) in TagNames(db, i)
    ensures n in (set t | t in TagIds(db, i) && db.tags[t] == Lower(query) :: db.tags[t]) <==> n == Lower(query)
  {
    hide Lower;
    var t :| t in db.tags && (i, t) in db.links && db.tags[t] == Lower(query);
    assert t in TagIds(db, i);
  }

  /** A hit by its tag alone shows just the folded query. */
  lemma ShownMeans(db: Tables, i: int, query: string, filter: seq<string>)
    requires Wanted(db, i, query, filter)
    ensures ShownTags(db, i, query, filter) == if filter != [] || TextHit(db, i, query) then TagNames(db, i) else {Lower(query)}
    ensures filter == [] && !TextHit(db, i, query) ==> Lower(query) in TagNames(db, i)
  {
    hide TextHit, TagNames, Lower, IsTagWord;
    HasTagMeans(db, i, query);
    forall n ensures IsTagWord(n, query) <==> n == Lower(query) { TagWordMeans(n, query); }
  }

  lemma TagWordMeans(n: string, word: string)
    ensures IsTagWord(n, word) <==> n == Lower(word)
  {
    IsLowerOf(n, word);
  }

  lemma FoundArePlaced(db: Tables, query: string, filter: seq<string>)
    requires WellFormed(db)
    ensures forall i :: i in Found(db, query, filter) ==> Placed(db, i)
  {
    hide Wanted;
  }

  lemma HitsAreFound(db: Tables, query: string, filter: seq<string>)
    requires WellFormed(db) && (query != "" || filter != [])
    ensures filter == [] ==> UnfilteredHits(db, query) == Found(db, query, filter) && UnfilteredCount(db, query) == |Found(db, query, filter)|
    ensures filter != [] ==> FilteredHits(db, query, filter) == Found(db, query, filter) && FilteredCount(db, query, filter) == |Found(db, query, filter)|
  {
    hide KeptRows, FilteredHits, FilteredCount, Selected;
    if filter == [] {
      UnfilteredHitsMeans(db, query);
      assert NoneTwice(filter);
    } else {
      FilteredHitsMeans(db, query, filter);
    }
  }

  lemma EmptySearchFindsNothing(db: Tables)
    ensures Found(db, "", []) == {}
  {
  }

  lemma SplitBarFree(s: string)
    ensures s in Split(s) <==> '|' !in s
  {
    if '|' !in s {
      SplitHead(s, "");
    }
  }

  lemma LowerKeepsBar(s: string)
    ensures '|' in Lower(s) <==> '|' in s
  {
    assert forall k :: 0 <= k < |s| ==> (Lower(s)[k] == '|' <==> s[k] == '|');
    assert '|' in Lower(s) <==> exists k :: 0 <= k < |s| && Lower(s)[k] == '|';
    assert '|' in s <==> exists k :: 0 <= k < |s| && s[k] == '|';
  }

  /** Whether the query comes back among the shown tags just when it is a tag of the item. */
  lemma TagMarkMeans(db: Tables, i: int, query: string)
    requires i in db.items && query != "" && Wanted(db, i, query, [])
    ensures (Lower(query) in ReadBack(ShownTags(db, i, query, [])) <==> Lower(query) in TagNames(db, i)) <==> MarksReliable(db, i, query, [])
  {
    hide Split, TextHit, TagNames, Lower, ShownTags;
    var q := Lower(query);
    ShownMeans(db, i, query, []);
    var shown := ShownTags(db, i, query, []);
    SplitBarFree(q);
    LowerKeepsBar(query);
    LowerNotEmpty(query);
    forall n | n in shown && q in Split(n)
      ensures '|' !in q
    {
      PartHoldsNoBar(n, q);
    }
  }

  lemma PartHoldsNoBar(s: string, part: string)
    requires part in Split(s)
    ensures '|' !in part
  {
  }

  lemma LowerNotEmpty(s: string)
    ensures Lower(s) == "" <==> s == ""
    ensures Split("") == [""]
  {
  }

  lemma FieldMarksDiffer(name: bool, description: bool, tag: bool, tag': bool)
    ensures FieldMarks(name, description, tag) == FieldMarks(name, description, tag') <==> tag == tag'
  {
    assert |FieldMarks(name, description, true)| == |FieldMarks(name, description, false)| + 1;
  }

  /** The marks of a result are exactly the fields that matched exactly when they are reliable. */
  lemma MatchedFieldsMeans(db: Tables, i: int, query: string, filter: seq<string>, tags: seq<string>)
    requires i in db.items && Wanted(db, i, query, filter)
    requires Elements(tags) == ReadBack(ShownTags(db, i, query, filter))
    ensures Marks(db.items[i].name, db.items[i].description, tags, Lower(query), filter != []) == MatchedFields(db, i, query, filter) <==>
              MarksReliable(db, i, query, filter)
  {
    hide Contains, ReadBack, ShownTags, Wanted, FieldMarks, MatchedFields, MarksReliable, TagNames, Lower, Occurs, HasTag;
    LowerNotEmpty(query);
    HasTagMeans(db, i, query);
    if query != "" {
      OccursMeans(query, db.items[i].name);
      DescriptionMarked(db, i, query);
      FieldsMarked(db, i, query, filter);
      FieldMarksDiffer(NameHit(db, i, query), DescriptionHit(db, i, query), filter == [] && Lower(query) in tags,
                       filter == [] && Lower(query) in TagNames(db, i));
      if filter == [] {
        TagMarkMeans(db, i, query);
        assert Lower(query) in tags <==> Lower(query) in Elements(tags);
      }
    }
    assert query == "" ==> MatchedFields(db, i, query, filter) == [] by { NoFields(db, i, query, filter); }
    assert query == "" || filter != [] ==> MarksReliable(db, i, query, filter) by { TriviallyReliable(db, i, query, filter); }
  }

  lemma FieldsMarked(db: Tables, i: int, query: string, filter: seq<string>)
    requires query != ""
    ensures MatchedFields(db, i, query, filter) ==
              FieldMarks(NameHit(db, i, query), DescriptionHit(db, i, query), filter == [] && HasTag(db, i, query))
  {
    hide Occurs, HasTag;
  }

  lemma NoFields(db: Tables, i: int, query: string, filter: seq<string>)
    ensures query == "" ==> MatchedFields(db, i, query, filter) == []
  {
  }

  lemma TriviallyReliable(db: Tables, i: int, query: string, filter: seq<string>)
    ensures query == "" || filter != [] ==> MarksReliable(db, i, query, filter)
  {
  }

  lemma DescriptionMarked(db: Tables, i: int, query: string)
    requires i in db.items
    ensures var d := db.items[i].description;
            DescriptionHit(db, i, query) <==> d.Some? && Contains(Lower(d.value), Lower(query))
  {
    hide Contains, Occurs, Lower;
    if db.items[i].description.Some? {
      OccursMeans(query, db.items[i].description.value);
    }
  }

  /** The case of the letters in query and filter never changes what is found. */
  lemma CaseChangesNoHit(db: Tables, query: string, filter: seq<string>, query': string, filter': seq<string>)
    requires SameButCase(query, query') && |filter| == |filter'|
    requires forall k :: 0 <= k < |filter| ==> SameButCase(filter[k], filter'[k])
    ensures Found(db, query, filter) == Found(db, query', filter')
  {
    hide Occurs, TagNames, Lower, SameButCase;
    LowerMeans(query, query');
    LowerLength(query);
    LowerLength(query');
    forall k | 0 <= k < |filter| ensures LowerAll(filter)[k] == LowerAll(filter')[k] { LowerMeans(filter[k], filter'[k]); }
    assert LowerAll(filter) == LowerAll(filter');
    NoneTwiceMeans(filter);
    NoneTwiceMeans(filter');
    forall i | i in db.items
      ensures Wanted(db, i, query, filter) <==> Wanted(db, i, query', filter')
    {
      OccursMeans(query, db.items[i].name);
      OccursMeans(query', db.items[i].name);
      DescriptionMarked(db, i, query);
      DescriptionMarked(db, i, query');
      HasTagMeans(db, i, query);
      HasTagMeans(db, i, query');
      HasTagsMeans(db, i, filter);
      HasTagsMeans(db, i, filter');
    }
  }

  // ---------- marks that are wrong ----------

  /** One drawer with a screw tagged "screw|bolt". */
  function BarredShelf(): Tables {
    Tables("shelf", 1, 1, map[1 := Pos(1, 1)], map[1 := Item(1, "screw", None)], map[1 := "screw|bolt"], {(1, 1)}, 1, 1, 1)
  }

  lemma BarredTags()
    ensures WellFormed(BarredShelf()) && TagNames(BarredShelf(), 1) == {"screw|bolt"}
  {
    var db := BarredShelf();
    forall n ensures n in TagNames(db, 1) <==> n == "screw|bolt" { assert (1, 1) in db.links && db.tags[1] == "screw|bolt"; }
  }

  lemma BarredSplit()
    ensures Split("screw|bolt") == ["screw", "bolt"]
  {
    hide Split;
    SplitHead("screw", "bolt");
    SplitHead("bolt", "");
    assert "screw" + "|" + "bolt" == "screw|bolt";
  }

  lemma LowerAlready(s: string)
    requires forall k :: 0 <= k < |s| ==> !('A' <= s[k] <= 'Z')
    ensures Lower(s) == s
  {
  }

  lemma BarredWanted()
    ensures Wanted(BarredShelf(), 1, "screw", []) && Wanted(BarredShelf(), 1, "screw|bolt", [])
  {
    hide Lower, TagNames;
    BarredTags();
    LowerAlready("screw");
    LowerAlready("screw|bolt");
    HasTagMeans(BarredShelf(), 1, "screw|bolt");
    assert "screw"[0..5] == "screw";
    assert OccursAt("screw", "screw", 0);
  }

  lemma BarredUnreliable()
    ensures !MarksReliable(BarredShelf(), 1, "screw", []) && !MarksReliable(BarredShelf(), 1, "screw|bolt", [])
  {
    hide Lower, TagNames, Split;
    BarredTags();
    BarredSplit();
    LowerAlready("screw");
    LowerAlready("screw|bolt");
    assert ["screw", "bolt"][0] == "screw";
    assert "screw|bolt"[5] == '|';
  }

  /** The search "screw" marks a tag the item has not, the search "screw|bolt" misses the one it has. */
  lemma BarMisleadsMarks(query: string)
    requires query == "screw" || query == "screw|bolt"
    ensures var db := BarredShelf();
            && WellFormed(db) && Wanted(db, 1, query, [])
            && Marks("screw", None, Unpacked(PackedTags(db, 1, query, [])), query, false) != MatchedFields(db, 1, query, [])
            && TagNames(db, 1) == {"screw|bolt"}
  {
    hide Unpacked, PackedTags, Wanted, TagNames, WellFormed, Marks, MatchedFields, MarksReliable, Lower, ReadBack;
    var db := BarredShelf();
    BarredTags();
    BarredWanted();
    BarredUnreliable();
    LowerAlready("screw");
    LowerAlready("screw|bolt");
    var tags := Unpacked(PackedTags(db, 1, query, []));
    PackedTagsMeans(db, 1, query, []);
    MatchedFieldsMeans(db, 1, query, [], tags);
  }
}
