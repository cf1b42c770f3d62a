/** The tag listing with item counts, and the exact-name lookup built on its prefix search. */
module TagListing {
  import opened Wrappers
  import opened Sequences
  import opened Text
  import opened Schema
  import opened Operations
  import Like

  datatype TagRow = TagRow(id: int, name: string, itemCount: nat)

  predicate ByTagName(a: TagRow, b: TagRow) {
    Le(a.name, b.name)
  }

  function TagRowOf(db: Tables, t: int): TagRow {
    TagRow(t, TagName(db, t), |Users(db, t)|)
  }

  /** The row is a tag with its name and the number of its pairs. */
  ghost predicate TellsTag(db: Tables, row: TagRow) {
    row.id in db.tags && row.name == db.tags[row.id] && row.itemCount == |set l | l in db.links && l.1 == row.id|
  }

  lemma {:induction false} FirstsCount(pairs: set<(int, int)>, t: int)
    requires forall l :: l in pairs ==> l.1 == t
    ensures |set l | l in pairs :: l.0| == |pairs|
  {
    if pairs != {} {
      var m := Pick(pairs);
      FirstsCount(pairs - {m}, t);
      FirstsWithout(pairs, m, t);
    }
  }

  lemma FirstsWithout(pairs: set<(int, int)>, m: (int, int), t: int)
    requires m in pairs && forall l :: l in pairs ==> l.1 == t
    ensures (set l | l in pairs :: l.0) == (set l | l in pairs - {m} :: l.0) + {m.0}
    ensures m.0 !in (set l | l in pairs - {m} :: l.0)
  {
    var firsts, rest := set l | l in pairs :: l.0, set l | l in pairs - {m} :: l.0;
    forall i ensures i in firsts <==> i in rest + {m.0} { }
    forall l | l in pairs - {m} ensures l.0 != m.0 { assert l.1 == m.1; }
  }

  lemma TagRowTells(db: Tables, t: int)
    requires t in db.tags
    ensures TellsTag(db, TagRowOf(db, t)) && TagRowOf(db, t).id == t
  {
    var pairs := set l | l in db.links && l.1 == t;
    FirstsCount(pairs, t);
    forall i ensures i in Users(db, t) <==> i in set l | l in pairs :: l.0 { }
    assert Users(db, t) == set l | l in pairs :: l.0;
  }

  /** WHERE t.name LIKE prefix || '%', with the prefix not escaped; an empty prefix filters nothing. */
  function ListedIds(db: Tables, prefix: string): set<int> {
    set t | t in db.tags && (prefix == "" || Like.Matches(prefix + "%", db.tags[t], None))
  }

  function TagRows(db: Tables, ids: seq<int>): (r: seq<TagRow>)
    ensures |r| == |ids|
    ensures forall k :: 0 <= k < |ids| ==> r[k] == TagRowOf(db, ids[k])
  {
    Map(t => TagRowOf(db, t), ids)
  }

  function ListTags(db: Tables, prefix: string): seq<TagRow> {
    SortBy(ByTagName, TagRows(db, Scan(ListedIds(db, prefix))))
  }

  lemma ListedRows(db: Tables, prefix: string, row: TagRow)
    ensures row in ListTags(db, prefix) <==> row.id in ListedIds(db, prefix) && row == TagRowOf(db, row.id)
  {
  }

  /** However loosely the prefix matches, the tag with exactly that name is in the listing. */
  lemma ExactNameListed(db: Tables, t: int)
    requires t in db.tags
    ensures TagRowOf(db, t) in ListTags(db, db.tags[t])
    ensures TagRowOf(db, t) in ListTags(db, "")
  {
    Like.PrefixMatchesItself(db.tags[t]);
    ListedRows(db, db.tags[t], TagRowOf(db, t));
    ListedRows(db, "", TagRowOf(db, t));
  }

  lemma ListingOrder()
    ensures Order(ByTagName)
  {
    LeOrder();
  }

  /** The listing has every matching tag once, with the number of items that carry it, in order of name. */
  lemma ListTagsMeans(db: Tables, prefix: string)
    ensures |ListTags(db, prefix)| == |ListedIds(db, prefix)|
    ensures Sorted(ByTagName, ListTags(db, prefix))
    ensures forall row :: row in ListTags(db, prefix) <==> row.id in ListedIds(db, prefix) && row == TagRowOf(db, row.id)
    ensures forall row :: row in ListTags(db, prefix) ==> TellsTag(db, row)
    ensures forall j, k :: 0 <= j < k < |ListTags(db, prefix)| ==> Precedes(ListTags(db, prefix)[j].name, ListTags(db, prefix)[k].name)
  {
    hide TagRowOf, ListedIds, ListTags, Le, Precedes, TellsTag;
    ListingOrder();
    ListTagsSorts(db, prefix);
    SortBySorted(ByTagName, TagRows(db, Scan(ListedIds(db, prefix))));
    forall row { ListedRows(db, prefix, row); }
    forall row | row in ListTags(db, prefix) ensures TellsTag(db, row) { ListedTells(db, prefix, row.id); }
    var rows := ListTags(db, prefix);
    forall j, k | 0 <= j < k < |rows| ensures Precedes(rows[j].name, rows[k].name) { LeMeans(rows[j].name, rows[k].name); }
  }

  lemma ListedTells(db: Tables, prefix: string, t: int)
    requires t in ListedIds(db, prefix)
    ensures TellsTag(db, TagRowOf(db, t))
  {
    TagRowTells(db, t);
  }

  lemma ListTagsSorts(db: Tables, prefix: string)
    ensures ListTags(db, prefix) == SortBy(ByTagName, TagRows(db, Scan(ListedIds(db, prefix))))
  {
  }

  /** The tags whose name begins with the prefix, case aside. */
  function NamedFrom(db: Tables, prefix: string): set<int> {
    set t | t in db.tags && Lower(prefix) <= Lower(db.tags[t])
  }

  function OneTag(name: string): Tables {
    Tables("shelf", 1, 1, map[], map[], map[1 := name], {}, 0, 0, 1)
  }

  /** Over all stores, the listing is the tags beginning with the prefix exactly when the prefix holds no wildcard. */
  lemma ListsByPrefixIff(prefix: string)
    ensures (forall db :: WellFormed(db) ==> ListedIds(db, prefix) == NamedFrom(db, prefix)) <==> !Like.HasWildcard(prefix)
  {
    hide Like.Matches, Lower;
    Like.UnescapedPrefixIff(prefix);
    if Like.HasWildcard(prefix) {
      LooseTagListed(prefix);
    } else {
      forall db: Tables
        ensures ListedIds(db, prefix) == NamedFrom(db, prefix)
      {
        PlainPrefixLists(db, prefix);
      }
    }
  }

  lemma PlainPrefixLists(db: Tables, prefix: string)
    requires !Like.HasWildcard(prefix)
    ensures ListedIds(db, prefix) == NamedFrom(db, prefix)
  {
    hide Like.Matches;
    forall t
      ensures t in ListedIds(db, prefix) <==> t in NamedFrom(db, prefix)
    {
      if t in db.tags {
        Like.PlainPrefix(prefix, db.tags[t]);
      }
    }
  }

  lemma LooseTagListed(prefix: string)
    requires Like.HasWildcard(prefix)
    ensures var db := OneTag(Like.LooseMatch(prefix)); WellFormed(db) && 1 in ListedIds(db, prefix) && 1 !in NamedFrom(db, prefix)
  {
    hide Like.Matches, Lower;
    Like.LooseMatchMatches(prefix);
    Like.LooseMatchDiffers(prefix);
  }
}
