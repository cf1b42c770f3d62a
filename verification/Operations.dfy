/**
 What each store operation on items and tags does to the tables. A refused operation yields
 no tables: its transaction is rolled back.
 */
module Operations {
  import opened Wrappers
  import opened Sequences
  import opened Schema
  import opened Documents

  // ---------- items ----------

  function CreateItem(db: Tables, c: int, name: string, description: Option<string>, tags: seq<string>): Result<Tables> {
    if c !in db.containers then Refused(ContainerNotFound)
    else
      var inserted :- InsertItem(db, c, name, description);
      TagAll(inserted, inserted.lastItem, tags)
  }

  function UpdateItem(db: Tables, i: int, name: string, description: Option<string>, c: int): Result<Tables> {
    if i !in db.items then Refused(ItemNotFound)
    else if c !in db.containers then Refused(ContainerNotFound)
    else Ok(db.(items := db.items[i := Item(c, name, description)]))
  }

  function DeleteItem(db: Tables, i: int): Result<Tables> {
    if i !in db.items then Refused(ItemNotFound) else Ok(DeleteItems(db, {i}))
  }

  function AddTagToItem(db: Tables, i: int, name: string): Result<Tables> {
    if i !in db.items then Refused(ItemNotFound)
    else
      var interned := InsertTagOrIgnore(db, name);
      InsertLinkOrIgnore(interned, i, TagIdFor(interned, name))
  }

  function RemoveTagFromItem(db: Tables, i: int, name: string): Result<Tables> {
    var t := TagIdOf(db, name);
    if t.None? then Refused(TagNotFound)
    else if (i, t.value) !in db.links then Refused(TagNotAssociated)
    else Ok(db.(links := db.links - {(i, t.value)}))
  }

  /**
   Creating an item succeeds exactly when the container exists and no tag repeats; it adds one
   row under a fresh id carrying exactly those tags, and leaves every other item as it was.
   */
  lemma CreateItemMeans(db: Tables, c: int, name: string, description: Option<string>, tags: seq<string>)
    requires WellFormed(db)
    ensures var r := CreateItem(db, c, name, description, tags);
            && (r.Ok? <==> c in db.containers && Distinct(tags))
            && (r.Ok? ==> WellFormed(r.value) && ItemAdded(db, r.value, c, DocItem(name, description, tags)))
            && (r == Refused(ContainerNotFound) <==> c !in db.containers)
            && (r == Refused(UniqueViolated) <==> c in db.containers && !Distinct(tags))
  {
    if c in db.containers {
      AddItemRows(db, c, DocItem(name, description, tags));
      if CreateItem(db, c, name, description, tags).Refused? {
        var inserted := InsertItem(db, c, name, description).value;
        TagAllRefused(inserted, inserted.lastItem, tags);
      }
    }
  }

  /** An update rewrites one row and needs both the item and the container to exist. */
  lemma UpdateItemMeans(db: Tables, i: int, name: string, description: Option<string>, c: int)
    requires WellFormed(db)
    ensures var r := UpdateItem(db, i, name, description, c);
            && (r.Ok? <==> i in db.items && c in db.containers)
            && (r == Refused(ItemNotFound) <==> i !in db.items)
            && (r == Refused(ContainerNotFound) <==> i in db.items && c !in db.containers)
            && (r.Ok? ==> WellFormed(r.value) && r.value == db.(items := r.value.items)
                          && r.value.items.Keys == db.items.Keys
                          && r.value.items[i] == Item(c, name, description)
                          && (forall j :: j in db.items && j != i ==> r.value.items[j] == db.items[j])
                          && (forall j :: TagNames(r.value, j) == TagNames(db, j)))
  {
    var r := UpdateItem(db, i, name, description, c);
    if r.Ok? {
      forall j ensures TagNames(r.value, j) == TagNames(db, j) { NoNewTags(db, r.value, j); }
    }
  }

  /** Deleting an item takes its tag links along and touches no other item. */
  lemma DeleteItemMeans(db: Tables, i: int)
    requires WellFormed(db)
    ensures var r := DeleteItem(db, i);
            && (r.Ok? <==> i in db.items) && (r == Refused(ItemNotFound) <==> i !in db.items)
            && (r.Ok? ==> WellFormed(r.value) && r.value == db.(items := db.items - {i}, links := r.value.links)
                          && TagNames(r.value, i) == {}
                          && (forall j :: j != i ==> TagNames(r.value, j) == TagNames(db, j)))
  {
  }

  /** Tagging an existing item always succeeds and adds the one name to it. */
  lemma AddTagMeans(db: Tables, i: int, name: string)
    requires WellFormed(db)
    ensures var r := AddTagToItem(db, i, name);
            && (r.Ok? <==> i in db.items) && (r == Refused(ItemNotFound) <==> i !in db.items)
            && (r.Ok? ==> WellFormed(r.value) && Tagged(db, r.value, i, {name}))
  {
    if i in db.items {
      InternMeans(db, name);
      var interned := InsertTagOrIgnore(db, name);
      LinkMeans(interned, i, TagIdFor(interned, name));
    }
  }

  /** Untagging succeeds exactly when the item carries the tag, and takes off just that name. */
  lemma RemoveTagMeans(db: Tables, i: int, name: string)
    requires WellFormed(db)
    ensures var r := RemoveTagFromItem(db, i, name);
            && (r.Ok? <==> name in TagNames(db, i))
            && (r.Ok? ==> WellFormed(r.value) && r.value == db.(links := r.value.links)
                          && TagNames(r.value, i) == TagNames(db, i) - {name}
                          && (forall j :: j != i ==> TagNames(r.value, j) == TagNames(db, j)))
            && (r == Refused(TagNotFound) <==> name !in AllNames(db))
            && (r == Refused(TagNotAssociated) <==> name in AllNames(db) && name !in TagNames(db, i))
  {
  }

  /** Untagging undoes tagging, for a tag the item did not carry before. */
  lemma RemoveUndoesAdd(db: Tables, i: int, name: string)
    requires WellFormed(db) && i in db.items && name !in TagNames(db, i)
    ensures var added := AddTagToItem(db, i, name);
            && added.Ok?
            && RemoveTagFromItem(added.value, i, name).Ok?
            && RemoveTagFromItem(added.value, i, name).value.links == db.links
            && RemoveTagFromItem(added.value, i, name).value.items == db.items
  {
  }

  // ---------- tags ----------

  function RenameTag(db: Tables, t: int, newName: string): Result<Tables> {
    if t !in db.tags then Refused(TagNotFound)
    else if exists u :: u in db.tags && u != t && db.tags[u] == newName then Refused(UniqueViolated)
    else Ok(db.(tags := db.tags[t := newName]))
  }

  /** INSERT OR IGNORE of every source link under the target; a missing target is a broken foreign key. */
  function CopyLinks(db: Tables, source: int, target: int): (r: Result<Tables>)
    ensures WellFormed(db) && r.Ok? ==> WellFormed(r.value)
  {
    var copies := set l | l in db.links && l.1 == source :: (l.0, target);
    if target !in db.tags && !(copies <= db.links) then Refused(ForeignKeyViolated)
    else Ok(db.(links := db.links + copies))
  }

  function MergeTags(db: Tables, source: int, target: int): Result<Tables> {
    var copied :- CopyLinks(db, source, target);
    var unlinked := copied.(links := set l | l in copied.links && l.1 != source);
    Ok(DeleteTag(unlinked, source))
  }

  function DeleteUnusedTag(db: Tables, t: int): Result<Tables> {
    if t in db.tags && !exists l: (int, int) :: l in db.links && l.1 == t then Ok(DeleteTag(db, t)) else Refused(TagInUse)
  }

  /** The items that carry tag `t`. */
  function Users(db: Tables, t: int): set<int> {
    set l | l in db.links && l.1 == t :: l.0
  }

  function Replace(names: set<string>, old': string, new': string): set<string> {
    if old' in names then names - {old'} + {new'} else names
  }

  /** A rename succeeds exactly when the tag exists and no other tag has the name. */
  lemma RenameTagMeans(db: Tables, t: int, newName: string)
    requires WellFormed(db)
    ensures var r := RenameTag(db, t, newName);
            && (r.Ok? <==> t in db.tags && (newName !in AllNames(db) || db.tags[t] == newName))
            && (r == Refused(TagNotFound) <==> t !in db.tags)
            && (r == Refused(UniqueViolated) <==> t in db.tags && newName in AllNames(db) && db.tags[t] != newName)
            && (r.Ok? ==> WellFormed(r.value) && r.value == db.(tags := r.value.tags)
                          && r.value.tags.Keys == db.tags.Keys && r.value.tags[t] == newName
                          && (forall u :: u in db.tags && u != t ==> r.value.tags[u] == db.tags[u])
                          && (forall i :: TagNames(r.value, i) == Replace(TagNames(db, i), db.tags[t], newName)))
  {
    var r := RenameTag(db, t, newName);
    if r.Ok? {
      assert newName !in AllNames(db) || db.tags[t] == newName;
      forall i
        ensures TagNames(r.value, i) == Replace(TagNames(db, i), db.tags[t], newName)
      {
        RenamedNames(db, t, newName, i);
      }
    }
  }

  lemma RenamedNames(db: Tables, t: int, newName: string, i: int)
    requires WellFormed(db) && RenameTag(db, t, newName).Ok?
    ensures TagNames(RenameTag(db, t, newName).value, i) == Replace(TagNames(db, i), db.tags[t], newName)
  {
    var b := RenameTag(db, t, newName).value;
    forall n
      ensures n in TagNames(b, i) <==> n in Replace(TagNames(db, i), db.tags[t], newName)
    {
      if n in TagNames(b, i) {
        var u :| u in b.tags && (i, u) in b.links && b.tags[u] == n;
        assert u in db.tags && (i, u) in db.links && db.tags[u] in TagNames(db, i);
      }
      if n in TagNames(db, i) {
        var u :| u in db.tags && (i, u) in db.links && db.tags[u] == n;
        assert b.tags[u] in TagNames(b, i);
      }
      if db.tags[t] in TagNames(db, i) {
        var u :| u in db.tags && (i, u) in db.links && db.tags[u] == db.tags[t];
        assert u == t && b.tags[t] in TagNames(b, i);
      }
    }
  }

  /**
   Merging two different existing tags replaces source by target on every item, removes exactly
   the source tag, and gives the target the items of both.
   */
  lemma MergeTagsMeans(db: Tables, source: int, target: int)
    requires WellFormed(db) && source != target && source in db.tags && target in db.tags
    ensures var r := MergeTags(db, source, target);
            && r.Ok? && WellFormed(r.value)
            && r.value == db.(tags := db.tags - {source}, links := r.value.links)
            && Users(r.value, target) == Users(db, source) + Users(db, target)
            && (forall i :: TagNames(r.value, i) == Replace(TagNames(db, i), db.tags[source], db.tags[target]))
            && (forall l: (int, int) :: l.1 != source && l.1 != target ==> (l in r.value.links <==> l in db.links))
  {
    var b := MergeTags(db, source, target).value;
    MergedLinks(db, source, target);
    forall i
      ensures TagNames(b, i) == Replace(TagNames(db, i), db.tags[source], db.tags[target])
    {
      MergedNames(db, source, target, i);
    }
    MergedUsers(db, source, target);
  }

  lemma MergedLinks(db: Tables, source: int, target: int)
    requires WellFormed(db) && source != target && target in db.tags
    ensures MergeTags(db, source, target).Ok?
    ensures forall l: (int, int) :: l in MergeTags(db, source, target).value.links <==>
              l.1 != source && (l in db.links || (l.1 == target && (l.0, source) in db.links))
  {
    hide MergeTags;
    MergeMeans(db, source, target);
  }

  lemma MergedUsers(db: Tables, source: int, target: int)
    requires WellFormed(db) && source != target && target in db.tags
    ensures MergeTags(db, source, target).Ok?
    ensures Users(MergeTags(db, source, target).value, target) == Users(db, source) + Users(db, target)
  {
    MergedLinks(db, source, target);
    var b := MergeTags(db, source, target).value;
    forall i
      ensures i in Users(b, target) <==> i in Users(db, source) + Users(db, target)
    {
      assert i in Users(b, target) <==> (i, target) in b.links;
      assert i in Users(db, target) <==> (i, target) in db.links;
      assert i in Users(db, source) <==> (i, source) in db.links;
    }
  }

  lemma MergedNames(db: Tables, source: int, target: int, i: int)
    requires WellFormed(db) && source != target && source in db.tags && target in db.tags
    ensures MergeTags(db, source, target).Ok?
    ensures TagNames(MergeTags(db, source, target).value, i) == Replace(TagNames(db, i), db.tags[source], db.tags[target])
  {
  }

  lemma CopiedLinks(db: Tables, source: int, target: int, l: (int, int))
    ensures l in (set m | m in db.links && m.1 == source :: (m.0, target)) <==> l.1 == target && (l.0, source) in db.links
  {
    if l.1 == target && (l.0, source) in db.links {
      assert (l.0, source).1 == source;
    }
  }

  lemma IsUser(db: Tables, i: int, t: int)
    requires (i, t) in db.links
    ensures i in Users(db, t)
  {
    assert (i, t).0 == i && (i, t).1 == t;
  }

  lemma UsersMean(db: Tables, t: int)
    ensures forall i :: i in Users(db, t) <==> (i, t) in db.links
  {
    forall i ensures i in Users(db, t) <==> (i, t) in db.links { assert (i, t).0 == i && (i, t).1 == t; }
  }

  /**
   Any merge, whatever the two ids: refused exactly when the target is missing and some item
   carries the source; else the source row goes if there is one, its pairs move to the target,
   and every other row and pair stays as it is.
   */
  lemma MergeMeans(db: Tables, source: int, target: int)
    requires WellFormed(db)
    ensures var r := MergeTags(db, source, target);
            && (r.Refused? <==> target !in db.tags && Users(db, source) != {})
            && (r.Refused? ==> r.why == ForeignKeyViolated)
            && (r.Ok? ==>
                  && WellFormed(r.value)
                  && r.value == db.(tags := db.tags - {source}, links := r.value.links)
                  && forall l: (int, int) :: l in r.value.links <==>
                       l.1 != source && (l in db.links || (l.1 == target && (l.0, source) in db.links)))
  {
    hide Users, WellFormed;
    CopyMeans(db, source, target);
    MergeKeepsSchema(db, source, target);
  }

  lemma CopyMeans(db: Tables, source: int, target: int)
    requires WellFormed(db)
    ensures var r := CopyLinks(db, source, target);
            && (r.Refused? <==> target !in db.tags && Users(db, source) != {})
            && (r.Refused? ==> r.why == ForeignKeyViolated)
            && (r.Ok? ==> r.value == db.(links := r.value.links) && forall l: (int, int) ::
                  l in r.value.links <==> l in db.links || (l.1 == target && (l.0, source) in db.links))
  {
    hide Users;
    var copies := set l | l in db.links && l.1 == source :: (l.0, target);
    forall l: (int, int) ensures l in copies <==> l.1 == target && (l.0, source) in db.links { CopiedLinks(db, source, target, l); }
    UsersMean(db, source);
    forall l: (int, int) | l in copies ensures l.0 in Users(db, source) { CopiedLinks(db, source, target, l); IsUser(db, l.0, source); }
    if Users(db, source) != {} {
      var i := Pick(Users(db, source));
      assert (i, target) in copies;
    }
  }

  lemma MergeKeepsSchema(db: Tables, source: int, target: int)
    requires WellFormed(db)
    ensures MergeTags(db, source, target).Ok? ==> WellFormed(MergeTags(db, source, target).value)
  {
  }

  /** A merge is refused exactly when the target is missing and some item carries the source. */
  lemma MergeRefusedIff(db: Tables, source: int, target: int)
    requires WellFormed(db)
    ensures MergeTags(db, source, target).Refused? <==> target !in db.tags && Users(db, source) != {}
    ensures MergeTags(db, source, target).Ok? ==> WellFormed(MergeTags(db, source, target).value)
  {
    hide MergeTags, Users;
    MergeMeans(db, source, target);
  }

  lemma SameLinks(a: set<(int, int)>, b: set<(int, int)>)
    requires forall l: (int, int) :: l in a <==> l in b
    ensures a == b
  {
  }

  /** Merging a tag that is gone changes nothing. */
  lemma MergeMissingSource(db: Tables, source: int, target: int)
    requires WellFormed(db) && source !in db.tags
    ensures MergeTags(db, source, target) == Ok(db)
  {
    hide MergeTags;
    MergeMeans(db, source, target);
    var b := MergeTags(db, source, target).value;
    UsersMean(db, source);
    forall l: (int, int) ensures l.1 != source || l !in db.links { }
    forall l: (int, int) ensures (l.0, source) !in db.links { }
    SameLinks(b.links, db.links);
    assert db.tags - {source} == db.tags;
  }

  /** Merging an unused tag into a missing one deletes its row and nothing else. */
  lemma MergeUnusedSource(db: Tables, source: int, target: int)
    requires WellFormed(db) && target !in db.tags && Users(db, source) == {}
    ensures MergeTags(db, source, target) == Ok(db.(tags := db.tags - {source}))
  {
    hide MergeTags;
    MergeMeans(db, source, target);
    var b := MergeTags(db, source, target).value;
    UsersMean(db, source);
    forall l: (int, int) | l in db.links ensures l.1 != source && (l.0, source) !in db.links { assert l.0 !in Users(db, source); }
    SameLinks(b.links, db.links);
  }

  /** Merging a tag into itself deletes it: its row, its pairs, and nothing else. */
  lemma MergeIntoItselfDeletes(db: Tables, t: int)
    requires WellFormed(db) && t in db.tags
    ensures MergeTags(db, t, t) == Ok(db.(tags := db.tags - {t}, links := set l | l in db.links && l.1 != t))
    ensures Users(MergeTags(db, t, t).value, t) == {}
    ensures forall i :: TagNames(MergeTags(db, t, t).value, i) == TagNames(db, i) - {db.tags[t]}
  {
    hide MergeTags;
    MergeMeans(db, t, t);
    var b := MergeTags(db, t, t).value;
    SameLinks(b.links, set l | l in db.links && l.1 != t);
    forall i
      ensures TagNames(b, i) == TagNames(db, i) - {db.tags[t]}
    {
      OneTagGone(db, b, t, i);
    }
  }

  lemma OneTagGone(db: Tables, b: Tables, t: int, i: int)
    requires WellFormed(db) && t in db.tags
    requires b == db.(tags := db.tags - {t}, links := set l | l in db.links && l.1 != t)
    ensures TagNames(b, i) == TagNames(db, i) - {db.tags[t]}
  {
    forall n
      ensures n in TagNames(b, i) <==> n in TagNames(db, i) - {db.tags[t]}
    {
      if n in TagNames(b, i) {
        var u :| u in b.tags && (i, u) in b.links && b.tags[u] == n;
        assert u in db.tags && (i, u) in db.links;
      }
      if n in TagNames(db, i) && n != db.tags[t] {
        var u :| u in db.tags && (i, u) in db.links && db.tags[u] == n;
        assert u in b.tags && (i, u) in b.links;
      }
    }
  }

  /** Only a tag that no item carries can be deleted, and no item notices. */
  lemma DeleteUnusedTagMeans(db: Tables, t: int)
    requires WellFormed(db)
    ensures var r := DeleteUnusedTag(db, t);
            && (r.Ok? <==> t in db.tags && Users(db, t) == {})
            && (r.Refused? ==> r.why == TagInUse)
            && (r.Ok? ==> WellFormed(r.value) && r.value == db.(tags := db.tags - {t})
                          && forall i :: TagNames(r.value, i) == TagNames(db, i))
  {
    var r := DeleteUnusedTag(db, t);
    assert (exists l: (int, int) :: l in db.links && l.1 == t) <==> Users(db, t) != {} by {
      if l :| l in db.links && l.1 == t {
        assert l.0 in Users(db, t);
      }
    }
    if r.Ok? {
      assert r.value.links == db.links;
      forall i
        ensures TagNames(r.value, i) == TagNames(db, i)
      {
        forall n | n in TagNames(db, i)
          ensures n in TagNames(r.value, i)
        {
          var u :| u in db.tags && (i, u) in db.links && db.tags[u] == n;
          assert (i, u).1 == u;
        }
      }
    }
  }
}
