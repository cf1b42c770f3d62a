/** What holds of the store after any sequence of operations. */
module Runs {
  import opened Wrappers
  import opened Sequences
  import opened Schema
  import opened Documents
  import Operations
  import Resize
  import RoundTrip
  import S = Store

  datatype Command =
    | CreateItem(container: int, name: string, description: Option<string>, tags: seq<string>)
    | UpdateItem(item: int, name: string, description: Option<string>, container: int)
    | DeleteItem(item: int)
    | AddTag(item: int, tagName: string)
    | RemoveTag(item: int, tagName: string)
    | RenameTag(tag: int, newName: string)
    | MergeTags(source: int, target: int)
    | DeleteUnusedTag(tag: int)
    | ResizeShelf(rows: int, cols: int)
    | RenameShelf(shelfName: string)
    | ImportAll(doc: Document)

  function Outcome(db: Tables, cmd: Command): Result<Tables> {
    match cmd
    case CreateItem(c, name, description, tags) => Operations.CreateItem(db, c, name, description, tags)
    case UpdateItem(i, name, description, c) => Operations.UpdateItem(db, i, name, description, c)
    case DeleteItem(i) => Operations.DeleteItem(db, i)
    case AddTag(i, name) => Operations.AddTagToItem(db, i, name)
    case RemoveTag(i, name) => Operations.RemoveTagFromItem(db, i, name)
    case RenameTag(t, name) => Operations.RenameTag(db, t, name)
    case MergeTags(source, target) => Operations.MergeTags(db, source, target)
    case DeleteUnusedTag(t) => Operations.DeleteUnusedTag(db, t)
    case ResizeShelf(rows, cols) => Ok(Resize.ResizeShelf(db, rows, cols))
    case RenameShelf(name) => Ok(db.(name := name))
    case ImportAll(doc) => Import(db, doc)
  }

  /** A refused command leaves the tables as they were. */
  function Step(db: Tables, cmd: Command): Tables {
    var outcome := Outcome(db, cmd);
    if outcome.Ok? then outcome.value else db
  }

  function Run(db: Tables, cmds: seq<Command>): Tables
    decreases |cmds|
  {
    if cmds == [] then db else Run(Step(db, cmds[0]), cmds[1..])
  }

  method ExecuteResize(store: S.Store, rows: int, cols: int)
    requires store.Valid()
    modifies store
    ensures store.Valid() && store.db == Step(old(store.db), ResizeShelf(rows, cols))
  {
    hide WellFormed, Resize.ResizeShelf, Resize.Blocked, Resize.LiesOutside, Resize.Resized, Resize.TellsReport, Resize.Affected;
    var _ := store.ResizeShelf(rows, cols);
  }

  method ExecuteImport(store: S.Store, doc: Document)
    requires store.Valid()
    modifies store
    ensures store.Valid() && store.db == Step(old(store.db), ImportAll(doc))
  {
    hide WellFormed, Import, RoundTrip.TellsShelf, RoundTrip.SameDocument;
    var _ := store.ImportAllData(doc);
  }

  /** The store object performs each command as its step. */
  method Execute(store: S.Store, cmd: Command)
    requires store.Valid()
    modifies store
    ensures store.Valid() && store.db == Step(old(store.db), cmd)
  {
    hide WellFormed, Operations.CreateItem, Operations.UpdateItem, Operations.DeleteItem, Operations.AddTagToItem,
      Operations.RemoveTagFromItem, Operations.RenameTag, Operations.MergeTags, Operations.DeleteUnusedTag, Resize.ResizeShelf, Import;
    match cmd {
      case CreateItem(c, name, description, tags) => var _ := store.CreateItem(c, name, description, tags);
      case UpdateItem(i, name, description, c) => var _ := store.UpdateItem(i, name, description, c);
      case DeleteItem(i) => var _ := store.DeleteItem(i);
      case AddTag(i, name) => var _ := store.AddTagToItem(i, name);
      case RemoveTag(i, name) => var _ := store.RemoveTagFromItem(i, name);
      case RenameTag(t, name) => var _ := store.RenameTag(t, name);
      case MergeTags(source, target) => var _ := store.MergeTags(source, target);
      case DeleteUnusedTag(t) => var _ := store.DeleteUnusedTag(t);
      case ResizeShelf(rows, cols) => ExecuteResize(store, rows, cols);
      case RenameShelf(name) => store.UpdateShelfName(name);
      case ImportAll(doc) => ExecuteImport(store, doc);
    }
  }

  /** ... and a sequence of them as a run. */
  method ExecuteAll(store: S.Store, cmds: seq<Command>)
    requires store.Valid()
    modifies store
    ensures store.Valid() && store.db == Run(old(store.db), cmds)
  {
    hide WellFormed, Step;
    ghost var start := store.db;
    assert cmds[0..] == cmds;
    for k := 0 to |cmds|
      invariant store.Valid() && Run(store.db, cmds[k..]) == Run(start, cmds)
    {
      assert cmds[k..][0] == cmds[k] && cmds[k..][1..] == cmds[k + 1..];
      Execute(store, cmds[k]);
    }
  }

  // ---------- the schema ----------

  lemma StepKeepsSchema(db: Tables, cmd: Command)
    requires WellFormed(db)
    ensures WellFormed(Step(db, cmd))
  {
    hide WellFormed, ItemAdded, Tagged, TagNames, AllNames, Distinct, Operations.Users, Resize.Resized, Resize.LiesOutside, Resize.Blocked, Import;
    match cmd
    case CreateItem(c, name, description, tags) => Operations.CreateItemMeans(db, c, name, description, tags);
    case UpdateItem(i, name, description, c) => Operations.UpdateItemMeans(db, i, name, description, c);
    case DeleteItem(i) => Operations.DeleteItemMeans(db, i);
    case AddTag(i, name) => Operations.AddTagMeans(db, i, name);
    case RemoveTag(i, name) => Operations.RemoveTagMeans(db, i, name);
    case RenameTag(t, name) => Operations.RenameTagMeans(db, t, name);
    case MergeTags(source, target) => Operations.MergeRefusedIff(db, source, target);
    case DeleteUnusedTag(t) => Operations.DeleteUnusedTagMeans(db, t);
    case ResizeShelf(rows, cols) => Resize.ResizeMeans(db, rows, cols);
    case RenameShelf(name) => SchemaIgnoresName(db, name);
    case ImportAll(doc) => if Import(db, doc).Ok? { ImportSizes(db, doc); }
  }

  lemma SchemaIgnoresName(db: Tables, name: string)
    requires WellFormed(db)
    ensures WellFormed(db.(name := name))
  {
  }

  /** Every reachable store satisfies every constraint of the schema. */
  lemma {:induction false} RunKeepsSchema(db: Tables, cmds: seq<Command>)
    requires WellFormed(db)
    ensures WellFormed(Run(db, cmds))
    decreases |cmds|
  {
    hide WellFormed;
    if cmds != [] {
      StepKeepsSchema(db, cmds[0]);
      RunKeepsSchema(Step(db, cmds[0]), cmds[1..]);
    }
  }

  // ---------- ids ----------

  /** Every row of `b` is a row of `a` or has an id that `a` had not yet handed out. */
  ghost predicate Advances(a: Tables, b: Tables) {
    && a.lastContainer <= b.lastContainer && a.lastItem <= b.lastItem && a.lastTag <= b.lastTag
    && (forall c :: c in b.containers ==> c in a.containers || c > a.lastContainer)
    && (forall i :: i in b.items ==> i in a.items || i > a.lastItem)
    && (forall t :: t in b.tags ==> t in a.tags || t > a.lastTag)
  }

  lemma {:induction false} TagAllAdvances(db: Tables, i: int, names: seq<string>)
    requires TagAll(db, i, names).Ok?
    ensures Advances(db, TagAll(db, i, names).value)
    decreases |names|
  {
    if names != [] {
      var next := TagItem(db, i, names[0]).value;
      assert Advances(db, next);
      TagAllAdvances(next, i, names[1..]);
    }
  }

  lemma {:induction false} AddItemsAdvances(db: Tables, c: int, items: seq<DocItem>)
    requires AddItems(db, c, items).Ok?
    ensures Advances(db, AddItems(db, c, items).value)
    decreases |items|
  {
    if items != [] {
      var inserted := InsertItem(db, c, items[0].name, items[0].description).value;
      TagAllAdvances(inserted, inserted.lastItem, items[0].tags);
      AddItemsAdvances(AddItem(db, c, items[0]).value, c, items[1..]);
    }
  }

  lemma {:induction false} AddContainersAdvances(db: Tables, cs: seq<DocContainer>)
    requires AddContainers(db, cs).Ok?
    ensures Advances(db, AddContainers(db, cs).value)
    decreases |cs|
  {
    if cs != [] {
      var inserted := InsertContainer(db, PosOf(cs[0])).value;
      AddItemsAdvances(inserted, inserted.lastContainer, cs[0].items);
      AddContainersAdvances(AddContainer(db, cs[0]).value, cs[1..]);
    }
  }

  lemma ResizeAdvances(db: Tables, rows: int, cols: int)
    requires WellFormed(db)
    ensures Advances(db, Resize.ResizeShelf(db, rows, cols))
  {
    Resize.ResizeMeans(db, rows, cols);
    if !Resize.Blocked(db, rows, cols) {
      Resize.ShrunkMeans(db, rows, cols);
      Resize.FillGridMeans(Resize.Shrunk(db, rows, cols), 1, rows, cols);
    }
  }

  lemma StepAdvances(db: Tables, cmd: Command)
    requires WellFormed(db)
    ensures Advances(db, Step(db, cmd))
  {
    match cmd
    case CreateItem(c, name, description, tags) =>
      if Outcome(db, cmd).Ok? {
        var inserted := InsertItem(db, c, name, description).value;
        TagAllAdvances(inserted, inserted.lastItem, tags);
      }
    case ResizeShelf(rows, cols) => ResizeAdvances(db, rows, cols);
    case ImportAll(doc) =>
      if Outcome(db, cmd).Ok? {
        AddContainersAdvances(Cleared(db, doc), doc.containers);
      }
    case AddTag(i, name) => assert Advances(db, InsertTagOrIgnore(db, name));
    case _ =>
  }

  /** No id is ever handed out twice: a row that is gone never comes back under its id. */
  lemma {:induction false} RunNeverReusesIds(db: Tables, cmds: seq<Command>)
    requires WellFormed(db)
    ensures Advances(db, Run(db, cmds))
    decreases |cmds|
  {
    hide WellFormed, Step;
    if cmds != [] {
      StepKeepsSchema(db, cmds[0]);
      StepAdvances(db, cmds[0]);
      RunNeverReusesIds(Step(db, cmds[0]), cmds[1..]);
    }
  }

  // ---------- the grid ----------

  /** The containers of the document are exactly the cells of its grid. An import does not check this. */
  ghost predicate FillsOwnGrid(doc: Document) {
    forall pos :: HasPosition(doc.containers, pos) <==> 1 <= pos.col <= doc.cols && 1 <= pos.row <= doc.rows
  }

  /** An import leaves a full grid exactly when its document fills its own. */
  lemma ImportFillsGridIff(db: Tables, doc: Document)
    requires Import(db, doc).Ok?
    ensures Resize.FullGrid(Import(db, doc).value) <==> FillsOwnGrid(doc)
  {
    hide WellFormed, DocsExtended, SizesExtended, Occupied, HasPosition, Fits;
    ClearedIsEmpty(db, doc);
    AddContainersMeans(Cleared(db, doc), doc.containers);
  }

  lemma StepKeepsGrid(db: Tables, cmd: Command)
    requires WellFormed(db) && Resize.FullGrid(db)
    requires cmd.ImportAll? && Acceptable(cmd.doc) ==> FillsOwnGrid(cmd.doc)
    ensures Resize.FullGrid(Step(db, cmd))
  {
    hide FillsOwnGrid, Acceptable, WellFormed;
    if cmd.ResizeShelf? {
      Resize.ResizeMeans(db, cmd.rows, cmd.cols);
      if !Resize.Blocked(db, cmd.rows, cmd.cols) {
        PositiveCoordinates(db);
        Resize.ResizeFillsGridIff(db, cmd.rows, cmd.cols);
      }
    } else if cmd.ImportAll? {
      ImportSucceedsIff(db, cmd.doc);
      if Import(db, cmd.doc).Ok? {
        ImportFillsGridIff(db, cmd.doc);
      }
    } else {
      StepKeepsContainers(db, cmd);
      SameGrid(db, Step(db, cmd));
    }
  }

  lemma PositiveCoordinates(db: Tables)
    requires Resize.FullGrid(db)
    ensures forall c :: c in db.containers ==> db.containers[c].col >= 1 && db.containers[c].row >= 1
  {
    forall c | c in db.containers
      ensures db.containers[c].col >= 1 && db.containers[c].row >= 1
    {
      assert Occupied(db, db.containers[c]);
    }
  }

  lemma SameGrid(a: Tables, b: Tables)
    requires Resize.FullGrid(a) && b.containers == a.containers && b.rows == a.rows && b.cols == a.cols
    ensures Resize.FullGrid(b)
  {
  }

  lemma StepKeepsContainers(db: Tables, cmd: Command)
    requires WellFormed(db) && !cmd.ImportAll? && !cmd.ResizeShelf?
    ensures var b := Step(db, cmd); b.containers == db.containers && b.rows == db.rows && b.cols == db.cols
  {
    match cmd
    case CreateItem(c, name, description, tags) => Operations.CreateItemMeans(db, c, name, description, tags);
    case _ =>
  }

  /** As long as imported documents fill their own grid, the containers always form exactly the grid that the shelf announces. */
  lemma {:induction false} RunKeepsGrid(db: Tables, cmds: seq<Command>)
    requires WellFormed(db) && Resize.FullGrid(db)
    requires forall k :: 0 <= k < |cmds| ==> cmds[k].ImportAll? && Acceptable(cmds[k].doc) ==> FillsOwnGrid(cmds[k].doc)
    ensures Resize.FullGrid(Run(db, cmds))
    decreases |cmds|
  {
    hide WellFormed, Step, Resize.FullGrid, FillsOwnGrid, Acceptable;
    if cmds != [] {
      StepKeepsSchema(db, cmds[0]);
      StepKeepsGrid(db, cmds[0]);
      RunKeepsGrid(Step(db, cmds[0]), cmds[1..]);
    }
  }

  /** The simplest import that does not: a 1 by 1 shelf without its container. */
  lemma ImportCanBreakGrid(db: Tables)
    ensures var doc := Document(1, "empty", 1, 1, []); Acceptable(doc) && Import(db, doc).Ok? && !Resize.FullGrid(Import(db, doc).value)
  {
    var b := Import(db, Document(1, "empty", 1, 1, [])).value;
    assert !Occupied(b, Pos(1, 1));
  }
}
