/** The request handlers that validate, look up and decide before they call the store. */
module Requests {
  import opened Wrappers
  import opened Sequences
  import opened Text
  import opened Schema
  import opened Documents
  import opened TagListing
  import Operations
  import S = Store

  // ---------- creating an item ----------

  class CreateItemRequest {
    var name: string
    var description: Option<string>
    var containerId: int
    var tags: seq<string>

    constructor (name: string, description: Option<string>, containerId: int, tags: seq<string>)
      ensures this.name == name && this.description == description && this.containerId == containerId && this.tags == tags
    {
      this.name, this.description, this.containerId, this.tags := name, description, containerId, tags;
    }
  }

  function NormalTag(t: string): string {
    Lower(TrimSpace(t))
  }

  function NormalTags(ts: seq<string>): (r: seq<string>)
    ensures |r| == |ts|
    ensures forall k :: 0 <= k < |ts| ==> r[k] == NormalTag(ts[k])
  {
    Map(NormalTag, ts)
  }

  /** What the validation accepts. */
  predicate Valid(name: string, description: Option<string>, containerId: int, tags: seq<string>) {
    && 1 <= |TrimSpace(name)| <= 200
    && containerId > 0
    && 1 <= |tags| <= 20
    && (forall k :: 0 <= k < |tags| ==> 1 <= |NormalTag(tags[k])| <= 50)
    && (description.Some? ==> |description.value| <= 1000)
  }

  /** The complaint about the first tag that is blank or too long. */
  function TagProblem(tags: seq<string>): string {
    if tags == [] then ""
    else if NormalTag(tags[0]) == "" then "tag must not be empty"
    else if |NormalTag(tags[0])| > 50 then "tag must be at most 50 characters"
    else TagProblem(tags[1..])
  }

  /** The complaint that is reported when there are several: name, container, number of tags, tags, description. */
  function FirstProblem(name: string, description: Option<string>, containerId: int, tags: seq<string>): string {
    if TrimSpace(name) == "" then "name is required"
    else if |TrimSpace(name)| > 200 then "name must be at most 200 characters"
    else if containerId <= 0 then "container_id is required"
    else if tags == [] then "at least one tag is required"
    else if |tags| > 20 then "at most 20 tags allowed"
    else if TagProblem(tags) != "" then TagProblem(tags)
    else if description.Some? && |description.value| > 1000 then "description must be at most 1000 characters"
    else ""
  }

  lemma {:induction false} TagProblemMeans(tags: seq<string>)
    ensures TagProblem(tags) == "" <==> forall k :: 0 <= k < |tags| ==> 1 <= |NormalTag(tags[k])| <= 50
  {
    hide NormalTag;
    if tags != [] {
      TagProblemMeans(tags[1..]);
      assert forall k :: 0 < k < |tags| ==> tags[1..][k - 1] == tags[k];
      assert forall k :: 0 <= k < |tags[1..]| ==> tags[1..][k] == tags[k + 1];
    }
  }

  /** There is nothing to complain about exactly when the request is within all limits. */
  lemma FirstProblemMeans(name: string, description: Option<string>, containerId: int, tags: seq<string>)
    ensures FirstProblem(name, description, containerId, tags) == "" <==> Valid(name, description, containerId, tags)
  {
    hide NormalTag, TrimSpace;
    TagProblemMeans(tags);
  }

  /** Which complaint comes when. */
  lemma ProblemsMean(name: string, description: Option<string>, containerId: int, tags: seq<string>)
    ensures var p, n := FirstProblem(name, description, containerId, tags), |TrimSpace(name)|;
            && (n == 0 ==> p == "name is required")
            && (n > 200 ==> p == "name must be at most 200 characters")
            && (1 <= n <= 200 && containerId <= 0 ==> p == "container_id is required")
            && (1 <= n <= 200 && containerId > 0 && |tags| == 0 ==> p == "at least one tag is required")
            && (1 <= n <= 200 && containerId > 0 && |tags| > 20 ==> p == "at most 20 tags allowed")
            && (1 <= n <= 200 && containerId > 0 && 1 <= |tags| <= 20 && TagProblem(tags) != "" ==> p == TagProblem(tags))
            && (1 <= n <= 200 && containerId > 0 && 1 <= |tags| <= 20 && TagProblem(tags) == "" ==>
                  description.Some? && |description.value| > 1000 ==> p == "description must be at most 1000 characters")
  {
    hide TrimSpace, NormalTag, TagProblem;
  }

  /** The complaint about the tags is about the first bad one. */
  lemma {:induction false} TagProblemTexts(tags: seq<string>)
    ensures forall k :: 0 <= k < |tags| && (forall j :: 0 <= j < k ==> 1 <= |NormalTag(tags[j])| <= 50) ==>
              && (NormalTag(tags[k]) == "" ==> TagProblem(tags) == "tag must not be empty")
              && (|NormalTag(tags[k])| > 50 ==> TagProblem(tags) == "tag must be at most 50 characters")
  {
    hide NormalTag;
    if tags != [] {
      TagProblemTexts(tags[1..]);
      forall k | 0 <= k < |tags| && (forall j :: 0 <= j < k ==> 1 <= |NormalTag(tags[j])| <= 50)
        ensures NormalTag(tags[k]) == "" ==> TagProblem(tags) == "tag must not be empty"
        ensures |NormalTag(tags[k])| > 50 ==> TagProblem(tags) == "tag must be at most 50 characters"
      {
        GoodTagsBefore(tags, k);
        FirstTag(tags[k..]);
      }
    }
  }

  lemma {:induction false} GoodTagsBefore(tags: seq<string>, k: nat)
    requires k <= |tags| && forall j :: 0 <= j < k ==> 1 <= |NormalTag(tags[j])| <= 50
    ensures TagProblem(tags) == TagProblem(tags[k..])
  {
    hide NormalTag;
    if k > 0 {
      GoodTagsBefore(tags[1..], k - 1);
      assert tags[1..][k - 1..] == tags[k..];
    } else {
      assert tags[0..] == tags;
    }
  }

  /** The loop that rewrites the tags in place and stops at the first bad one. */
  method NormalizeTags(req: CreateItemRequest) returns (problem: string)
    modifies req`tags
    ensures problem == TagProblem(old(req.tags))
    ensures problem == "" ==> req.tags == NormalTags(old(req.tags))
  {
    hide NormalTag, TagProblem;
    ghost var given := req.tags;
    for k := 0 to |req.tags|
      invariant |req.tags| == |given|
      invariant forall j :: 0 <= j < k ==> req.tags[j] == NormalTag(given[j]) && 1 <= |req.tags[j]| <= 50
      invariant forall j :: k <= j < |req.tags| ==> req.tags[j] == given[j]
    {
      GoodTagsBefore(given, k);
      FirstTag(given[k..]);
      var t := NormalTag(req.tags[k]);
      if t == "" {
        return "tag must not be empty";
      }
      if |t| > 50 {
        return "tag must be at most 50 characters";
      }
      req.tags := req.tags[k := t];
    }
    assert req.tags == NormalTags(given);
    TagProblemMeans(given);
    return "";
  }

  lemma FirstTag(tags: seq<string>)
    requires tags != []
    ensures NormalTag(tags[0]) == "" ==> TagProblem(tags) == "tag must not be empty"
    ensures |NormalTag(tags[0])| > 50 ==> TagProblem(tags) == "tag must be at most 50 characters"
  {
    hide NormalTag;
  }

  method ValidateCreateItem(req: CreateItemRequest) returns (problem: string)
    modifies req
    ensures problem == FirstProblem(old(req.name), old(req.description), old(req.containerId), old(req.tags))
    ensures problem == "" <==> Valid(old(req.name), old(req.description), old(req.containerId), old(req.tags))
    ensures req.description == old(req.description) && req.containerId == old(req.containerId)
    ensures req.name == TrimSpace(old(req.name))
    ensures problem == "" ==> req.tags == FirstOccurrences(NormalTags(old(req.tags)))
  {
    hide TrimSpace, NormalTags, TagProblem, FirstOccurrences, Valid;
    FirstProblemMeans(req.name, req.description, req.containerId, req.tags);
    req.name := TrimSpace(req.name);
    if req.name == "" {
      return "name is required";
    }
    if |req.name| > 200 {
      return "name must be at most 200 characters";
    }
    if req.containerId <= 0 {
      return "container_id is required";
    }
    if |req.tags| == 0 {
      return "at least one tag is required";
    }
    if |req.tags| > 20 {
      return "at most 20 tags allowed";
    }
    problem := NormalizeTags(req);
    if problem != "" {
      return;
    }
    req.tags := Dedup(req.tags);
    if req.description.Some? && |req.description.value| > 1000 {
      return "description must be at most 1000 characters";
    }
    return "";
  }

  datatype CreateReply = Created(id: int) | BadRequest(problem: string) | ContainerMissing | CreateFailed

  lemma AddedRow(db: Tables, c: int, item: DocItem)
    ensures forall b :: ItemAdded(db, b, c, item) ==>
              && b.lastItem == db.lastItem + 1 && b.items == db.items[b.lastItem := Item(c, item.name, item.description)]
              && TagNames(b, b.lastItem) == Elements(item.tags)
  {
  }

  lemma NormalTagSet(tags: seq<string>)
    ensures Elements(FirstOccurrences(NormalTags(tags))) == set k | 0 <= k < |tags| :: NormalTag(tags[k])
  {
    hide NormalTag;
    var normal := NormalTags(tags);
    assert forall k :: 0 <= k < |tags| ==> normal[k] in Elements(normal);
  }

  /** A tag as it is stored: no white space around it, no capitals, the same but for case. */
  lemma NormalTagMeans(t: string, n: string)
    ensures n == NormalTag(t) <==>
              !HasCapital(n) && exists core :: IsCore(IsWhite, t, core) && SameButCase(n, core)
  {
    hide TrimSpace, Lower, IsCore, HasCapital, SameButCase;
    TrimSpaceMeans(t, TrimSpace(t));
    IsLowerOf(n, TrimSpace(t));
    if core :| IsCore(IsWhite, t, core) && SameButCase(n, core) {
      TrimSpaceMeans(t, core);
    }
  }

  /** A request that passes validation is created or its container does not exist; nothing else can go wrong. */
  method HandleCreateItem(store: S.Store, req: CreateItemRequest) returns (reply: CreateReply)
    requires store.Valid()
    modifies store, req
    ensures store.Valid()
    ensures var ok := Valid(old(req.name), old(req.description), old(req.containerId), old(req.tags));
            && (reply.BadRequest? <==> !ok)
            && (reply == ContainerMissing <==> ok && old(req.containerId) !in old(store.db).containers)
            && reply != CreateFailed
    ensures reply.Created? ==>
              ItemAdded(old(store.db), store.db, old(req.containerId),
                        DocItem(TrimSpace(old(req.name)), old(req.description), FirstOccurrences(NormalTags(old(req.tags)))))
    ensures reply.Created? ==>
              && reply.id == old(store.db).lastItem + 1
              && store.db.items == old(store.db).items[reply.id := Item(old(req.containerId), TrimSpace(old(req.name)), old(req.description))]
              && TagNames(store.db, reply.id) == set k | 0 <= k < |old(req.tags)| :: NormalTag(old(req.tags)[k])
    ensures reply.BadRequest? ==>
              reply.problem == FirstProblem(old(req.name), old(req.description), old(req.containerId), old(req.tags))
    ensures !reply.Created? ==> store.db == old(store.db)
  {
    hide Valid, TrimSpace, ItemAdded, FirstProblem, NormalTag, FirstOccurrences;
    var problem := ValidateCreateItem(req);
    if problem != "" {
      return BadRequest(problem);
    }
    Operations.CreateItemMeans(store.db, req.containerId, req.name, req.description, req.tags);
    AddedRow(store.db, req.containerId, DocItem(req.name, req.description, req.tags));
    NormalTagSet(old(req.tags));
    var r := store.CreateItem(req.containerId, req.name, req.description, req.tags);
    match r {
      case Ok(id) => reply := Created(id);
      case Refused(why) => reply := if why == ContainerNotFound then ContainerMissing else CreateFailed;
    }
  }

  // ---------- renaming or merging a tag ----------

  method FindTagByName(store: S.Store, name: string) returns (tag: Option<TagRow>)
    requires store.Valid()
    ensures tag.Some? <==> name in AllNames(store.db)
    ensures tag.Some? ==> tag.value.name == name && tag.value.id in store.db.tags && tag.value == TagRowOf(store.db, tag.value.id)
    ensures tag.Some? ==> TellsTag(store.db, tag.value)
  {
    hide ListTags, TagRowOf, WellFormed, TellsTag;
    var tags := ListTags(store.db, name);
    NamedTagListed(store.db, name);
    for k := 0 to |tags|
      invariant forall j :: 0 <= j < k ==> tags[j].name != name
    {
      if tags[k].name == name {
        ListedTag(store.db, name, tags[k]);
        return Some(tags[k]);
      }
    }
    return None;
  }

  lemma ListedTag(db: Tables, prefix: string, row: TagRow)
    requires row in ListTags(db, prefix)
    ensures row.id in db.tags && row == TagRowOf(db, row.id) && db.tags[row.id] == row.name && row.name in AllNames(db)
    ensures TellsTag(db, row)
  {
    ListedRows(db, prefix, row);
    TagRowTells(db, row.id);
  }

  lemma NamedTagListed(db: Tables, name: string)
    ensures name in AllNames(db) <==> exists k :: 0 <= k < |ListTags(db, name)| && ListTags(db, name)[k].name == name
  {
    hide ListTags;
    var tags := ListTags(db, name);
    if name in AllNames(db) {
      var t :| t in db.tags && db.tags[t] == name;
      ExactNameListed(db, t);
      var k :| 0 <= k < |tags| && tags[k] == TagRowOf(db, t);
    }
    if k :| 0 <= k < |tags| && tags[k].name == name {
      ListedTag(db, name, tags[k]);
    }
  }

  lemma TagWithIdListed(db: Tables, id: int)
    ensures id in db.tags <==> exists k :: 0 <= k < |ListTags(db, "")| && ListTags(db, "")[k].id == id
  {
    hide ListTags;
    var tags := ListTags(db, "");
    if id in db.tags {
      ExactNameListed(db, id);
      var k :| 0 <= k < |tags| && tags[k] == TagRowOf(db, id);
    }
    if k :| 0 <= k < |tags| && tags[k].id == id {
      ListedTag(db, "", tags[k]);
    }
  }

  method FindTagById(store: S.Store, id: int) returns (tag: Option<TagRow>)
    requires store.Valid()
    ensures tag.Some? <==> id in store.db.tags
    ensures tag.Some? ==> tag.value.id == id && tag.value == TagRowOf(store.db, id) && TellsTag(store.db, tag.value)
  {
    hide ListTags, TagRowOf, WellFormed, TellsTag;
    var tags := ListTags(store.db, "");
    TagWithIdListed(store.db, id);
    for k := 0 to |tags|
      invariant forall j :: 0 <= j < k ==> tags[j].id != id
    {
      if tags[k].id == id {
        ListedTag(store.db, "", tags[k]);
        return Some(tags[k]);
      }
    }
    return None;
  }

  datatype RenameReply =
    | Done
    | BadName(problem: string)
    | TargetNotFound
    | MergeNeeded(target: Option<TagRow>, source: Option<TagRow>)
    | RenameFailed

  /** From `a` to `b` the source row went, its pairs moved to the target, and nothing else changed. */
  ghost predicate Merged(a: Tables, b: Tables, source: int, target: int) {
    && b == a.(tags := a.tags - {source}, links := b.links)
    && (forall l: (int, int) :: l in b.links <==> l.1 != source && (l in a.links || (l.1 == target && (l.0, source) in a.links)))
    && (source != target && source in a.tags && target in a.tags ==> forall i ::
          TagNames(b, i) == if a.tags[source] in TagNames(a, i) then TagNames(a, i) - {a.tags[source]} + {a.tags[target]} else TagNames(a, i))
    && (source == target && source in a.tags ==> forall i :: TagNames(b, i) == TagNames(a, i) - {a.tags[source]})
  }

  lemma MergeMerges(db: Tables, source: int, target: int)
    requires WellFormed(db) && target in db.tags
    ensures var r := Operations.MergeTags(db, source, target);
            && r.Ok? && Merged(db, r.value, source, target)
            && (source !in db.tags ==> r.value == db)
  {
    hide Operations.MergeTags, Operations.Users, TagNames, WellFormed;
    Operations.MergeMeans(db, source, target);
    if source !in db.tags {
      Operations.MergeMissingSource(db, source, target);
    } else if source == target {
      Operations.MergeIntoItselfDeletes(db, source);
    } else {
      Operations.MergeTagsMeans(db, source, target);
    }
  }

  method HandleRenameTag(store: S.Store, tagId: int, rawName: string, forceMerge: bool) returns (reply: RenameReply)
    requires store.Valid()
    modifies store
    ensures store.Valid()
    ensures reply.BadName? <==> !(1 <= |NormalTag(rawName)| <= 50)
    ensures reply == TargetNotFound <==> !reply.BadName? && forceMerge && NormalTag(rawName) !in AllNames(old(store.db))
    ensures reply == RenameFailed <==> !reply.BadName? && !forceMerge && tagId !in old(store.db).tags
    ensures reply.MergeNeeded? <==>
              && !reply.BadName? && !forceMerge && tagId in old(store.db).tags
              && NormalTag(rawName) in AllNames(old(store.db)) && old(store.db).tags[tagId] != NormalTag(rawName)
    ensures reply.MergeNeeded? ==>
              && reply.target.Some? && reply.source.Some? && reply.source.value.id == tagId && TellsTag(old(store.db), reply.source.value)
              && TellsTag(old(store.db), reply.target.value)
              && reply.target.value.name == NormalTag(rawName)
              && reply.target.value.id in old(store.db).tags && reply.target.value.id != tagId
    ensures reply != Done ==> store.db == old(store.db)
    ensures reply == Done && !forceMerge ==>
              tagId in old(store.db).tags && store.db == old(store.db).(tags := old(store.db).tags[tagId := NormalTag(rawName)])
    ensures reply == Done && forceMerge ==>
              && (tagId !in old(store.db).tags ==> store.db == old(store.db))
              && exists t :: t in old(store.db).tags && old(store.db).tags[t] == NormalTag(rawName) && Merged(old(store.db), store.db, tagId, t)
  {
    hide TrimSpace, Lower, Operations.MergeTags, Operations.RenameTag, Operations.Users, Merged;
    var name := Lower(TrimSpace(rawName));
    if name == "" {
      return BadName("tag must not be empty");
    }
    if |name| > 50 {
      return BadName("tag must be at most 50 characters");
    }
    if forceMerge {
      var target := FindTagByName(store, name);
      if target.None? {
        return TargetNotFound;
      }
      MergeMerges(store.db, tagId, target.value.id);
      var merged := store.MergeTags(tagId, target.value.id);
      return if merged.Ok? then Done else RenameFailed;
    }
    Operations.RenameTagMeans(store.db, tagId, name);
    RenameRefusals(store.db, tagId, name);
    RenameRenames(store.db, tagId, name);
    var renamed := store.RenameTag(tagId, name);
    if renamed.Ok? {
      return Done;
    }
    if renamed.why == UniqueViolated {
      var target := FindTagByName(store, name);
      var source := FindTagById(store, tagId);
      return MergeNeeded(target, source);
    }
    return RenameFailed;
  }

  lemma RenameRenames(db: Tables, t: int, name: string)
    requires WellFormed(db)
    ensures Operations.RenameTag(db, t, name).Ok? ==>
              t in db.tags && Operations.RenameTag(db, t, name).value == db.(tags := db.tags[t := name])
  {
  }

  lemma RenameRefusals(db: Tables, t: int, name: string)
    requires WellFormed(db)
    ensures Operations.RenameTag(db, t, name) == Refused(TagNotFound) <==> t !in db.tags
    ensures Operations.RenameTag(db, t, name) == Refused(UniqueViolated) <==> t in db.tags && name in AllNames(db) && db.tags[t] != name
    ensures Operations.RenameTag(db, t, name).Ok? || Operations.RenameTag(db, t, name).why in {TagNotFound, UniqueViolated}
  {
  }
}
