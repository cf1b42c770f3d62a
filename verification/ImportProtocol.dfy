/**
 The two-step import: a validated document waits under a random token until it is confirmed or
 five minutes have passed. Handlers run concurrently; the lock makes storing and taking atomic,
 while the expiry test and the import itself come after the lock is released.
 */
module ImportProtocol {
  import opened Wrappers
  import opened Sequences
  import opened Schema
  import opened Documents
  import S = Store

  datatype Pending = Pending(doc: Document, createdAt: int)

  /** pendingImportTTL, in nanoseconds. */
  const TTL := 5 * 60 * 1_000_000_000

  predicate Expired(p: Pending, now: int) {
    now - p.createdAt > TTL
  }

  function Unexpired(pending: map<string, Pending>, now: int): map<string, Pending> {
    map t | t in pending && !Expired(pending[t], now) :: pending[t]
  }

  /** What the validation step checks of a document. */
  predicate PassesChecks(doc: Document) {
    doc.version == 1 && doc.name != "" && doc.rows > 0 && doc.cols > 0
  }

  /** All complaints about the header of a document, in the order of the fields. */
  function Complaints(doc: Document): seq<string> {
    (if doc.version != 1 then ["Unsupported file version."] else []) +
    (if doc.name == "" then ["Missing required field: shelf.name."] else []) +
    (if doc.rows <= 0 then ["Missing required field: shelf.rows."] else []) +
    (if doc.cols <= 0 then ["Missing required field: shelf.cols."] else [])
  }

  datatype Summary = Summary(name: string, rows: int, cols: int, containers: nat, items: nat, tags: nat)

  function SummaryOf(doc: Document): Summary {
    Summary(doc.name, doc.rows, doc.cols, |doc.containers|, ItemCount(doc.containers), |DocTags(doc.containers)|)
  }

  // ---------- the handlers ----------

  datatype ValidateReply = Invalid(errors: seq<string>) | Waiting(token: string, summary: Summary)

  datatype ConfirmReply = MissingToken | SessionExpired | ImportFailed | Imported

  class PendingImports {
    var pending: map<string, Pending>

    constructor ()
      ensures pending == map[]
    {
      pending := map[];
    }

    /** Deletes while it walks the map. */
    method CleanExpired(now: int)
      modifies this
      ensures pending == Unexpired(old(pending), now)
      ensures forall t :: t in pending <==> t in old(pending) && now - old(pending)[t].createdAt <= 300_000_000_000
      ensures forall t :: t in pending ==> pending[t] == old(pending)[t]
    {
      var todo := pending.Keys;
      while todo != {}
        invariant todo <= pending.Keys
        invariant forall t :: t in pending ==> t in old(pending) && pending[t] == old(pending)[t]
        invariant forall t :: t in old(pending) && t !in todo ==> (t in pending <==> !Expired(old(pending)[t], now))
        invariant forall t :: t in todo ==> t in old(pending)
        decreases |todo|
      {
        var token :| token in todo;
        todo := todo - {token};
        if Expired(pending[token], now) {
          pending := pending - {token};
        }
      }
    }

    method HandleValidate(doc: Document, token: string, now: int) returns (reply: ValidateReply)
      modifies this
      ensures reply.Invalid? <==> doc.version != 1 || doc.name == "" || doc.rows <= 0 || doc.cols <= 0
      ensures reply.Invalid? ==> pending == old(pending) && reply.errors == Complaints(doc)
      ensures reply.Waiting? ==>
                && reply == Waiting(token, SummaryOf(doc))
                && pending == Unexpired(old(pending), now)[token := Pending(doc, now)]
      ensures forall s: State :: s.pending == old(pending) ==> Next(s, Event.Validate(token, doc, now)).pending == pending
    {
      var errors: seq<string> := [];
      if doc.version != 1 { errors := errors + ["Unsupported file version."]; }
      if doc.name == "" { errors := errors + ["Missing required field: shelf.name."]; }
      if doc.rows <= 0 { errors := errors + ["Missing required field: shelf.rows."]; }
      if doc.cols <= 0 { errors := errors + ["Missing required field: shelf.cols."]; }
      if |errors| > 0 {
        return Invalid(errors);
      }
      var itemCount, tagSet := Count(doc.containers);
      CleanExpired(now);
      pending := pending[token := Pending(doc, now)];
      reply := Waiting(token, Summary(doc.name, doc.rows, doc.cols, |doc.containers|, itemCount, |tagSet|));
    }

    /** The locked section of a confirmation: the step Take. */
    method Take(token: string) returns (taken: Option<Pending>)
      modifies this
      ensures taken == if token in old(pending) then Some(old(pending)[token]) else None
      ensures pending == old(pending) - {token}
      ensures forall s: State, request :: s.pending == old(pending) ==>
                && Next(s, Event.Take(request, token)).pending == pending
                && Next(s, Event.Take(request, token)).inFlight ==
                   if taken.Some? then s.inFlight[request := Taken(token, taken.value)] else s.inFlight
    {
      taken := None;
      if token in pending {
        taken := Some(pending[token]);
        pending := pending - {token};
      }
    }

    /** What follows without the lock: the step Finish. */
    method Finish(store: S.Store, taken: Pending, now: int) returns (reply: ConfirmReply)
      requires store.Valid()
      modifies store
      ensures store.Valid()
      ensures reply == SessionExpired <==> now - taken.createdAt > 300_000_000_000
      ensures reply == ImportFailed <==> now - taken.createdAt <= 300_000_000_000 && !Acceptable(taken.doc)
      ensures reply == Imported <==> now - taken.createdAt <= 300_000_000_000 && Acceptable(taken.doc)
      ensures reply == Imported ==> Import(old(store.db), taken.doc) == Ok(store.db)
      ensures reply != Imported ==> store.db == old(store.db)
      ensures forall s: State, request :: s.db == old(store.db) && request in s.inFlight && s.inFlight[request].pending == taken ==>
                && Next(s, Event.Finish(request, now)).db == store.db
                && Next(s, Event.Finish(request, now)).pending == s.pending
                && Next(s, Event.Finish(request, now)).log ==
                   if reply == SessionExpired then s.log else s.log + [LogEntry(s.inFlight[request].token, taken.doc, now)]
    {
      hide Import, Acceptable;
      if Expired(taken, now) {
        return SessionExpired;
      }
      ImportSucceedsIff(store.db, taken.doc);
      var r := store.ImportAllData(taken.doc);
      reply := if r.Ok? then Imported else ImportFailed;
    }

    method HandleConfirm(store: S.Store, token: string, now: int) returns (reply: ConfirmReply)
      requires store.Valid()
      modifies this, store
      ensures store.Valid()
      ensures pending == if token == "" then old(pending) else old(pending) - {token}
      ensures reply == MissingToken <==> token == ""
      ensures reply == SessionExpired <==>
                token != "" && (token !in old(pending) || now - old(pending)[token].createdAt > 300_000_000_000)
      ensures reply == ImportFailed <==>
                token != "" && token in old(pending) && now - old(pending)[token].createdAt <= 300_000_000_000 && !Acceptable(old(pending)[token].doc)
      ensures reply == Imported <==>
                token != "" && token in old(pending) && now - old(pending)[token].createdAt <= 300_000_000_000 && Acceptable(old(pending)[token].doc)
      ensures reply == Imported ==> Import(old(store.db), old(pending)[token].doc) == Ok(store.db)
      ensures reply != Imported ==> store.db == old(store.db)
      ensures token != "" ==> forall s: State, request :: s.pending == old(pending) && s.db == old(store.db) && request !in s.inFlight ==>
                && Confirmed(s, request, token, now).pending == pending
                && Confirmed(s, request, token, now).db == store.db
                && (Confirmed(s, request, token, now).log == s.log <==> reply == SessionExpired)
    {
      hide Import, Acceptable, Next;
      if token == "" {
        return MissingToken;
      }
      var taken := Take(token);
      if taken.None? {
        NothingToFinish(token, now);
        return SessionExpired;
      }
      TakenWaits(token, now);
      reply := Finish(store, taken.value, now);
    }
  }

  /** The two steps of a confirmation, one after the other. */
  function Confirmed(s: State, request: int, token: string, now: int): State {
    Next(Next(s, Event.Take(request, token)), Event.Finish(request, now))
  }

  lemma NothingToFinish(token: string, now: int)
    ensures forall s: State, request :: token !in s.pending && request !in s.inFlight ==>
              Confirmed(s, request, token, now).pending == s.pending && Confirmed(s, request, token, now).db == s.db
              && Confirmed(s, request, token, now).log == s.log
  {
  }

  lemma TakenWaits(token: string, now: int)
    ensures forall s: State, request :: token in s.pending ==>
              var n := Next(s, Event.Take(request, token));
              && n.db == s.db && n.log == s.log && request in n.inFlight
              && n.inFlight[request].pending == s.pending[token]
  {
  }

  /** The counting loops of the summary. */
  method Count(cs: seq<DocContainer>) returns (itemCount: nat, tagSet: set<string>)
    ensures itemCount == ItemCount(cs) && tagSet == DocTags(cs)
  {
    itemCount, tagSet := 0, {};
    assert cs[0..] == cs;
    for k := 0 to |cs|
      invariant itemCount + ItemCount(cs[k..]) == ItemCount(cs)
      invariant tagSet + DocTags(cs[k..]) == DocTags(cs)
    {
      assert cs[k..][0] == cs[k] && cs[k..][1..] == cs[k + 1..];
      itemCount := itemCount + |cs[k].items|;
      var inside := CountTags(cs[k].items);
      ghost var before := tagSet;
      tagSet := tagSet + inside;
      UnionAssociative(before, inside, DocTags(cs[k + 1..]));
    }
  }

  method CountTags(items: seq<DocItem>) returns (tagSet: set<string>)
    ensures tagSet == ItemTags(items)
  {
    tagSet := {};
    assert items[0..] == items;
    for k := 0 to |items|
      invariant tagSet + ItemTags(items[k..]) == ItemTags(items)
    {
      assert items[k..][0] == items[k] && items[k..][1..] == items[k + 1..];
      ghost var before := tagSet;
      for n := 0 to |items[k].tags|
        invariant tagSet == before + Elements(items[k].tags[..n])
      {
        assert items[k].tags[..n + 1] == items[k].tags[..n] + [items[k].tags[n]];
        tagSet := tagSet + {items[k].tags[n]};
      }
      assert items[k].tags[..|items[k].tags|] == items[k].tags;
      UnionAssociative(before, Elements(items[k].tags), ItemTags(items[k + 1..]));
    }
  }

  /** After a confirmed import the tables have the sizes that the summary announced. */
  lemma SummaryIsTrue(db: Tables, doc: Document)
    requires Import(db, doc).Ok?
    ensures var b := Import(db, doc).value;
            SummaryOf(doc) == Summary(b.name, b.rows, b.cols, |b.containers|, |b.items|, |b.tags|)
  {
    ImportSizes(db, doc);
    hide WellFormed, ContainerDocs, NormalContainers, Occupied, HasPosition, Fits, AllNames;
    ClearedIsEmpty(db, doc);
    AddContainersMeans(Cleared(db, doc), doc.containers);
  }

  // ---------- concurrent runs ----------

  /**
   What handlers do atomically: a validation stores its document; a confirmation first takes the
   document from the map under the lock and later, at its own time, tests its age and imports.
   */
  datatype Event =
    | Validate(token: string, doc: Document, now: int)
    | Take(request: int, token: string)
    | Finish(request: int, now: int)

  datatype Taken = Taken(token: string, pending: Pending)

  datatype LogEntry = LogEntry(token: string, doc: Document, at: int)

  /** `issued` and `consumed` only record history: every token ever stored, every token ever taken. */
  datatype State = State(
    db: Tables, pending: map<string, Pending>, inFlight: map<int, Taken>, log: seq<LogEntry>,
    clock: int, issued: map<string, Pending>, consumed: set<string>)

  function Next(s: State, e: Event): State {
    match e
    case Validate(token, doc, now) =>
      if !PassesChecks(doc) then s.(clock := now)
      else s.(clock := now, pending := Unexpired(s.pending, now)[token := Pending(doc, now)],
              issued := s.issued[token := Pending(doc, now)])
    case Take(request, token) =>
      if token !in s.pending then s
      else s.(pending := s.pending - {token}, inFlight := s.inFlight[request := Taken(token, s.pending[token])],
              consumed := s.consumed + {token})
    case Finish(request, now) =>
      if request !in s.inFlight then s.(clock := now)
      else
        var t := s.inFlight[request];
        var done := s.(clock := now, inFlight := s.inFlight - {request});
        if Expired(t.pending, now) then done
        else
          var outcome := Import(s.db, t.pending.doc);
          done.(db := if outcome.Ok? then outcome.value else s.db, log := s.log + [LogEntry(t.token, t.pending.doc, now)])
  }

  /** Tokens are fresh, a request number names one handler call, and the clock does not go back. */
  predicate Possible(s: State, e: Event) {
    match e
    case Validate(token, _, now) => token !in s.issued && s.clock <= now
    case Take(request, _) => request !in s.inFlight
    case Finish(_, now) => s.clock <= now
  }

  predicate PossibleRun(s: State, es: seq<Event>)
    decreases |es|
  {
    es == [] || (Possible(s, es[0]) && PossibleRun(Next(s, es[0]), es[1..]))
  }

  function Run(s: State, es: seq<Event>): State
    decreases |es|
  {
    if es == [] then s else Run(Next(s, es[0]), es[1..])
  }

  ghost predicate Start(s: State) {
    && s == State(s.db, map[], map[], [], s.clock, map[], {})
    && WellFormed(s.db)
  }

  /** A logged import is of the document stored at validation, which passed the checks, in time. */
  ghost predicate Justified(s: State, r: LogEntry) {
    && r.token in s.issued
    && r.doc == s.issued[r.token].doc
    && PassesChecks(r.doc)
    && 0 <= r.at - s.issued[r.token].createdAt <= TTL
  }

  ghost predicate LogSound(s: State) {
    && (forall k :: 0 <= k < |s.log| ==> Justified(s, s.log[k]) && s.log[k].token in s.consumed)
    && (forall j, k :: 0 <= j < k < |s.log| ==> s.log[j].token != s.log[k].token)
  }

  ghost predicate FlightSound(s: State) {
    && (forall q :: q in s.inFlight ==>
          && s.inFlight[q].token in s.issued && s.inFlight[q].pending == s.issued[s.inFlight[q].token]
          && s.inFlight[q].token in s.consumed
          && forall k :: 0 <= k < |s.log| ==> s.log[k].token != s.inFlight[q].token)
    && (forall q, q' :: q in s.inFlight && q' in s.inFlight && q != q' ==> s.inFlight[q].token != s.inFlight[q'].token)
  }

  ghost predicate PendingSound(s: State) {
    forall t :: t in s.pending ==> t in s.issued && s.pending[t] == s.issued[t] && t !in s.consumed
  }

  ghost predicate IssuedSound(s: State) {
    && (forall t :: t in s.issued ==> PassesChecks(s.issued[t].doc) && s.issued[t].createdAt <= s.clock)
    && (forall t :: t in s.consumed ==> t in s.issued)
  }

  ghost predicate NothingLost(s: State) {
    forall t :: t in s.issued && t !in s.consumed && !Expired(s.issued[t], s.clock) ==> t in s.pending
  }

  ghost predicate Sound(s: State) {
    LogSound(s) && FlightSound(s) && PendingSound(s) && IssuedSound(s) && NothingLost(s)
  }

  lemma ValidateKeepsLog(s: State, e: Event)
    requires LogSound(s) && FlightSound(s) && Possible(s, e) && e.Validate?
    ensures LogSound(Next(s, e)) && FlightSound(Next(s, e))
  {
  }

  lemma ValidateKeepsPending(s: State, e: Event)
    requires PendingSound(s) && IssuedSound(s) && Possible(s, e) && e.Validate?
    ensures PendingSound(Next(s, e)) && IssuedSound(Next(s, e))
  {
  }

  lemma ValidateLosesNothing(s: State, e: Event)
    requires PendingSound(s) && NothingLost(s) && Possible(s, e) && e.Validate?
    ensures NothingLost(Next(s, e))
  {
  }

  lemma TakeKeeps(s: State, e: Event)
    requires Sound(s) && Possible(s, e) && e.Take?
    ensures Sound(Next(s, e))
  {
  }

  lemma FinishKeepsLog(s: State, e: Event)
    requires LogSound(s) && FlightSound(s) && IssuedSound(s) && Possible(s, e) && e.Finish?
    ensures LogSound(Next(s, e))
  {
  }

  lemma FinishKeepsFlight(s: State, e: Event)
    requires FlightSound(s) && Possible(s, e) && e.Finish?
    ensures FlightSound(Next(s, e))
  {
  }

  lemma FinishKeepsPending(s: State, e: Event)
    requires PendingSound(s) && IssuedSound(s) && NothingLost(s) && Possible(s, e) && e.Finish?
    ensures PendingSound(Next(s, e)) && IssuedSound(Next(s, e)) && NothingLost(Next(s, e))
  {
  }

  lemma StepKeepsSound(s: State, e: Event)
    requires Sound(s) && Possible(s, e)
    ensures Sound(Next(s, e))
  {
    hide LogSound, FlightSound, PendingSound, IssuedSound, NothingLost, Next;
    match e {
      case Validate(_, _, _) =>
        ValidateKeepsLog(s, e);
        ValidateKeepsPending(s, e);
        ValidateLosesNothing(s, e);
      case Take(_, _) =>
        TakeKeeps(s, e);
      case Finish(_, _) =>
        FinishKeepsLog(s, e);
        FinishKeepsFlight(s, e);
        FinishKeepsPending(s, e);
    }
  }

  lemma {:induction false} RunKeepsSound(s: State, es: seq<Event>)
    requires Sound(s) && PossibleRun(s, es)
    ensures Sound(Run(s, es))
    decreases |es|
  {
    hide Sound, Next;
    if es != [] {
      StepKeepsSound(s, es[0]);
      RunKeepsSound(Next(s, es[0]), es[1..]);
    }
  }

  /**
   In every interleaving each token triggers at most one import, of exactly the document stored
   under it, which passed the checks and was at most five minutes old when tested.
   */
  lemma ImportsAreJustified(s: State, es: seq<Event>)
    requires Start(s) && PossibleRun(s, es)
    ensures var n := Run(s, es);
            && (forall k :: 0 <= k < |n.log| ==> Justified(n, n.log[k]))
            && (forall j, k :: 0 <= j < k < |n.log| ==> n.log[j].token != n.log[k].token)
  {
    RunKeepsSound(s, es);
  }

  /** A token that nobody has taken and that is not yet expired is never cleaned away. */
  lemma UnexpiredTokenWaits(s: State, es: seq<Event>, token: string)
    requires Start(s) && PossibleRun(s, es)
    requires var n := Run(s, es); token in n.issued && token !in n.consumed && !Expired(n.issued[token], n.clock)
    ensures var n := Run(s, es); token in n.pending && n.pending[token] == n.issued[token]
  {
    RunKeepsSound(s, es);
  }

  /** The log accounts for the store: it is the start with the logged documents imported in turn. */
  function Replay(db: Tables, log: seq<LogEntry>): Tables {
    if log == [] then db
    else
      var before := Replay(db, log[..|log| - 1]);
      var outcome := Import(before, log[|log| - 1].doc);
      if outcome.Ok? then outcome.value else before
  }

  lemma {:induction false} StoreIsReplay(db: Tables, s: State, es: seq<Event>)
    requires s.db == Replay(db, s.log)
    ensures Run(s, es).db == Replay(db, Run(s, es).log)
    decreases |es|
  {
    hide Import;
    if es != [] {
      var n := Next(s, es[0]);
      if n.log != s.log {
        assert n.log[..|n.log| - 1] == s.log;
      }
      StoreIsReplay(db, n, es[1..]);
    }
  }
}
