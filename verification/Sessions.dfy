/**
 Sessions with a sliding window: what a request is answered, said over the history of events,
 and the bookkeeping map that answers it with lazy deletion and sweeps.
 */
module Sessions {
  import opened Wrappers
  import opened Sequences

  /** A session's data; `lastActivity` is an instant on the server's clock. */
  datatype SessionData = SessionData(username: string, authMethod: string, displayName: string, csrfToken: string,
                                     createdAt: int, lastActivity: int)

  /** A session lives while it was idle for at most (memory) or for less than (Redis) the ttl. */
  datatype Window = Window(ttl: int, closed: bool)

  predicate Live(w: Window, s: SessionData, now: int) {
    var idle := now - s.lastActivity;
    idle < w.ttl || (w.closed && idle == w.ttl)
  }

  lemma DeadStaysDead(w: Window, s: SessionData, now: int, later: int)
    requires !Live(w, s, now) && now <= later
    ensures !Live(w, s, later)
  {
  }

  type Table = map<string, SessionData>

  /**
   Access is what GetUser and GetSession do: a lookup that refreshes the session it finds.
   Peek is a lookup without refresh.
   */
  datatype Event =
    | Create(id: string, data: SessionData, now: int)
    | Access(id: string, now: int)
    | Peek(id: string, now: int)
    | Delete(id: string, now: int)
    | DeleteByMethod(authMethod: string, now: int)
    | List(now: int)
    | Sweep(now: int)

  // ---------- the bookkeeping ----------

  function Lookup(w: Window, m: Table, id: string, now: int): Option<SessionData> {
    if id in m && Live(w, m[id], now) then Some(m[id]) else None
  }

  /** A lookup that meets an expired session deletes it. */
  function AfterGet(w: Window, m: Table, id: string, now: int): Table {
    if id in m && !Live(w, m[id], now) then m - {id} else m
  }

  /** Touch does not look at expiry. */
  function AfterTouch(m: Table, id: string, now: int): Table {
    if id in m then m[id := m[id].(lastActivity := now)] else m
  }

  function AfterAccess(w: Window, m: Table, id: string, now: int): Table {
    if Lookup(w, m, id, now).Some? then AfterTouch(m, id, now) else AfterGet(w, m, id, now)
  }

  function WithMethod(m: Table, authMethod: string): set<string> {
    set id | id in m && m[id].authMethod == authMethod
  }

  function LiveIds(w: Window, m: Table, now: int): set<string> {
    set id | id in m && Live(w, m[id], now)
  }

  function Swept(w: Window, m: Table, now: int): Table {
    map id | id in m && Live(w, m[id], now) :: m[id]
  }

  function Next(w: Window, m: Table, e: Event): Table {
    match e
    case Create(id, data, now) => m[id := data.(lastActivity := now)]
    case Access(id, now) => AfterAccess(w, m, id, now)
    case Peek(id, now) => AfterGet(w, m, id, now)
    case Delete(id, _) => m - {id}
    case DeleteByMethod(authMethod, _) => m - WithMethod(m, authMethod)
    case List(_) => m
    case Sweep(now) => Swept(w, m, now)
  }

  function After(w: Window, h: seq<Event>): Table {
    if h == [] then map[] else Next(w, After(w, h[..|h| - 1]), h[|h| - 1])
  }

  // ---------- the plain definition ----------

  /**
   The session last created under `id` and not deleted since, with the instant of its last
   creation or refresh; a refresh counts only if the session was still alive. Sweeps, lookups
   and the deletion of expired entries play no part.
   */
  function Believed(w: Window, h: seq<Event>, id: string): Option<SessionData> {
    if h == [] then None
    else
      var before := Believed(w, h[..|h| - 1], id);
      match h[|h| - 1]
      case Create(i, data, now) => if i == id then Some(data.(lastActivity := now)) else before
      case Access(i, now) =>
        if i == id && before.Some? && Live(w, before.value, now) then Some(before.value.(lastActivity := now)) else before
      case Delete(i, _) => if i == id then None else before
      case DeleteByMethod(authMethod, _) => if before.Some? && before.value.authMethod == authMethod then None else before
      case _ => before
  }

  /** Created, not deleted since, last creation or refresh recent enough. */
  function Answer(w: Window, h: seq<Event>, id: string, now: int): Option<SessionData> {
    var s := Believed(w, h, id);
    if s.Some? && Live(w, s.value, now) then s else None
  }

  predicate Ordered(h: seq<Event>) {
    forall j, k :: 0 <= j < k < |h| ==> h[j].now <= h[k].now
  }

  /** What is in the table is believed; what is believed but missing has expired. */
  ghost predicate Agree(w: Window, m: Table, h: seq<Event>, id: string, now: int) {
    var s := Believed(w, h, id);
    if id in m then s == Some(m[id]) else s.Some? ==> !Live(w, s.value, now)
  }

  lemma {:induction false} TableAgrees(w: Window, h: seq<Event>, id: string, now: int)
    requires Ordered(h) && forall k :: 0 <= k < |h| ==> h[k].now <= now
    ensures Agree(w, After(w, h), h, id, now)
  {
    if h != [] {
      var before, e := h[..|h| - 1], h[|h| - 1];
      TableAgrees(w, before, id, e.now);
      var s := Believed(w, before, id);
      if s.Some? && !Live(w, s.value, e.now) {
        DeadStaysDead(w, s.value, e.now, now);
      }
    }
  }

  /**
   In every ordered history, with sweeps and lazy deletions anywhere, a lookup and a listing
   answer as the plain definition says.
   */
  lemma AnswersAreRight(w: Window, h: seq<Event>, now: int)
    requires Ordered(h) && forall k :: 0 <= k < |h| ==> h[k].now <= now
    ensures forall id :: Lookup(w, After(w, h), id, now) == Answer(w, h, id, now)
    ensures forall id :: id in LiveIds(w, After(w, h), now) <==> Answer(w, h, id, now).Some?
  {
    forall id
      ensures Lookup(w, After(w, h), id, now) == Answer(w, h, id, now)
    {
      TableAgrees(w, h, id, now);
    }
  }

  predicate IsUpkeep(e: Event) {
    e.Sweep? || e.List? || e.Peek?
  }

  function WithoutUpkeep(h: seq<Event>): seq<Event> {
    if h == [] then []
    else if IsUpkeep(h[|h| - 1]) then WithoutUpkeep(h[..|h| - 1])
    else WithoutUpkeep(h[..|h| - 1]) + [h[|h| - 1]]
  }

  lemma {:induction false} UpkeepIsIgnored(w: Window, h: seq<Event>, id: string)
    ensures Believed(w, WithoutUpkeep(h), id) == Believed(w, h, id)
  {
    if h != [] {
      var before := h[..|h| - 1];
      UpkeepIsIgnored(w, before, id);
      if !IsUpkeep(h[|h| - 1]) {
        var kept := WithoutUpkeep(before) + [h[|h| - 1]];
        assert kept[..|kept| - 1] == WithoutUpkeep(before);
      }
    }
  }

  lemma {:induction false} UpkeepKeepsOrder(h: seq<Event>, now: int)
    requires Ordered(h) && forall k :: 0 <= k < |h| ==> h[k].now <= now
    ensures Ordered(WithoutUpkeep(h)) && forall k :: 0 <= k < |WithoutUpkeep(h)| ==> WithoutUpkeep(h)[k].now <= now
  {
    if h != [] {
      UpkeepKeepsOrder(h[..|h| - 1], h[|h| - 1].now);
    }
  }

  /** Taking every sweep, listing and plain lookup out of a history changes no answer. */
  lemma UpkeepChangesNoAnswer(w: Window, h: seq<Event>, id: string, now: int)
    requires Ordered(h) && forall k :: 0 <= k < |h| ==> h[k].now <= now
    ensures Lookup(w, After(w, h), id, now) == Lookup(w, After(w, WithoutUpkeep(h)), id, now)
  {
    UpkeepKeepsOrder(h, now);
    AnswersAreRight(w, h, now);
    AnswersAreRight(w, WithoutUpkeep(h), now);
    UpkeepIsIgnored(w, h, id);
  }

  /**
   A bare Touch, without the lookup before it, is safe exactly when the entry is missing or
   alive: touching an expired entry revives it, unless a sweep came first.
   */
  lemma TouchNeedsLiveSession(w: Window, m: Table, id: string, now: int)
    requires w.ttl > 0
    ensures (Lookup(w, AfterTouch(m, id, now), id, now) == Lookup(w, AfterTouch(Swept(w, m, now), id, now), id, now)) <==>
              (id !in m || Live(w, m[id], now))
  {
  }

  // ---------- the memory store ----------

  class Session {
    const id: string
    const username: string
    const authMethod: string
    const displayName: string
    const csrfToken: string
    const createdAt: int
    var lastActivity: int

    constructor (id: string, username: string, authMethod: string, displayName: string, csrfToken: string, now: int)
      ensures this.id == id && this.authMethod == authMethod
      ensures Data() == SessionData(username, authMethod, displayName, csrfToken, now, now)
    {
      this.id, this.username, this.authMethod := id, username, authMethod;
      this.displayName, this.csrfToken := displayName, csrfToken;
      this.createdAt, this.lastActivity := now, now;
    }

    function Data(): SessionData
      reads this
    {
      SessionData(username, authMethod, displayName, csrfToken, createdAt, lastActivity)
    }
  }

  class MemoryStore {
    var sessions: map<string, Session>
    const ttl: int

    /** Each session is stored under its own id, so different keys hold different objects. */
    ghost predicate Valid()
      reads this, sessions.Values
    {
      forall id :: id in sessions ==> sessions[id].id == id
    }

    function Data(): (t: Table)
      reads this, sessions.Values
    {
      map id | id in sessions :: sessions[id].Data()
    }

    ghost function W(): Window {
      Window(ttl, true)
    }

    constructor (ttl: int)
      ensures this.ttl == ttl && Valid() && Data() == map[]
    {
      this.ttl := ttl;
      sessions := map[];
    }

    method Create(sess: Session)
      requires Valid()
      modifies this
      ensures Valid()
      ensures sessions == old(sessions)[sess.id := sess]
      ensures Data() == old(Data())[sess.id := sess.Data()]
    {
      sessions := sessions[sess.id := sess];
    }

    method Get(id: string, now: int) returns (sess: Session?)
      requires Valid()
      modifies this
      ensures Valid()
      ensures Data() == AfterGet(W(), old(Data()), id, now)
      ensures sess != null <==> Lookup(W(), old(Data()), id, now).Some?
      ensures sess != null <==> id in old(sessions) && now - old(sessions[id].lastActivity) <= ttl
      ensures sessions == if id in old(sessions) && now - old(sessions[id].lastActivity) > ttl then old(sessions) - {id} else old(sessions)
      ensures sess != null ==> id in sessions && sess == sessions[id] && Some(sess.Data()) == Lookup(W(), old(Data()), id, now)
    {
      if id !in sessions {
        return null;
      }
      sess := sessions[id];
      if now - sess.lastActivity > ttl {
        Delete(id);
        return null;
      }
    }

    method Delete(id: string)
      requires Valid()
      modifies this
      ensures Valid()
      ensures sessions == old(sessions) - {id}
      ensures Data() == old(Data()) - {id}
    {
      sessions := sessions - {id};
    }

    method Touch(id: string, now: int)
      requires Valid()
      modifies sessions.Values
      ensures Valid() && sessions == old(sessions)
      ensures Data() == AfterTouch(old(Data()), id, now)
      ensures forall k :: k in sessions ==> sessions[k].lastActivity == if k == id then now else old(sessions[k].lastActivity)
    {
      if id in sessions {
        sessions[id].lastActivity := now;
      }
    }

    /** Deletes while it walks the map; counts every entry it removes, expired or not. */
    method DeleteByAuthMethod(authMethod: string) returns (count: nat)
      requires Valid()
      modifies this
      ensures Valid()
      ensures Data() == old(Data()) - WithMethod(old(Data()), authMethod)
      ensures count == |WithMethod(old(Data()), authMethod)|
      ensures forall id :: id in sessions <==> id in old(sessions) && old(sessions)[id].authMethod != authMethod
    {
      ghost var gone;
      count, gone := RemoveWithMethod(authMethod);
      forall id ensures id in gone <==> id in WithMethod(old(Data()), authMethod) { }
      assert gone == WithMethod(old(Data()), authMethod);
    }

    /** The deleting loop. */
    method RemoveWithMethod(authMethod: string) returns (count: nat, ghost gone: set<string>)
      modifies this
      ensures sessions == old(sessions) - gone && count == |gone|
      ensures forall id :: id in gone <==> id in old(sessions) && old(sessions)[id].authMethod == authMethod
    {
      count, gone := 0, {};
      ghost var all := sessions;
      var todo := sessions.Keys;
      while todo != {}
        invariant todo <= all.Keys && gone <= all.Keys && todo !! gone
        invariant sessions == all - gone
        invariant count == |gone|
        invariant forall id :: id in all && id !in todo ==> (id in gone <==> all[id].authMethod == authMethod)
        decreases |todo|
      {
        var id :| id in todo;
        todo := todo - {id};
        if sessions[id].authMethod == authMethod {
          sessions := sessions - {id};
          gone := gone + {id};
          count := count + 1;
        }
      }
    }

    method List(now: int) returns (result: seq<Session>)
      requires Valid()
      ensures Distinct(result)
      ensures forall k :: 0 <= k < |result| ==> result[k].id in LiveIds(W(), Data(), now) && sessions[result[k].id] == result[k]
      ensures forall id :: id in LiveIds(W(), Data(), now) ==> sessions[id] in result
      ensures forall id :: id in sessions ==> (sessions[id] in result <==> now - sessions[id].lastActivity <= ttl)
    {
      result := [];
      var todo := sessions.Keys;
      while todo != {}
        invariant todo <= sessions.Keys
        invariant Distinct(result)
        invariant forall k :: 0 <= k < |result| ==>
                    result[k].id in LiveIds(W(), Data(), now) && result[k].id !in todo && sessions[result[k].id] == result[k]
        invariant forall id :: id in LiveIds(W(), Data(), now) && id !in todo ==> sessions[id] in result
        decreases |todo|
      {
        var id :| id in todo;
        todo := todo - {id};
        if now - sessions[id].lastActivity <= ttl {
          result := result + [sessions[id]];
        }
      }
    }

    /** One tick of the background sweep. */
    method Cleanup(now: int)
      requires Valid()
      modifies this
      ensures Valid()
      ensures Data() == Swept(W(), old(Data()), now)
      ensures sessions == map id | id in old(sessions) && now - old(sessions[id].lastActivity) <= ttl :: old(sessions)[id]
    {
      DropExpired(now);
    }

    /** The sweeping loop. */
    method DropExpired(now: int)
      modifies this
      ensures sessions == map id | id in old(sessions) && now - old(sessions)[id].lastActivity <= ttl :: old(sessions)[id]
    {
      ghost var all := sessions;
      var todo := sessions.Keys;
      while todo != {}
        invariant todo <= all.Keys && todo <= sessions.Keys
        invariant forall id :: id in sessions ==> id in all && sessions[id] == all[id]
        invariant forall id :: id in all && id !in todo ==> (id in sessions <==> now - all[id].lastActivity <= ttl)
        decreases |todo|
      {
        var id :| id in todo;
        todo := todo - {id};
        if now - sessions[id].lastActivity > ttl {
          sessions := sessions - {id};
        }
      }
    }
  }

  /** The session manager on top of the memory store: the cookie names the session. */
  class Manager {
    const store: MemoryStore

    constructor (store: MemoryStore)
      ensures this.store == store
    {
      this.store := store;
    }

    method CreateWithMethod(id: string, username: string, authMethod: string, displayName: string, csrfToken: string, now: int)
      requires store.Valid()
      modifies store
      ensures store.Valid()
      ensures var data := SessionData(username, authMethod, displayName, csrfToken, now, now);
              store.Data() == Next(store.W(), old(store.Data()), Create(id, data, now))
    {
      var sess := new Session(id, username, authMethod, displayName, csrfToken, now);
      store.Create(sess);
    }

    /** GetSession, and GetUser which returns its user name: look up, then refresh what was found. */
    method GetSession(cookie: Option<string>, now: int) returns (sess: Session?)
      requires store.Valid()
      modifies store, store.sessions.Values
      ensures store.Valid()
      ensures cookie.None? ==> sess == null && store.Data() == old(store.Data())
      ensures cookie.Some? ==>
                && store.Data() == Next(store.W(), old(store.Data()), Access(cookie.value, now))
                && (sess != null <==> Lookup(store.W(), old(store.Data()), cookie.value, now).Some?)
                && (sess != null ==> Some(sess.Data().(lastActivity := old(store.Data())[cookie.value].lastActivity))
                                       == Lookup(store.W(), old(store.Data()), cookie.value, now))
      ensures sess != null <==>
                cookie.Some? && cookie.value in old(store.sessions) && now - old(store.sessions[cookie.value].lastActivity) <= store.ttl
      ensures sess != null ==> sess == old(store.sessions)[cookie.value] && sess.lastActivity == now
    {
      if cookie.None? {
        return null;
      }
      sess := store.Get(cookie.value, now);
      if sess == null {
        return null;
      }
      store.Touch(cookie.value, now);
    }

    method GetCSRFToken(cookie: Option<string>, now: int) returns (token: string)
      requires store.Valid()
      modifies store
      ensures store.Valid()
      ensures cookie.None? ==> store.sessions == old(store.sessions)
      ensures cookie.Some? ==> store.Data() == Next(store.W(), old(store.Data()), Peek(cookie.value, now))
      ensures token == if cookie.Some? && Lookup(store.W(), old(store.Data()), cookie.value, now).Some?
                       then Lookup(store.W(), old(store.Data()), cookie.value, now).value.csrfToken else ""
    {
      if cookie.None? {
        return "";
      }
      var sess := store.Get(cookie.value, now);
      token := if sess == null then "" else sess.csrfToken;
    }
  }

  /** The server performs each event as its step; a new session starts at the instant of its creation. */
  method Perform(manager: Manager, e: Event)
    requires manager.store.Valid() && (e.Create? ==> e.data.createdAt == e.now)
    modifies manager.store, manager.store.sessions.Values
    ensures manager.store.Valid()
    ensures manager.store.Data() == Next(manager.store.W(), old(manager.store.Data()), e)
  {
    match e {
      case Create(id, data, now) =>
        manager.CreateWithMethod(id, data.username, data.authMethod, data.displayName, data.csrfToken, now);
      case Access(id, now) => var _ := manager.GetSession(Some(id), now);
      case Peek(id, now) => var _ := manager.GetCSRFToken(Some(id), now);
      case Delete(id, _) => manager.store.Delete(id);
      case DeleteByMethod(authMethod, _) => var _ := manager.store.DeleteByAuthMethod(authMethod);
      case List(now) => var _ := manager.store.List(now);
      case Sweep(now) => manager.store.Cleanup(now);
    }
  }
}
