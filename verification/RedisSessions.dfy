/**
 The Redis backend of the session store: keys with deadlines kept by the server, and bulk
 operations that walk the key space with a SCAN cursor.
 */
module RedisSessions {
  import opened Wrappers
  import opened Sessions

  /** A stored value; one that is not a session document decodes to None. */
  datatype Entry = Entry(session: Option<SessionData>, deadline: int)

  const KEY_PREFIX := "session:"

  predicate IsSessionKey(key: string) {
    KEY_PREFIX <= key
  }

  function Key(id: string): string {
    KEY_PREFIX + id
  }

  datatype Reply = Found(data: SessionData) | Missing | Corrupt

  function Flatten(schedule: seq<seq<string>>): seq<string> {
    if schedule == [] then [] else Flatten(schedule[..|schedule| - 1]) + schedule[|schedule| - 1]
  }

  /**
   What a full SCAN promises: every session key that has not expired comes up; keys may repeat,
   and expired ones may or may not be among them.
   */
  predicate Covers(schedule: seq<seq<string>>, kv: map<string, Entry>, now: int) {
    && (forall k :: k in Flatten(schedule) ==> IsSessionKey(k))
    && (forall k :: k in kv && IsSessionKey(k) && now < kv[k].deadline ==> k in Flatten(schedule))
  }

  /** GET returns this at instant `now`. */
  function Read(kv: map<string, Entry>, key: string, now: int): Reply {
    if key !in kv || now >= kv[key].deadline then Missing
    else if kv[key].session.None? then Corrupt
    else Found(kv[key].session.value)
  }

  function Victims(kv: map<string, Entry>, authMethod: string, now: int): set<string> {
    set k | k in kv && IsSessionKey(k) && Read(kv, k, now).Found? && Read(kv, k, now).data.authMethod == authMethod
  }

  /** The sessions that a walk over `keys` collects, one for every time a readable key comes up. */
  function Collected(kv: map<string, Entry>, keys: seq<string>, now: int): seq<SessionData> {
    if keys == [] then []
    else
      var r := Read(kv, keys[|keys| - 1], now);
      Collected(kv, keys[..|keys| - 1], now) + if r.Found? then [r.data] else []
  }

  /** Every session's deadline is its last activity plus the ttl. */
  ghost predicate DeadlinesRight(kv: map<string, Entry>, ttl: int) {
    forall k :: k in kv && IsSessionKey(k) && kv[k].session.Some? ==> kv[k].deadline == kv[k].session.value.lastActivity + ttl
  }

  /** The sessions among the stored values, those past their deadline included. */
  function Decoded(kv: map<string, Entry>): Table {
    map k | k in kv && IsSessionKey(k) && kv[k].session.Some? :: kv[k].session.value
  }

  // ---------- the backend against the plain definition ----------

  /** What one event does to the sessions stored; unlike the memory store nothing here deletes an expired entry. */
  function RedisNext(w: Window, m: Table, e: Event): Table {
    match e
    case Create(id, data, now) => m[id := data.(lastActivity := now)]
    case Access(id, now) => if Lookup(w, m, id, now).Some? then AfterTouch(m, id, now) else m
    case Delete(id, _) => m - {id}
    case DeleteByMethod(authMethod, now) => m - WithMethod(m, authMethod) * LiveIds(w, m, now)
    case _ => m
  }

  /** The server may drop any expired keys at any time. */
  ghost predicate Purged(w: Window, full: Table, left: Table, now: int) {
    && (forall id :: id in left ==> id in full && left[id] == full[id])
    && (forall id :: id in full && Live(w, full[id], now) ==> id in left)
  }

  /** The states a history runs through, with keys dropped by the server after any event. */
  ghost predicate Evolves(w: Window, ms: seq<Table>, h: seq<Event>) {
    && |ms| == |h| + 1 && ms[0] == map[]
    && forall k :: 0 <= k < |h| ==> Purged(w, RedisNext(w, ms[k], h[k]), ms[k + 1], h[k].now)
  }

  lemma EventAnswers(w: Window, m: Table, left: Table, h: seq<Event>, id: string, now: int)
    requires h != [] && h[|h| - 1].now <= now
    requires var before, e := h[..|h| - 1], h[|h| - 1];
             && Purged(w, RedisNext(w, m, e), left, e.now)
             && Lookup(w, m, id, e.now) == Answer(w, before, id, e.now)
             && Lookup(w, m, id, now) == Answer(w, before, id, now)
    ensures Lookup(w, left, id, now) == Answer(w, h, id, now)
  {
    hide Purged;
    var before, e := h[..|h| - 1], h[|h| - 1];
    PurgeIsInvisible(w, RedisNext(w, m, e), left, id, e.now, now);
  }

  lemma PurgeIsInvisible(w: Window, full: Table, left: Table, id: string, at: int, now: int)
    requires Purged(w, full, left, at) && at <= now
    ensures Lookup(w, left, id, now) == Lookup(w, full, id, now)
  {
  }

  /**
   In every ordered history, whatever expired keys the server drops and when, a lookup answers as
   the plain definition says.
   */
  lemma {:induction false} RedisAnswersAreRight(w: Window, ms: seq<Table>, h: seq<Event>, id: string, now: int)
    requires Evolves(w, ms, h) && Ordered(h) && forall k :: 0 <= k < |h| ==> h[k].now <= now
    ensures Lookup(w, ms[|h|], id, now) == Answer(w, h, id, now)
    decreases |h|
  {
    hide Purged, RedisNext, Lookup, Answer;
    if h == [] {
      NothingStored(w, id, now);
    } else {
      var n := |h| - 1;
      var ms', h' := ms[..n + 1], h[..n];
      assert Evolves(w, ms', h');
      RedisAnswersAreRight(w, ms', h', id, h[n].now);
      RedisAnswersAreRight(w, ms', h', id, now);
      EventAnswers(w, ms[n], ms[n + 1], h, id, now);
    }
  }

  lemma NothingStored(w: Window, id: string, now: int)
    ensures Lookup(w, map[], id, now) == Answer(w, [], id, now)
  {
  }

  class RedisStore {
    var kv: map<string, Entry>
    const ttl: int

    ghost predicate Valid()
      reads this
    {
      DeadlinesRight(kv, ttl)
    }

    function Data(): Table
      reads this
    {
      Decoded(kv)
    }

    ghost function W(): Window {
      Window(ttl, false)
    }

    constructor (ttl: int)
      requires ttl > 0
      ensures this.ttl == ttl && kv == map[] && Valid()
    {
      this.ttl := ttl;
      kv := map[];
    }

    method Create(id: string, data: SessionData, now: int)
      requires Valid() && data.lastActivity == now
      modifies this
      ensures Valid()
      ensures kv == old(kv)["session:" + id := Entry(Some(data), now + ttl)]
      ensures Data() == RedisNext(W(), old(Data()), Event.Create(Key(id), data, now))
    {
      kv := kv[Key(id) := Entry(Some(data), now + ttl)];
    }

    method Get(id: string, now: int) returns (r: Reply)
      requires Valid()
      ensures r == Read(kv, Key(id), now)
      ensures forall data :: r == Found(data) <==>
                "session:" + id in kv && now < kv["session:" + id].deadline && kv["session:" + id].session == Some(data)
      ensures forall data :: r == Found(data) <==> Lookup(W(), Data(), Key(id), now) == Some(data)
    {
      r := Read(kv, Key(id), now);
    }

    method Delete(id: string)
      requires Valid()
      modifies this
      ensures Valid()
      ensures kv == old(kv) - {Key(id)} && Data() == old(Data()) - {Key(id)}
    {
      kv := kv - {Key(id)};
    }

    /** The server drops expired keys, some or all of them. */
    method Expire(keys: set<string>, now: int)
      requires Valid()
      modifies this
      ensures Valid()
      ensures Purged(W(), old(Data()), Data(), now)
      ensures forall k :: k in kv <==> k in old(kv) && (k !in keys || now < old(kv)[k].deadline)
      ensures forall k :: k in kv ==> kv[k] == old(kv)[k]
    {
      kv := map k | k in kv && (k !in keys || now < kv[k].deadline) :: kv[k];
    }

    /** Unlike the memory store this one refreshes live sessions only, so it completes an access after a Get. */
    method Touch(id: string, now: int)
      requires Valid()
      modifies this
      ensures Valid()
      ensures var key := "session:" + id;
              kv == if key in old(kv) && now < old(kv)[key].deadline && old(kv)[key].session.Some?
                    then old(kv)[key := Entry(Some(old(kv)[key].session.value.(lastActivity := now)), now + ttl)] else old(kv)
      ensures Data() == RedisNext(W(), old(Data()), Access(Key(id), now))
    {
      var r := Read(kv, Key(id), now);
      if r.Found? {
        kv := kv[Key(id) := Entry(Some(r.data.(lastActivity := now)), now + ttl)];
      }
    }

    /** Removes every session of the method, leaves all else, counts each removed session once. */
    method DeleteByAuthMethod(authMethod: string, schedule: seq<seq<string>>, now: int) returns (count: nat)
      requires Valid() && Covers(schedule, kv, now)
      modifies this
      ensures Valid()
      ensures kv == old(kv) - Victims(old(kv), authMethod, now)
      ensures forall k :: k in old(kv) ==> (k in kv <==>
                !("session:" <= k && now < old(kv)[k].deadline
                  && old(kv)[k].session.Some? && old(kv)[k].session.value.authMethod == authMethod))
      ensures count == |Victims(old(kv), authMethod, now)|
      ensures Data() == RedisNext(W(), old(Data()), DeleteByMethod(authMethod, now))
      ensures forall key, later :: now <= later ==>
                Lookup(W(), Data(), key, later) == Lookup(W(), Next(W(), old(Data()), DeleteByMethod(authMethod, now)), key, later)
    {
      hide Victims, Flatten, Among;
      count := 0;
      ghost var all := kv;
      ghost var victims := Victims(all, authMethod, now);
      ghost var gone := Among(victims, []);
      FlattenNone();
      for b := 0 to |schedule|
        invariant kv == all - gone && count == |gone|
        invariant gone == Among(victims, Flatten(schedule[..b]))
      {
        BatchKeys(schedule, b);
        var inBatch;
        inBatch, gone := DeleteBatch(authMethod, schedule[b], now, all, Flatten(schedule[..b]), gone);
        count := count + inBatch;
        FlattenNext(schedule, b);
      }
      assert schedule[..|schedule|] == schedule;
      AllAmong(all, authMethod, now, schedule);
      VictimsSuffice(all, ttl, authMethod, now);
      VictimsAreLive(all, ttl, authMethod, now);
      VictimsMean(all, authMethod, now);
    }

    /** The walk over one batch of keys. */
    method DeleteBatch(authMethod: string, batch: seq<string>, now: int,
                       ghost all: map<string, Entry>, ghost start: seq<string>, ghost before: set<string>)
      returns (count: nat, ghost gone: set<string>)
      requires kv == all - before && before == Among(Victims(all, authMethod, now), start)
      requires forall k :: k in batch ==> IsSessionKey(k)
      modifies this
      ensures kv == all - gone && count == |gone| - |before|
      ensures gone == Among(Victims(all, authMethod, now), start + batch)
    {
      hide Victims, Read, Among, IsSessionKey;
      ghost var victims := Victims(all, authMethod, now);
      count, gone := 0, before;
      assert start + batch[..0] == start;
      for n := 0 to |batch|
        invariant kv == all - gone && count == |gone| - |before|
        invariant gone == Among(victims, start + batch[..n])
      {
        var key := batch[n];
        ReadAmongLeft(all, authMethod, now, gone, key);
        AmongNext(victims, start, batch, n);
        var r := Read(kv, key, now);
        if r.Found? && r.data.authMethod == authMethod {
          kv := kv - {key};
          OneMoreGone(all, gone, key);
          gone := gone + {key};
          count := count + 1;
        } else {
          NoneGone(victims, start + batch[..n], key);
        }
      }
      assert batch[..|batch|] == batch;
    }

    /** Collects a session each time its key comes up. */
    method List(schedule: seq<seq<string>>, now: int) returns (result: seq<SessionData>)
      requires Valid() && Covers(schedule, kv, now)
      ensures result == Collected(kv, Flatten(schedule), now)
      ensures forall d :: d in result <==> exists key :: Lookup(W(), Data(), key, now) == Some(d)
    {
      hide Flatten, Collected, Read, Lookup;
      NothingCollected(kv, now);
      result := [];
      for b := 0 to |schedule|
        invariant result == Collected(kv, Flatten(schedule[..b]), now)
      {
        ghost var start := Flatten(schedule[..b]);
        assert start + schedule[b][..0] == start;
        for n := 0 to |schedule[b]|
          invariant result == Collected(kv, start + schedule[b][..n], now)
        {
          CollectedNext(kv, start, schedule[b], n, now);
          var r := Read(kv, schedule[b][n], now);
          if r.Found? {
            result := result + [r.data];
          }
        }
        assert schedule[b][..|schedule[b]|] == schedule[b];
        FlattenNext(schedule, b);
      }
      assert schedule[..|schedule|] == schedule;
      assert W() == Window(ttl, false) && Data() == Decoded(kv);
      CollectedAreLive(kv, ttl, schedule, now);
    }
  }

  lemma NothingCollected(kv: map<string, Entry>, now: int)
    ensures Flatten([]) == [] && Collected(kv, [], now) == []
  {
  }

  lemma ReadIsLookup(kv: map<string, Entry>, ttl: int, key: string, now: int, data: SessionData)
    requires DeadlinesRight(kv, ttl) && IsSessionKey(key)
    ensures Read(kv, key, now) == Found(data) <==> Lookup(Window(ttl, false), Decoded(kv), key, now) == Some(data)
  {
  }

  lemma CollectedAreLive(kv: map<string, Entry>, ttl: int, schedule: seq<seq<string>>, now: int)
    requires DeadlinesRight(kv, ttl) && Covers(schedule, kv, now)
    ensures forall d :: d in Collected(kv, Flatten(schedule), now) <==>
              exists key :: Lookup(Window(ttl, false), Decoded(kv), key, now) == Some(d)
  {
    hide Flatten, Collected, IsSessionKey, DeadlinesRight;
    var keys := Flatten(schedule);
    CollectedMeans(kv, keys, now);
    forall d
      ensures d in Collected(kv, keys, now) <==> exists key :: Lookup(Window(ttl, false), Decoded(kv), key, now) == Some(d)
    {
      if k :| k in LiveKeys(kv, keys, now) && Read(kv, k, now).data == d {
        ReadIsLookup(kv, ttl, k, now, d);
      }
      if key :| Lookup(Window(ttl, false), Decoded(kv), key, now) == Some(d) {
        ReadIsLookup(kv, ttl, key, now, d);
        assert key in keys;
      }
    }
  }

  ghost function Among(victims: set<string>, keys: seq<string>): set<string> {
    set k | k in victims && k in keys
  }

  lemma BatchKeys(schedule: seq<seq<string>>, b: nat)
    requires b < |schedule| && forall k :: k in Flatten(schedule) ==> IsSessionKey(k)
    ensures forall k :: k in schedule[b] ==> IsSessionKey(k)
  {
    forall n | 0 <= n < |schedule[b]|
      ensures IsSessionKey(schedule[b][n])
    {
      InFlatten(schedule, b, n);
    }
  }

  lemma FlattenNone()
    ensures Flatten([]) == [] && forall victims :: Among(victims, []) == {}
  {
  }

  lemma AmongNext(victims: set<string>, start: seq<string>, batch: seq<string>, n: nat)
    requires n < |batch|
    ensures Among(victims, start + batch[..n + 1]) ==
              Among(victims, start + batch[..n]) + if batch[n] in victims then {batch[n]} else {}
  {
  }

  lemma OneMoreGone(all: map<string, Entry>, gone: set<string>, key: string)
    requires key !in gone
    ensures (all - gone) - {key} == all - (gone + {key}) && |gone + {key}| == |gone| + 1
  {
  }

  lemma NoneGone(victims: set<string>, keys: seq<string>, key: string)
    requires key !in victims || key in Among(victims, keys)
    ensures Among(victims, keys) + (if key in victims then {key} else {}) == Among(victims, keys)
  {
  }

  /** A key reads as a session of the method exactly if it is a victim that is not yet gone. */
  lemma ReadAmongLeft(all: map<string, Entry>, authMethod: string, now: int, gone: set<string>, key: string)
    requires IsSessionKey(key)
    ensures var r := Read(all - gone, key, now);
            (r.Found? && r.data.authMethod == authMethod) <==> key in Victims(all, authMethod, now) && key !in gone
  {
  }

  lemma AllAmong(all: map<string, Entry>, authMethod: string, now: int, schedule: seq<seq<string>>)
    requires Covers(schedule, all, now)
    ensures Among(Victims(all, authMethod, now), Flatten(schedule)) == Victims(all, authMethod, now)
  {
  }

  lemma FlattenNext(schedule: seq<seq<string>>, b: nat)
    requires b < |schedule|
    ensures Flatten(schedule[..b + 1]) == Flatten(schedule[..b]) + schedule[b]
  {
    var s := schedule[..b + 1];
    assert s[..|s| - 1] == schedule[..b];
  }

  lemma {:induction false} InFlatten(schedule: seq<seq<string>>, b: nat, n: nat)
    requires b < |schedule| && n < |schedule[b]|
    ensures schedule[b][n] in Flatten(schedule)
  {
    if b < |schedule| - 1 {
      InFlatten(schedule[..|schedule| - 1], b, n);
    }
  }

  lemma CollectedNext(kv: map<string, Entry>, start: seq<string>, batch: seq<string>, n: nat, now: int)
    requires n < |batch|
    ensures Collected(kv, start + batch[..n + 1], now) ==
              Collected(kv, start + batch[..n], now) + if Read(kv, batch[n], now).Found? then [Read(kv, batch[n], now).data] else []
  {
    var keys := start + batch[..n + 1];
    assert keys[..|keys| - 1] == start + batch[..n];
    assert keys[|keys| - 1] == batch[n];
  }

  /** The readable keys. */
  ghost function LiveKeys(kv: map<string, Entry>, keys: seq<string>, now: int): set<string> {
    set k | k in keys && Read(kv, k, now).Found?
  }

  lemma LiveKeysNext(kv: map<string, Entry>, init: seq<string>, last: string, now: int)
    ensures LiveKeys(kv, init + [last], now) == LiveKeys(kv, init, now) + if Read(kv, last, now).Found? then {last} else {}
  {
    hide Read;
  }

  lemma {:induction false} CollectedHas(kv: map<string, Entry>, keys: seq<string>, now: int, d: SessionData)
    ensures d in Collected(kv, keys, now) <==> exists k :: k in LiveKeys(kv, keys, now) && Read(kv, k, now).data == d
  {
    hide Read;
    if keys != [] {
      var init, last := keys[..|keys| - 1], keys[|keys| - 1];
      CollectedHas(kv, init, now, d);
      assert keys == init + [last];
      LiveKeysNext(kv, init, last, now);
    }
  }

  /** No readable key comes up twice. */
  ghost predicate ReadOnce(kv: map<string, Entry>, keys: seq<string>, now: int) {
    forall i, j :: 0 <= i < j < |keys| && keys[i] == keys[j] ==> !Read(kv, keys[i], now).Found?
  }

  lemma ReadOnceNext(kv: map<string, Entry>, keys: seq<string>, now: int)
    requires keys != []
    ensures var init, last := keys[..|keys| - 1], keys[|keys| - 1];
            ReadOnce(kv, keys, now) <==> ReadOnce(kv, init, now) && !(last in init && Read(kv, last, now).Found?)
  {
    hide Read;
    var init, last := keys[..|keys| - 1], keys[|keys| - 1];
    if last in init {
      var k :| 0 <= k < |init| && init[k] == last;
      assert keys[k] == keys[|keys| - 1];
    }
  }

  lemma {:induction false} CollectedCount(kv: map<string, Entry>, keys: seq<string>, now: int)
    ensures |LiveKeys(kv, keys, now)| <= |Collected(kv, keys, now)|
    ensures |LiveKeys(kv, keys, now)| == |Collected(kv, keys, now)| <==> ReadOnce(kv, keys, now)
  {
    hide Read, ReadOnce;
    if keys == [] {
      NoKeys(kv, now);
    } else {
      var init, last := keys[..|keys| - 1], keys[|keys| - 1];
      CollectedCount(kv, init, now);
      assert keys == init + [last];
      LiveKeysNext(kv, init, last, now);
      ReadOnceNext(kv, keys, now);
      var live := LiveKeys(kv, init, now);
      assert Read(kv, last, now).Found? && last in init ==> live + {last} == live;
    }
  }

  lemma NoKeys(kv: map<string, Entry>, now: int)
    ensures LiveKeys(kv, [], now) == {} && ReadOnce(kv, [], now)
  {
  }

  /** A listing has the live sessions and no others, and has none twice exactly when no readable key came up twice. */
  lemma CollectedMeans(kv: map<string, Entry>, keys: seq<string>, now: int)
    ensures forall d :: d in Collected(kv, keys, now) <==> exists k :: k in LiveKeys(kv, keys, now) && Read(kv, k, now).data == d
    ensures |LiveKeys(kv, keys, now)| <= |Collected(kv, keys, now)|
    ensures |LiveKeys(kv, keys, now)| == |Collected(kv, keys, now)| <==> ReadOnce(kv, keys, now)
  {
    hide LiveKeys, Read, Collected, ReadOnce;
    forall d { CollectedHas(kv, keys, now, d); }
    CollectedCount(kv, keys, now);
  }

  lemma VictimsMean(kv: map<string, Entry>, authMethod: string, now: int)
    ensures forall k :: k in kv ==> (k in Victims(kv, authMethod, now) <==>
              "session:" <= k && now < kv[k].deadline && kv[k].session.Some? && kv[k].session.value.authMethod == authMethod)
  {
  }

  lemma VictimsAreLive(kv: map<string, Entry>, ttl: int, authMethod: string, now: int)
    requires DeadlinesRight(kv, ttl)
    ensures Decoded(kv - Victims(kv, authMethod, now)) ==
              Decoded(kv) - WithMethod(Decoded(kv), authMethod) * LiveIds(Window(ttl, false), Decoded(kv), now)
  {
    forall k | k in kv && IsSessionKey(k) && kv[k].session.Some?
      ensures k in Victims(kv, authMethod, now) <==>
                k in WithMethod(Decoded(kv), authMethod) * LiveIds(Window(ttl, false), Decoded(kv), now)
    {
    }
  }

  /** Removing the victims answers every later lookup as forgetting all sessions of the method does. */
  lemma VictimsSuffice(kv: map<string, Entry>, ttl: int, authMethod: string, now: int)
    requires DeadlinesRight(kv, ttl)
    ensures var w := Window(ttl, false);
            forall key, later :: now <= later ==>
              Lookup(w, Decoded(kv - Victims(kv, authMethod, now)), key, later) ==
              Lookup(w, Decoded(kv) - WithMethod(Decoded(kv), authMethod), key, later)
  {
  }
}
