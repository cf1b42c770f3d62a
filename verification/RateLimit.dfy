/**
 The per-IP rate limiter: a cache of token buckets from which idle buckets are evicted, against
 a limiter that never forgets a bucket.
 */
module RateLimit {
  import opened Sequences

  /** Tokens per second and bucket size. */
  datatype Params = Params(rate: real, burst: nat) {
    predicate Sensible() {
      rate >= 0.0 && burst >= 1
    }
  }

  const API := Params(5.0, 10)
  const LOGIN := Params(0.5, 5)

  /** Seconds after which an unused bucket may be evicted. */
  const IDLE := 600.0

  datatype Bucket = Bucket(tokens: real, last: real)

  datatype Entry = Entry(bucket: Bucket, lastSeen: real)

  type Cache = map<string, Entry>

  // ---------- the token bucket ----------

  function MinReal(a: real, b: real): real {
    if a <= b then a else b
  }

  /** Tokens in the bucket at `now`, refilled at the rate and capped at the burst. */
  function Available(p: Params, b: Bucket, now: real): real {
    MinReal(p.burst as real, b.tokens + p.rate * (now - b.last))
  }

  function FullBucket(p: Params, now: real): Bucket {
    Bucket(p.burst as real, now)
  }

  /** A request takes one token if there is one; a denied request leaves the bucket as it was. */
  function AfterAllow(p: Params, b: Bucket, now: real): Bucket {
    if Available(p, b, now) >= 1.0 then Bucket(Available(p, b, now) - 1.0, now) else b
  }

  // ---------- the cache ----------

  datatype Event = Request(ip: string, now: real) | Cleanup(now: real)

  function EntryFor(p: Params, c: Cache, ip: string, now: real): Entry {
    if ip in c then c[ip].(lastSeen := now) else Entry(FullBucket(p, now), now)
  }

  function AfterRequest(p: Params, c: Cache, ip: string, now: real): Cache {
    var e := EntryFor(p, c, ip, now);
    c[ip := e.(bucket := AfterAllow(p, e.bucket, now))]
  }

  predicate Allows(p: Params, c: Cache, ip: string, now: real) {
    Available(p, EntryFor(p, c, ip, now).bucket, now) >= 1.0
  }

  function Evicted(c: Cache, now: real): Cache {
    map ip | ip in c && now - c[ip].lastSeen <= IDLE :: c[ip]
  }

  function Next(p: Params, evicting: bool, c: Cache, e: Event): Cache {
    match e
    case Request(ip, now) => AfterRequest(p, c, ip, now)
    case Cleanup(now) => if evicting then Evicted(c, now) else c
  }

  predicate Admits(p: Params, c: Cache, e: Event) {
    e.Request? && Allows(p, c, e.ip, e.now)
  }

  function After(p: Params, evicting: bool, c: Cache, es: seq<Event>): Cache {
    if es == [] then c else Next(p, evicting, After(p, evicting, c, es[..|es| - 1]), es[|es| - 1])
  }

  /** For each event, whether it was a request that was let through. */
  function Decisions(p: Params, evicting: bool, c: Cache, es: seq<Event>): (r: seq<bool>)
    ensures |r| == |es|
  {
    if es == [] then []
    else
      var before := es[..|es| - 1];
      Decisions(p, evicting, c, before) + [Admits(p, After(p, evicting, c, before), es[|es| - 1])]
  }

  predicate Ordered(es: seq<Event>) {
    forall j, k :: 0 <= j < k < |es| ==> es[j].now <= es[k].now
  }

  // ---------- refilling ----------

  /** Tokens that flow into a bucket between two times. */
  function Refill(p: Params, from: real, to: real): real {
    p.rate * (to - from)
  }

  lemma RefillNotNegative(p: Params, from: real, to: real)
    requires p.Sensible() && from <= to
    ensures Refill(p, from, to) >= 0.0
  {
  }

  lemma RefillAdds(p: Params, a: real, b: real, c: real)
    ensures Refill(p, a, c) == Refill(p, a, b) + Refill(p, b, c)
  {
  }

  lemma AvailableIsRefilled(p: Params, b: Bucket, now: real)
    ensures Available(p, b, now) == MinReal(p.burst as real, b.tokens + Refill(p, b.last, now))
  {
  }

  // ---------- eviction cannot be noticed ----------

  lemma AvailableLater(p: Params, b: Bucket, now: real, later: real)
    requires p.rate >= 0.0 && now <= later
    ensures Available(p, b, later) == MinReal(p.burst as real, Available(p, b, now) + p.rate * (later - now))
  {
  }

  ghost predicate Sane(p: Params, c: Cache, now: real) {
    forall ip :: ip in c ==>
      0.0 <= c[ip].bucket.tokens <= p.burst as real && c[ip].bucket.last <= c[ip].lastSeen <= now
  }

  /** The evicting cache `a` against the plain cache `b`: equal stock where both have a bucket, full where `a` forgot it. */
  ghost predicate Mirrors(p: Params, a: Cache, b: Cache, now: real) {
    forall ip ::
      && (ip in a ==> ip in b && Available(p, a[ip].bucket, now) == Available(p, b[ip].bucket, now))
      && (ip !in a && ip in b ==> Available(p, b[ip].bucket, now) == p.burst as real)
  }

  lemma MirrorsLater(p: Params, a: Cache, b: Cache, now: real, later: real)
    requires p.Sensible() && Mirrors(p, a, b, now) && now <= later
    ensures Mirrors(p, a, b, later)
  {
    assert p.rate * (later - now) >= 0.0;
    forall ip
      ensures ip in a ==> ip in b && Available(p, a[ip].bucket, later) == Available(p, b[ip].bucket, later)
      ensures ip !in a && ip in b ==> Available(p, b[ip].bucket, later) == p.burst as real
    {
      if ip in a { AvailableLater(p, a[ip].bucket, now, later); }
      if ip in b { AvailableLater(p, b[ip].bucket, now, later); }
    }
  }

  lemma RequestSane(p: Params, c: Cache, ip: string, now: real, at: real)
    requires p.Sensible() && Sane(p, c, now) && now <= at
    ensures Sane(p, AfterRequest(p, c, ip, at), at)
  {
  }

  lemma RequestMirrors(p: Params, a: Cache, b: Cache, ip: string, now: real)
    requires p.Sensible() && Mirrors(p, a, b, now)
    ensures Allows(p, a, ip, now) == Allows(p, b, ip, now)
    ensures Mirrors(p, AfterRequest(p, a, ip, now), AfterRequest(p, b, ip, now), now)
  {
  }

  lemma FullIsFull(p: Params, now: real)
    ensures Available(p, FullBucket(p, now), now) == p.burst as real
  {
  }

  /** An evicted bucket had filled up, provided the idle time refills a whole bucket. */
  lemma EvictMirrors(p: Params, a: Cache, b: Cache, now: real)
    requires p.Sensible() && p.rate * IDLE >= p.burst as real
    requires Mirrors(p, a, b, now) && Sane(p, a, now)
    ensures Mirrors(p, Evicted(a, now), b, now)
  {
    forall ip | ip in a && ip !in Evicted(a, now)
      ensures Available(p, a[ip].bucket, now) == p.burst as real
    {
      IdleRefills(p, a[ip].bucket, now);
    }
  }

  lemma IdleRefills(p: Params, b: Bucket, now: real)
    requires p.Sensible() && p.rate * IDLE >= p.burst as real
    requires b.tokens >= 0.0 && now - b.last >= IDLE
    ensures Available(p, b, now) == p.burst as real
  {
    hide Available, Refill;
    AvailableIsRefilled(p, b, now);
    RefillAdds(p, b.last, b.last + IDLE, now);
    RefillNotNegative(p, b.last + IDLE, now);
    IdleRefill(p, b.last);
  }

  lemma IdleRefill(p: Params, last: real)
    ensures Refill(p, last, last + IDLE) == p.rate * IDLE
  {
  }

  lemma {:induction false} RunMirrors(p: Params, es: seq<Event>, now: real)
    requires p.Sensible() && p.rate * IDLE >= p.burst as real
    requires Ordered(es) && forall k :: 0 <= k < |es| ==> es[k].now <= now
    ensures Mirrors(p, After(p, true, map[], es), After(p, false, map[], es), now)
    ensures Sane(p, After(p, true, map[], es), now)
    ensures Decisions(p, true, map[], es) == Decisions(p, false, map[], es)
  {
    hide Available;
    if es != [] {
      var before, e := es[..|es| - 1], es[|es| - 1];
      RunMirrors(p, before, e.now);
      var a, b := After(p, true, map[], before), After(p, false, map[], before);
      match e {
        case Request(ip, at) =>
          RequestMirrors(p, a, b, ip, at);
          RequestSane(p, a, ip, at, at);
        case Cleanup(at) => EvictMirrors(p, a, b, at);
      }
      MirrorsLater(p, Next(p, true, a, e), Next(p, false, b, e), e.now, now);
    }
  }

  // ---------- how many requests get through ----------

  /** Requests of `ip` that were let through. */
  function Admitted(es: seq<Event>, ds: seq<bool>, ip: string): nat
    requires |ds| == |es|
  {
    if es == [] then 0
    else
      var n := |es| - 1;
      Admitted(es[..n], ds[..n], ip) + if es[n].Request? && es[n].ip == ip && ds[n] then 1 else 0
  }

  function Stock(p: Params, c: Cache, ip: string, now: real): real {
    if ip in c then Available(p, c[ip].bucket, now) else p.burst as real
  }

  lemma StockLater(p: Params, c: Cache, ip: string, now: real, later: real)
    requires p.Sensible() && now <= later
    ensures Stock(p, c, ip, later) <= Stock(p, c, ip, now) + Refill(p, now, later)
  {
  }

  lemma StockAfterRequest(p: Params, c: Cache, ip: string, ip': string, now: real)
    requires p.Sensible()
    ensures Stock(p, AfterRequest(p, c, ip', now), ip, now) ==
              Stock(p, c, ip, now) - if ip == ip' && Allows(p, c, ip', now) then 1.0 else 0.0
  {
    FullIsFull(p, now);
  }

  /** What one event adds to the number of requests of `ip` let through. */
  function Taken(p: Params, c: Cache, e: Event, ip: string): nat {
    if Admits(p, c, e) && e.ip == ip then 1 else 0
  }

  lemma AdmittedNext(p: Params, evicting: bool, c: Cache, es: seq<Event>, ip: string)
    requires es != []
    ensures var before, e := es[..|es| - 1], es[|es| - 1];
            Admitted(es, Decisions(p, evicting, c, es), ip) ==
              Admitted(before, Decisions(p, evicting, c, before), ip) + Taken(p, After(p, evicting, c, before), e, ip)
  {
  }

  lemma StockAfterEvent(p: Params, c: Cache, e: Event, ip: string)
    requires p.Sensible()
    ensures Stock(p, Next(p, false, c, e), ip, e.now) == Stock(p, c, ip, e.now) - Taken(p, c, e, ip) as real
  {
    hide Stock, Allows, AfterRequest;
    if e.Request? {
      StockAfterRequest(p, c, ip, e.ip, e.now);
    }
  }

  /** Without eviction: what gets through plus what is left never exceeds the first stock plus the refill. */
  lemma {:induction false} PlainWindow(p: Params, c: Cache, es: seq<Event>, ip: string, from: real, to: real)
    requires p.Sensible() && Ordered(es) && from <= to
    requires forall k :: 0 <= k < |es| ==> from <= es[k].now <= to
    ensures Admitted(es, Decisions(p, false, c, es), ip) as real + Stock(p, After(p, false, c, es), ip, to)
              <= Stock(p, c, ip, from) + Refill(p, from, to)
  {
    hide Stock, Refill, Taken, Next;
    if es == [] {
      StockLater(p, c, ip, from, to);
    } else {
      var before, e := es[..|es| - 1], es[|es| - 1];
      PlainWindow(p, c, before, ip, from, e.now);
      var m := After(p, false, c, before);
      AdmittedNext(p, false, c, es, ip);
      StockAfterEvent(p, m, e, ip);
      StockLater(p, Next(p, false, m, e), ip, e.now, to);
      RefillAdds(p, from, e.now, to);
    }
  }

  lemma {:induction false} StockBounded(p: Params, c: Cache, ip: string, now: real)
    ensures Stock(p, c, ip, now) <= p.burst as real
  {
  }

  lemma AvailableNotNegative(p: Params, b: Bucket, now: real)
    requires p.Sensible() && b.tokens >= 0.0 && b.last <= now
    ensures Available(p, b, now) >= 0.0
  {
    hide Refill;
    RefillNotNegative(p, b.last, now);
    AvailableIsRefilled(p, b, now);
  }

  lemma StockNotNegative(p: Params, c: Cache, ip: string, now: real)
    requires p.Sensible() && Sane(p, c, now)
    ensures Stock(p, c, ip, now) >= 0.0
  {
    if ip in c {
      AvailableNotNegative(p, c[ip].bucket, now);
    }
  }

  lemma {:induction false} RunSane(p: Params, c: Cache, es: seq<Event>, start: real, now: real)
    requires p.Sensible() && Sane(p, c, start) && Ordered(es) && start <= now
    requires forall k :: 0 <= k < |es| ==> start <= es[k].now <= now
    ensures Sane(p, After(p, false, c, es), now)
  {
    if es != [] {
      var before, e := es[..|es| - 1], es[|es| - 1];
      RunSane(p, c, before, start, e.now);
      if e.Request? {
        RequestSane(p, After(p, false, c, before), e.ip, e.now, e.now);
      }
    }
  }

  lemma SplitLast<T>(s: seq<T>, t: seq<T>)
    requires t != []
    ensures (s + t)[..|s + t| - 1] == s + t[..|t| - 1] && (s + t)[|s + t| - 1] == t[|t| - 1]
  {
  }

  lemma {:induction false} AfterSplit(p: Params, evicting: bool, c: Cache, es: seq<Event>, fs: seq<Event>)
    ensures After(p, evicting, c, es + fs) == After(p, evicting, After(p, evicting, c, es), fs)
  {
    hide Next;
    if fs == [] {
      assert es + fs == es;
    } else {
      SplitLast(es, fs);
      AfterSplit(p, evicting, c, es, fs[..|fs| - 1]);
    }
  }

  lemma {:induction false} DecisionsSplit(p: Params, evicting: bool, c: Cache, es: seq<Event>, fs: seq<Event>)
    ensures Decisions(p, evicting, c, es + fs) == Decisions(p, evicting, c, es) + Decisions(p, evicting, After(p, evicting, c, es), fs)
  {
    hide Admits, After;
    if fs == [] {
      assert es + fs == es;
    } else {
      var init := fs[..|fs| - 1];
      SplitLast(es, fs);
      DecisionsSplit(p, evicting, c, es, init);
      AfterSplit(p, evicting, c, es, init);
      ConcatAssociative(Decisions(p, evicting, c, es), Decisions(p, evicting, After(p, evicting, c, es), init),
        [Admits(p, After(p, evicting, After(p, evicting, c, es), init), fs[|fs| - 1])]);
    }
  }

  lemma OrderedParts(es: seq<Event>, fs: seq<Event>)
    requires Ordered(es + fs)
    ensures Ordered(es) && Ordered(fs)
  {
    var all := es + fs;
    assert forall k :: 0 <= k < |es| ==> es[k] == all[k];
    assert forall k :: 0 <= k < |fs| ==> fs[k] == all[|es| + k];
  }

  /**
   In any window of length `to - from` of any run, evictions included, at most burst plus
   rate times length requests of one IP get through.
   */
  lemma WindowBound(p: Params, past: seq<Event>, window: seq<Event>, ip: string, from: real, to: real)
    requires p.Sensible() && p.rate * IDLE >= p.burst as real
    requires Ordered(past + window) && from <= to
    requires forall k :: 0 <= k < |past| ==> past[k].now <= from
    requires forall k :: 0 <= k < |window| ==> from <= window[k].now <= to
    ensures Admitted(window, Decisions(p, true, map[], past + window)[|past|..], ip) as real <= p.burst as real + p.rate * (to - from)
  {
    hide Available, Allows, Stock, After, Decisions, Admitted;
    var all := past + window;
    forall k | 0 <= k < |all| ensures all[k].now <= to { }
    RunMirrors(p, all, to);
    DecisionsSplit(p, false, map[], past, window);
    var c := After(p, false, map[], past);
    assert Decisions(p, true, map[], all)[|past|..] == Decisions(p, false, c, window);
    OrderedParts(past, window);
    PlainWindow(p, c, window, ip, from, to);
    StockBounded(p, c, ip, from);
    WindowLeavesStock(p, past, window, ip, from, to);
  }

  lemma WindowLeavesStock(p: Params, past: seq<Event>, window: seq<Event>, ip: string, from: real, to: real)
    requires p.Sensible() && Ordered(past) && Ordered(window) && from <= to
    requires forall k :: 0 <= k < |past| ==> past[k].now <= from
    requires forall k :: 0 <= k < |window| ==> from <= window[k].now <= to
    ensures Stock(p, After(p, false, After(p, false, map[], past), window), ip, to) >= 0.0
  {
    var start := if past == [] then from else past[0].now;
    RunSane(p, map[], past, start, from);
    RunSane(p, After(p, false, map[], past), window, from, to);
    StockNotNegative(p, After(p, false, After(p, false, map[], past), window), ip, to);
  }

  // ---------- the condition is exact ----------

  function Requests(ip: string, n: nat, at: real): (r: seq<Event>)
    ensures |r| == n && forall k :: 0 <= k < n ==> r[k] == Request(ip, at)
  {
    if n == 0 then [] else Requests(ip, n - 1, at) + [Request(ip, at)]
  }

  /** As many requests at once as there are tokens all get through and empty the bucket by as much. */
  lemma {:induction false} Drain(p: Params, evicting: bool, c: Cache, ip: string, n: nat, at: real)
    requires p.Sensible() && Stock(p, c, ip, at) >= n as real
    ensures Admitted(Requests(ip, n, at), Decisions(p, evicting, c, Requests(ip, n, at)), ip) == n
    ensures Stock(p, After(p, evicting, c, Requests(ip, n, at)), ip, at) == Stock(p, c, ip, at) - n as real
  {
    hide Available, Stock, AfterRequest, Allows;
    if n > 0 {
      Drain(p, evicting, c, ip, n - 1, at);
      var es := Requests(ip, n, at);
      var m := After(p, evicting, c, Requests(ip, n - 1, at));
      assert es[..n - 1] == Requests(ip, n - 1, at);
      AdmittedNext(p, evicting, c, es, ip);
      StockAfterRequest(p, m, ip, ip, at);
      StockAllows(p, m, ip, at);
    }
  }

  lemma StockAllows(p: Params, c: Cache, ip: string, at: real)
    ensures Allows(p, c, ip, at) <==> Stock(p, c, ip, at) >= 1.0
  {
  }

  lemma {:induction false} RequestsSeen(p: Params, evicting: bool, ip: string, n: nat, at: real)
    ensures forall k :: k in After(p, evicting, map[], Requests(ip, n, at)) ==> After(p, evicting, map[], Requests(ip, n, at))[k].lastSeen == at
  {
    if n > 0 {
      RequestsSeen(p, evicting, ip, n - 1, at);
      var es := Requests(ip, n, at);
      assert es[..n - 1] == Requests(ip, n - 1, at) && es[n - 1] == Request(ip, at);
      var before := After(p, evicting, map[], es[..n - 1]);
      assert After(p, evicting, map[], es) == AfterRequest(p, before, ip, at);
      var e := AfterRequest(p, before, ip, at)[ip];
      assert e.lastSeen == at && AfterRequest(p, before, ip, at) == before[ip := e];
    }
  }

  /** A wait just over the idle time that does not refill a bucket, if the idle time itself does not. */
  function ShortWait(p: Params): real
    requires p.Sensible()
  {
    IDLE + (p.burst as real - p.rate * IDLE) / (2.0 * p.rate + 1.0)
  }

  lemma ShortWaitMeans(p: Params)
    requires p.Sensible() && p.rate * IDLE < p.burst as real
    ensures ShortWait(p) > IDLE && p.rate * ShortWait(p) < p.burst as real
  {
    var missing := p.burst as real - p.rate * IDLE;
    var part := 2.0 * p.rate + 1.0;
    var extra := missing / part;
    Parts(missing, part);
    assert missing == (2.0 * p.rate) * extra + 1.0 * extra by { Distributes(2.0 * p.rate, 1.0, extra); }
    Doubles(p.rate, extra);
    ProductNotNegative(p.rate, extra);
    SumDistributes(p.rate, IDLE, extra);
  }

  lemma Parts(whole: real, part: real)
    requires whole > 0.0 && part >= 1.0
    ensures whole / part > 0.0 && part * (whole / part) == whole
  {
    var q := whole / part;
    assert q * part == whole;
    if q <= 0.0 {
      ProductNotNegative(part, -q);
    }
  }

  lemma ProductNotNegative(a: real, b: real)
    requires a >= 0.0 && b >= 0.0
    ensures a * b >= 0.0
  {
  }

  lemma Distributes(a: real, b: real, x: real)
    ensures (a + b) * x == a * x + b * x
  {
  }

  lemma SumDistributes(a: real, x: real, y: real)
    ensures a * (x + y) == a * x + a * y
  {
  }

  lemma Doubles(a: real, x: real)
    ensures (2.0 * a) * x == 2.0 * (a * x)
  {
  }

  /** Drain a bucket, wait, evict, drain again. */
  function Exposing(p: Params): seq<Event>
    requires p.Sensible()
  {
    Requests("ip", p.burst, 0.0) + ([Cleanup(ShortWait(p))] + Requests("ip", p.burst, ShortWait(p)))
  }

  /** The decisions on the second drain. */
  function SecondDrain(p: Params, evicting: bool): seq<bool>
    requires p.Sensible()
  {
    Decisions(p, evicting, map[], Exposing(p))[p.burst + 1..]
  }

  lemma SecondDrainStarts(p: Params, evicting: bool)
    requires p.Sensible()
    ensures var c := After(p, evicting, map[], Requests("ip", p.burst, 0.0));
            SecondDrain(p, evicting) ==
              Decisions(p, evicting, Next(p, evicting, c, Cleanup(ShortWait(p))), Requests("ip", p.burst, ShortWait(p)))
  {
    var first := Requests("ip", p.burst, 0.0);
    var second := Requests("ip", p.burst, ShortWait(p));
    var sweep := [Cleanup(ShortWait(p))];
    var c := After(p, evicting, map[], first);
    DecisionsSplit(p, evicting, map[], first, sweep + second);
    DecisionsSplit(p, evicting, c, sweep, second);
    AfterSplit(p, evicting, c, sweep, second);
    assert sweep[..0] == [];
    assert After(p, evicting, c, []) == c;
    assert After(p, evicting, c, sweep) == Next(p, evicting, c, sweep[0]);
  }

  /** With eviction the second drain gets all its tokens. */
  lemma EvictingRefills(p: Params)
    requires p.Sensible() && p.rate * IDLE < p.burst as real
    ensures Admitted(Requests("ip", p.burst, ShortWait(p)), SecondDrain(p, true), "ip") == p.burst
  {
    hide Decisions, Admitted, Available;
    ShortWaitMeans(p);
    SecondDrainStarts(p, true);
    RequestsSeen(p, true, "ip", p.burst, 0.0);
    var c := After(p, true, map[], Requests("ip", p.burst, 0.0));
    assert Evicted(c, ShortWait(p)) == map[];
    Drain(p, true, map[], "ip", p.burst, ShortWait(p));
  }

  /** The plain limiter after the first drain. */
  function Drained(p: Params): Cache {
    After(p, false, map[], Requests("ip", p.burst, 0.0))
  }

  lemma DrainedStock(p: Params)
    requires p.Sensible() && p.rate * IDLE < p.burst as real
    ensures Stock(p, Drained(p), "ip", ShortWait(p)) < p.burst as real
  {
    hide Available, Decisions, Admitted;
    ShortWaitMeans(p);
    Drain(p, false, map[], "ip", p.burst, 0.0);
    StockLater(p, Drained(p), "ip", 0.0, ShortWait(p));
    assert p.rate * (ShortWait(p) - 0.0) == p.rate * ShortWait(p);
  }

  /** Without eviction it does not. */
  lemma PlainDoesNotRefill(p: Params)
    requires p.Sensible() && p.rate * IDLE < p.burst as real
    ensures Admitted(Requests("ip", p.burst, ShortWait(p)), SecondDrain(p, false), "ip") < p.burst
  {
    hide Decisions, Admitted, Available, After, Stock, Sane;
    var wait := ShortWait(p);
    ShortWaitMeans(p);
    SecondDrainStarts(p, false);
    DrainedStock(p);
    var second := Requests("ip", p.burst, wait);
    WindowLeavesStock(p, Requests("ip", p.burst, 0.0), second, "ip", wait, wait);
    PlainWindow(p, Drained(p), second, "ip", wait, wait);
    assert p.rate * (wait - wait) == 0.0;
  }

  /** Eviction goes unnoticed in every run exactly when the idle time refills a whole bucket. */
  lemma EvictionInvisibleIff(p: Params)
    requires p.Sensible()
    ensures (forall es: seq<Event> :: Ordered(es) ==> Decisions(p, true, map[], es) == Decisions(p, false, map[], es)) <==>
              p.rate * IDLE >= p.burst as real
  {
    if p.rate * IDLE >= p.burst as real {
      forall es: seq<Event> | Ordered(es)
        ensures Decisions(p, true, map[], es) == Decisions(p, false, map[], es)
      {
        RunMirrors(p, es, if es == [] then 0.0 else es[|es| - 1].now);
      }
    } else {
      ShortWaitMeans(p);
      assert Ordered(Exposing(p));
      EvictingRefills(p);
      PlainDoesNotRefill(p);
      assert Decisions(p, true, map[], Exposing(p)) != Decisions(p, false, map[], Exposing(p));
    }
  }

  /** Both limiters of the server meet the condition. */
  lemma ServerLimitersQualify()
    ensures API.Sensible() && API.rate * IDLE >= API.burst as real
    ensures LOGIN.Sensible() && LOGIN.rate * IDLE >= LOGIN.burst as real
  {
  }

  /**
   What the server allows one address in any window, evictions included: 10 requests and 5 a
   second to the API, 5 attempts and one every two seconds to log in.
   */
  lemma ServerBounds(past: seq<Event>, window: seq<Event>, ip: string, from: real, to: real)
    requires Ordered(past + window) && from <= to
    requires forall k :: 0 <= k < |past| ==> past[k].now <= from
    requires forall k :: 0 <= k < |window| ==> from <= window[k].now <= to
    ensures Admitted(window, Decisions(API, true, map[], past + window)[|past|..], ip) as real <= 10.0 + 5.0 * (to - from)
    ensures Admitted(window, Decisions(LOGIN, true, map[], past + window)[|past|..], ip) as real <= 5.0 + 0.5 * (to - from)
  {
    hide Decisions, Admitted;
    ServerLimitersQualify();
    WindowBound(API, past, window, ip, from, to);
    WindowBound(LOGIN, past, window, ip, from, to);
  }

  // ---------- the limiter itself ----------

  /** The token bucket of golang.org/x/time/rate, as far as Allow is concerned. */
  class Limiter {
    const params: Params
    var bucket: Bucket

    constructor (params: Params, now: real)
      ensures this.params == params && bucket == FullBucket(params, now)
    {
      this.params := params;
      bucket := FullBucket(params, now);
    }

    method Allow(now: real) returns (ok: bool)
      modifies this
      ensures ok <==> Available(params, old(bucket), now) >= 1.0
      ensures bucket == AfterAllow(params, old(bucket), now)
      ensures var full, refilled := params.burst as real, old(bucket).tokens + params.rate * (now - old(bucket).last);
              && (ok <==> full >= 1.0 && refilled >= 1.0)
              && (ok ==> bucket.last == now && bucket.tokens == (if full <= refilled then full else refilled) - 1.0)
              && (!ok ==> bucket == old(bucket))
    {
      var tokens := Available(params, bucket, now) - 1.0;
      ok := tokens >= 0.0;
      if ok {
        bucket := Bucket(tokens, now);
      }
    }
  }

  /** Getting a bucket and then asking it is one request to the cache. */
  lemma GetThenAsk(p: Params, c: Cache, ip: string, now: real)
    ensures var got := c[ip := EntryFor(p, c, ip, now)];
            && AfterRequest(p, c, ip, now) == got[ip := got[ip].(bucket := AfterAllow(p, got[ip].bucket, now))]
            && (Allows(p, c, ip, now) <==> Available(p, got[ip].bucket, now) >= 1.0)
  {
  }

  class RateBucket {
    const limiter: Limiter
    var lastSeen: real

    constructor (limiter: Limiter, now: real)
      ensures this.limiter == limiter && lastSeen == now
    {
      this.limiter := limiter;
      lastSeen := now;
    }
  }

  class IpLimiter {
    const params: Params
    var limiters: map<string, RateBucket>

    ghost function Limiters(): set<object>
      reads this
    {
      set ip | ip in limiters :: limiters[ip].limiter
    }

    /** Different IPs never share a bucket or a limiter. */
    ghost predicate Valid()
      reads this
    {
      && (forall ip :: ip in limiters ==> limiters[ip].limiter.params == params)
      && (forall ip, ip' :: ip in limiters && ip' in limiters && ip != ip' ==>
            limiters[ip] != limiters[ip'] && limiters[ip].limiter != limiters[ip'].limiter)
    }

    ghost function Data(): Cache
      reads this, limiters.Values, Limiters()
    {
      map ip | ip in limiters :: Entry(limiters[ip].limiter.bucket, limiters[ip].lastSeen)
    }

    constructor (params: Params)
      ensures this.params == params && Valid() && Data() == map[]
    {
      this.params := params;
      limiters := map[];
    }

    method Get(ip: string, now: real) returns (limiter: Limiter)
      requires Valid()
      modifies this, limiters.Values
      ensures Valid() && ip in limiters && limiter == limiters[ip].limiter
      ensures Data() == old(Data())[ip := EntryFor(params, old(Data()), ip, now)]
      ensures forall k :: k in old(limiters) ==> k in limiters && limiters[k] == old(limiters)[k]
      ensures limiter in old(Limiters()) || fresh(limiter)
    {
      if ip in limiters {
        limiters[ip].lastSeen := now;
        return limiters[ip].limiter;
      }
      limiter := new Limiter(params, now);
      var b := new RateBucket(limiter, now);
      limiters := limiters[ip := b];
    }

    /** Asking one IP's limiter leaves every other bucket alone. */
    method Ask(ip: string, limiter: Limiter, now: real) returns (ok: bool)
      requires Valid() && ip in limiters && limiter == limiters[ip].limiter
      modifies limiter
      ensures Valid()
      ensures ok <==> Available(params, old(Data())[ip].bucket, now) >= 1.0
      ensures Data() == old(Data())[ip := old(Data())[ip].(bucket := AfterAllow(params, old(Data())[ip].bucket, now))]
    {
      hide Available, AfterAllow;
      ok := limiter.Allow(now);
    }

    /** What the middleware does with a request: get the IP's limiter and ask it. */
    method Handle(ip: string, now: real) returns (ok: bool)
      requires Valid()
      modifies this, limiters.Values, Limiters()
      ensures Valid()
      ensures ok <==> Allows(params, old(Data()), ip, now)
      ensures Data() == Next(params, true, old(Data()), Request(ip, now))
    {
      hide Available, AfterAllow, EntryFor, AfterRequest, Allows;
      var limiter := Get(ip, now);
      GetThenAsk(params, old(Data()), ip, now);
      ok := Ask(ip, limiter, now);
    }

    /** One round of the endless cleanup loop. */
    method RunCleanup(now: real)
      requires Valid()
      modifies this
      ensures Valid()
      ensures Data() == Next(params, true, old(Data()), Cleanup(now))
      ensures limiters == map ip | ip in old(limiters) && now - old(limiters)[ip].lastSeen <= 600.0 :: old(limiters)[ip]
    {
      DropIdle(now);
    }

    /** The deleting loop. */
    method DropIdle(now: real)
      modifies this
      ensures limiters == map ip | ip in old(limiters) && now - old(limiters)[ip].lastSeen <= IDLE :: old(limiters)[ip]
    {
      var todo := limiters.Keys;
      ghost var all := limiters;
      while todo != {}
        invariant todo <= all.Keys && todo <= limiters.Keys
        invariant forall ip :: ip in limiters ==> ip in all && limiters[ip] == all[ip]
        invariant forall ip :: ip in all && ip !in todo ==> (ip in limiters <==> now - all[ip].lastSeen <= IDLE)
        decreases |todo|
      {
        var ip :| ip in todo;
        todo := todo - {ip};
        if now - limiters[ip].lastSeen > IDLE {
          limiters := limiters - {ip};
        }
      }
    }
  }
}
