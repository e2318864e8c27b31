/**
 The per-client token bucket of the gateway: admission, refill and the background
 sweep of idle buckets.  Token counts and clock readings are reals.
 */
module RateLimiting {

  datatype Limits = Limits(rate: real, burst: int)

  datatype Bucket = Bucket(tokens: real, lastCheck: real)

  type Clients = map<string, Bucket>

  /** Tokens earned between two clock readings, rate * (to - from), multiplied out. */
  function Earned(l: Limits, from: real, to: real): real {
    l.rate * to - l.rate * from
  }

  function MinReal(a: real, b: real): real { if a < b then a else b }

  /** Tokens `ip` could draw on at time `t`: refilled since the last check, capped at
      the burst.  A client without a bucket counts as full. */
  function Level(l: Limits, clients: Clients, ip: string, t: real): (tokens: real)
    ensures tokens <= l.burst as real
  {
    if ip !in clients then l.burst as real else
    var refilled := clients[ip].tokens + Earned(l, clients[ip].lastCheck, t);
    if refilled > l.burst as real then l.burst as real else refilled
  }

  /** A first request is always let in; later ones need a whole token. */
  predicate Grants(l: Limits, clients: Clients, ip: string, t: real) {
    ip !in clients || Level(l, clients, ip, t) >= 1.0
  }

  function AfterRequest(l: Limits, clients: Clients, ip: string, t: real): Clients {
    var taken := if Grants(l, clients, ip, t) then 1.0 else 0.0;
    clients[ip := Bucket(Level(l, clients, ip, t) - taken, t)]
  }

  predicate Idle(b: Bucket, maxAge: real, now: real) {
    b.lastCheck < now - maxAge
  }

  function AfterSweep(clients: Clients, maxAge: real, now: real): Clients {
    map ip | ip in clients && !Idle(clients[ip], maxAge, now) :: clients[ip]
  }

  class RateLimiter {
    var clients: Clients
    const limits: Limits

    constructor (ratePerMinute: int, burst: int)
      ensures clients == map[]
      ensures limits == Limits(ratePerMinute as real / 60.0, burst)
    {
      clients := map[];
      limits := Limits(ratePerMinute as real / 60.0, burst);
    }

    method Allow(ip: string, now: real) returns (ok: bool)
      modifies this
      ensures ok == Grants(limits, old(clients), ip, now)
      ensures clients == AfterRequest(limits, old(clients), ip, now)
      ensures forall other :: other != ip ==> (other in clients <==> other in old(clients))
      ensures forall other :: other != ip && other in clients ==> clients[other] == old(clients)[other]
      ensures ip in clients && clients[ip].lastCheck == now
      ensures ip !in old(clients) ==> ok && clients[ip].tokens == limits.burst as real - 1.0
      ensures ip in old(clients) ==>
                var b := old(clients)[ip];
                var held := MinReal(limits.burst as real, b.tokens + (now - b.lastCheck) * limits.rate);
                (ok <==> held >= 1.0) && clients[ip].tokens == if ok then held - 1.0 else held
    {
      if ip !in clients {
        clients := clients[ip := Bucket(limits.burst as real - 1.0, now)];
        return true;
      }
      var b := clients[ip];
      var elapsed := now - b.lastCheck;
      assert elapsed * limits.rate == Earned(limits, b.lastCheck, now);
      b := b.(tokens := b.tokens + elapsed * limits.rate);
      if b.tokens > limits.burst as real {
        b := b.(tokens := limits.burst as real);
      }
      b := b.(lastCheck := now);
      if b.tokens >= 1.0 {
        b := b.(tokens := b.tokens - 1.0);
        ok := true;
      } else {
        ok := false;
      }
      clients := clients[ip := b];
    }

    method Cleanup(maxAge: real, now: real)
      modifies this
      ensures clients == AfterSweep(old(clients), maxAge, now)
      ensures forall ip :: ip in clients <==> ip in old(clients) && old(clients)[ip].lastCheck >= now - maxAge
    {
      var rest := clients.Keys;
      while rest != {}
        invariant rest <= old(clients).Keys
        invariant forall ip :: ip in clients <==>
                    ip in old(clients) && (ip in rest || !Idle(old(clients)[ip], maxAge, now))
        invariant forall ip :: ip in clients ==> clients[ip] == old(clients)[ip]
        decreases rest
      {
        var ip :| ip in rest;
        if clients[ip].lastCheck < now - maxAge {
          clients := clients - {ip};
        }
        rest := rest - {ip};
      }
    }
  }

  // ----- Runs -----

  datatype Event = Request(ip: string, at: real) | Sweep(maxAge: real, at: real)

  type History = seq<Event>

  function Front(h: History): History
    requires h != []
  {
    h[..|h| - 1]
  }

  function Last(h: History): Event
    requires h != []
  {
    h[|h| - 1]
  }

  /** The buckets after a run from an empty limiter. */
  function Buckets(l: Limits, h: History): Clients {
    if h == [] then map[] else
    match Last(h)
    case Request(ip, at) => AfterRequest(l, Buckets(l, Front(h)), ip, at)
    case Sweep(maxAge, at) => AfterSweep(Buckets(l, Front(h)), maxAge, at)
  }

  /** Would a request of `ip` at time `t` be let in after run `h`? */
  predicate Admits(l: Limits, h: History, ip: string, t: real) {
    Grants(l, Buckets(l, h), ip, t)
  }

  /** The clock never runs backwards, and has not passed `t`. */
  predicate Chronological(h: History, t: real) {
    h == [] || (Last(h).at <= t && Chronological(Front(h), Last(h).at))
  }

  predicate NoSweeps(h: History) {
    forall i :: 0 <= i < |h| ==> h[i].Request?
  }

  /** Requests of `ip` let in at time `s` or later. */
  function AdmittedSince(l: Limits, h: History, ip: string, s: real): nat {
    if h == [] then 0 else
    var counts := Last(h).Request? && Last(h).ip == ip && Last(h).at >= s
                  && Admits(l, Front(h), ip, Last(h).at);
    AdmittedSince(l, Front(h), ip, s) + if counts then 1 else 0
  }

  /** `s` is the time of a request of `ip`: one in the run, or the one being made at `t`. */
  ghost predicate IsStart(h: History, ip: string, t: real, s: real) {
    s == t || exists i :: 0 <= i < |h| && h[i].Request? && h[i].ip == ip && h[i].at == s
  }

  /** What a window opening at `s` still leaves for `ip` at time `t`. */
  function Headroom(l: Limits, h: History, ip: string, t: real, s: real): real {
    l.burst as real + Earned(l, s, t) - AdmittedSince(l, h, ip, s) as real
  }

  /** Letting one more request in at `t` overfills no window [s, t] that opens at a
      request of the client: admitted in [s, t], this one included, is at most
      burst + rate * (t - s). */
  ghost predicate FitsEveryWindow(l: Limits, h: History, ip: string, t: real) {
    forall s :: IsStart(h, ip, t, s) ==>
      AdmittedSince(l, h, ip, s) as real + 1.0 <= l.burst as real + Earned(l, s, t)
  }

  // ----- The bucket level is the tightest window -----

  lemma LevelAfterRequest(l: Limits, clients: Clients, ip: string, u: real, other: string, t: real)
    requires l.burst >= 1
    ensures Grants(l, clients, ip, u) <==> Level(l, clients, ip, u) >= 1.0
    ensures other != ip ==>
              Level(l, AfterRequest(l, clients, ip, u), other, t) == Level(l, clients, other, t)
    ensures var kept := Level(l, clients, ip, u) - if Grants(l, clients, ip, u) then 1.0 else 0.0;
            var refilled := kept + Earned(l, u, t);
            Level(l, AfterRequest(l, clients, ip, u), ip, t)
              == if refilled > l.burst as real then l.burst as real else refilled
  {
  }

  lemma EarnedGrows(l: Limits, from: real, to: real, age: real)
    requires l.rate >= 0.0 && to - from >= age
    ensures Earned(l, from, to) >= age * l.rate
    ensures age == 0.0 ==> Earned(l, from, to) >= 0.0
  {
    assert l.rate * (to - from - age) >= 0.0;
    assert l.rate * (to - from - age) == Earned(l, from, to) - age * l.rate;
  }

  lemma {:induction false} NothingAdmittedLater(l: Limits, h: History, ip: string, t: real, s: real)
    requires Chronological(h, t) && t < s
    ensures AdmittedSince(l, h, ip, s) == 0
  {
    if h != [] {
      NothingAdmittedLater(l, Front(h), ip, Last(h).at, s);
    }
  }

  lemma StartsOfFront(h: History, ip: string, t: real, s: real)
    requires h != [] && Last(h).Request? && Chronological(h, t)
    ensures IsStart(h, ip, t, s) && s != t && Last(h).ip == ip ==> IsStart(Front(h), ip, Last(h).at, s)
    ensures IsStart(h, ip, t, s) && Last(h).ip != ip ==> IsStart(Front(h), ip, t, s)
    ensures IsStart(Front(h), ip, t, s) ==> IsStart(h, ip, t, s)
    ensures Last(h).ip == ip && IsStart(Front(h), ip, Last(h).at, s) ==> IsStart(h, ip, t, s)
  {
  }

  lemma {:induction false} StartsAreNotLater(h: History, ip: string, t: real, s: real)
    requires Chronological(h, t) && IsStart(h, ip, t, s)
    ensures s <= t
  {
    if s != t {
      var i :| 0 <= i < |h| && h[i].Request? && h[i].ip == ip && h[i].at == s;
      if i < |h| - 1 {
        assert Front(h)[i] == h[i];
        StartsAreNotLater(Front(h), ip, Last(h).at, s);
      }
    }
  }

  lemma WindowsShift(l: Limits, h: History, ip: string, t: real, s: real)
    requires h != [] && Last(h) == Request(ip, Last(h).at) && s <= Last(h).at
    ensures var u := Last(h).at;
            Headroom(l, h, ip, t, s) == Headroom(l, Front(h), ip, u, s) + Earned(l, u, t)
              - if Admits(l, Front(h), ip, u) then 1.0 else 0.0
  {
  }

  /** No window leaves less than the bucket level: none opening at a request, and none at all
      when the rate is not negative ... */
  lemma {:induction false} LevelBelowEveryWindow(l: Limits, h: History, ip: string, t: real, s: real)
    requires l.burst >= 1 && NoSweeps(h) && Chronological(h, t)
    requires IsStart(h, ip, t, s) || (l.rate >= 0.0 && s <= t)
    ensures Level(l, Buckets(l, h), ip, t) <= Headroom(l, h, ip, t, s)
    decreases |h|
  {
    if !IsStart(h, ip, t, s) {
      EarnedGrows(l, s, t, 0.0);
    }
    if h != [] {
      var u := Last(h).at;
      StartsOfFront(h, ip, t, s);
      LevelAfterRequest(l, Buckets(l, Front(h)), Last(h).ip, u, ip, t);
      if Last(h).ip != ip {
        LevelBelowEveryWindow(l, Front(h), ip, t, s);
      } else if u < s {
        assert Earned(l, s, t) >= 0.0 by {
          if IsStart(Front(h), ip, u, s) {
            StartsAreNotLater(Front(h), ip, u, s);
          }
        }
        NothingAdmittedLater(l, h, ip, u, s);
      } else {
        LevelBelowEveryWindow(l, Front(h), ip, u, s);
        WindowsShift(l, h, ip, t, s);
      }
    }
  }

  /** ... and some window leaves exactly that. */
  lemma {:induction false} SomeWindowIsTight(l: Limits, h: History, ip: string, t: real) returns (s: real)
    requires l.burst >= 1 && NoSweeps(h) && Chronological(h, t)
    ensures IsStart(h, ip, t, s) && s <= t
    ensures Level(l, Buckets(l, h), ip, t) == Headroom(l, h, ip, t, s)
    decreases |h|
  {
    s := t;
    if h != [] {
      var u := Last(h).at;
      LevelAfterRequest(l, Buckets(l, Front(h)), Last(h).ip, u, ip, t);
      if Last(h).ip != ip {
        s := SomeWindowIsTight(l, Front(h), ip, t);
        StartsOfFront(h, ip, t, s);
      } else if Level(l, Buckets(l, h), ip, t) == l.burst as real && u < t {
        NothingAdmittedLater(l, h, ip, u, t);
      } else {
        s := SomeWindowIsTight(l, Front(h), ip, u);
        StartsOfFront(h, ip, t, s);
        WindowsShift(l, h, ip, t, s);
      }
    }
  }

  lemma WindowsDecide(l: Limits, h: History, ip: string, t: real)
    requires l.burst >= 1 && NoSweeps(h) && Chronological(h, t)
    ensures Admits(l, h, ip, t) <==> FitsEveryWindow(l, h, ip, t)
  {
    LevelAfterRequest(l, Buckets(l, h), ip, t, ip, t);
    forall s | IsStart(h, ip, t, s)
      ensures Level(l, Buckets(l, h), ip, t) <= Headroom(l, h, ip, t, s)
    {
      LevelBelowEveryWindow(l, h, ip, t, s);
    }
    var s := SomeWindowIsTight(l, h, ip, t);
  }

  // ----- Sweeping idle buckets -----

  function Requests(h: History): History {
    if h == [] then [] else
    Requests(Front(h)) + if Last(h).Request? then [Last(h)] else []
  }

  predicate SweepsWith(h: History, maxAge: real) {
    forall i :: 0 <= i < |h| && h[i].Sweep? ==> h[i].maxAge == maxAge
  }

  /** Buckets hold between nothing and a full burst, and were last checked in the past. */
  predicate Sane(l: Limits, clients: Clients, now: real) {
    forall ip :: ip in clients ==>
      0.0 <= clients[ip].tokens <= l.burst as real && clients[ip].lastCheck <= now
  }

  lemma {:induction false} BucketsStaySane(l: Limits, h: History, t: real)
    requires l.burst >= 1 && l.rate >= 0.0 && Chronological(h, t)
    ensures Sane(l, Buckets(l, h), t)
  {
    if h != [] {
      BucketsStaySane(l, Front(h), Last(h).at);
      var before := Buckets(l, Front(h));
      if Last(h).Request? && Last(h).ip in before {
        EarnedGrows(l, before[Last(h).ip].lastCheck, Last(h).at, 0.0);
      }
    }
  }

  /** A bucket idle long enough to refill completely can be dropped: it reads as full
      from then on either way. */
  lemma SweepKeepsLevels(l: Limits, clients: Clients, maxAge: real, now: real, ip: string, t: real)
    requires l.rate >= 0.0 && maxAge * l.rate >= l.burst as real
    requires Sane(l, clients, now) && now <= t
    ensures Level(l, AfterSweep(clients, maxAge, now), ip, t) == Level(l, clients, ip, t)
  {
    if ip in clients && Idle(clients[ip], maxAge, now) {
      EarnedGrows(l, clients[ip].lastCheck, t, maxAge);
    }
  }

  lemma EqualLevelsStayEqual(l: Limits, c: Clients, d: Clients, client: string, u: real, ip: string, t: real)
    requires l.burst >= 1
    requires Level(l, c, client, u) == Level(l, d, client, u)
    requires Level(l, c, ip, t) == Level(l, d, ip, t)
    ensures Level(l, AfterRequest(l, c, client, u), ip, t) == Level(l, AfterRequest(l, d, client, u), ip, t)
  {
    LevelAfterRequest(l, c, client, u, ip, t);
    LevelAfterRequest(l, d, client, u, ip, t);
  }

  lemma RequestsOfLast(h: History)
    requires h != []
    ensures Last(h).Sweep? ==> Requests(h) == Requests(Front(h))
    ensures Last(h).Request? ==> Requests(h) != [] && Last(Requests(h)) == Last(h)
                                 && Front(Requests(h)) == Requests(Front(h))
  {
  }

  lemma {:induction false} RequestsInOrder(h: History, t: real)
    requires Chronological(h, t)
    ensures Chronological(Requests(h), t) && NoSweeps(Requests(h))
  {
    if h != [] {
      RequestsOfLast(h);
      RequestsInOrder(Front(h), Last(h).at);
    }
  }

  lemma {:induction false} LevelsWithoutSweeps(l: Limits, h: History, maxAge: real, ip: string, t: real)
    requires l.burst >= 1 && l.rate >= 0.0 && maxAge * l.rate >= l.burst as real
    requires Chronological(h, t) && SweepsWith(h, maxAge)
    ensures Level(l, Buckets(l, h), ip, t) == Level(l, Buckets(l, Requests(h)), ip, t)
    decreases |h|
  {
    if h != [] {
      var u := Last(h).at;
      RequestsOfLast(h);
      assert Chronological(Front(h), t) && SweepsWith(Front(h), maxAge);
      LevelsWithoutSweeps(l, Front(h), maxAge, ip, t);
      match Last(h)
      case Sweep(_, _) =>
        BucketsStaySane(l, Front(h), u);
        SweepKeepsLevels(l, Buckets(l, Front(h)), maxAge, u, ip, t);
      case Request(client, _) =>
        LevelsWithoutSweeps(l, Front(h), maxAge, client, u);
        EqualLevelsStayEqual(l, Buckets(l, Front(h)), Buckets(l, Requests(Front(h))), client, u, ip, t);
    }
  }

  /** Sweeping cannot be seen from outside: every client gets the answers it would have
      got had no sweep ever run. */
  lemma SweepsAreInvisible(l: Limits, h: History, maxAge: real, ip: string, t: real)
    requires l.burst >= 1 && l.rate >= 0.0 && maxAge * l.rate >= l.burst as real
    requires Chronological(h, t) && SweepsWith(h, maxAge)
    ensures Admits(l, h, ip, t) == Admits(l, Requests(h), ip, t)
  {
    LevelsWithoutSweeps(l, h, maxAge, ip, t);
    LevelAfterRequest(l, Buckets(l, h), ip, t, ip, t);
    LevelAfterRequest(l, Buckets(l, Requests(h)), ip, t, ip, t);
  }

  lemma {:induction false} CountsWithoutSweeps(l: Limits, h: History, maxAge: real, ip: string, t: real, s: real)
    requires l.burst >= 1 && l.rate >= 0.0 && maxAge * l.rate >= l.burst as real
    requires Chronological(h, t) && SweepsWith(h, maxAge)
    ensures AdmittedSince(l, h, ip, s) == AdmittedSince(l, Requests(h), ip, s)
    ensures IsStart(h, ip, t, s) <==> IsStart(Requests(h), ip, t, s)
    decreases |h|
  {
    if h != [] {
      RequestsOfLast(h);
      RequestsInOrder(h, t);
      assert Chronological(Front(h), t) && SweepsWith(Front(h), maxAge);
      CountsWithoutSweeps(l, Front(h), maxAge, ip, t, s);
      StartsGrow(h, ip, t, s);
      if Last(h).Request? {
        SweepsAreInvisible(l, Front(h), maxAge, ip, Last(h).at);
        StartsGrow(Requests(h), ip, t, s);
      }
    }
  }

  lemma StartsGrow(h: History, ip: string, t: real, s: real)
    requires h != []
    ensures IsStart(h, ip, t, s) <==> IsStart(Front(h), ip, t, s) || Last(h) == Request(ip, s)
  {
  }

  /** The main result: with sweeps running anywhere in between, a request is let in
      exactly when it overfills no window opening at a request of the same client. */
  lemma WindowsDecideDespiteSweeps(l: Limits, h: History, maxAge: real, ip: string, t: real)
    requires l.burst >= 1 && l.rate >= 0.0 && maxAge * l.rate >= l.burst as real
    requires Chronological(h, t) && SweepsWith(h, maxAge)
    ensures Admits(l, h, ip, t) <==> FitsEveryWindow(l, h, ip, t)
  {
    RequestsInOrder(h, t);
    SweepsAreInvisible(l, h, maxAge, ip, t);
    WindowsDecide(l, Requests(h), ip, t);
    forall s
      ensures AdmittedSince(l, h, ip, s) == AdmittedSince(l, Requests(h), ip, s)
      ensures IsStart(h, ip, t, s) <==> IsStart(Requests(h), ip, t, s)
    {
      CountsWithoutSweeps(l, h, maxAge, ip, t, s);
    }
  }

  /** Between `s` and `t` the client gets at most burst + rate * (t - s) requests in. */
  predicate WithinLimit(l: Limits, h: History, ip: string, s: real, t: real) {
    AdmittedSince(l, h, ip, s) as real <= l.burst as real + Earned(l, s, t)
  }

  /** The limit itself: over any stretch of time [s, t], of any run with sweeps, no client gets
      more than burst + rate * (t - s) requests in. */
  lemma NeverOverTheLimit(l: Limits, h: History, maxAge: real, ip: string, s: real, t: real)
    requires l.burst >= 1 && l.rate >= 0.0 && maxAge * l.rate >= l.burst as real
    requires Chronological(h, t) && SweepsWith(h, maxAge) && s <= t
    ensures WithinLimit(l, h, ip, s, t)
  {
    var requests := Requests(h);
    RequestsInOrder(h, t);
    CountsWithoutSweeps(l, h, maxAge, ip, t, s);
    LevelBelowEveryWindow(l, requests, ip, t, s);
    BucketsStaySane(l, requests, t);
    if ip in Buckets(l, requests) {
      EarnedGrows(l, Buckets(l, requests)[ip].lastCheck, t, 0.0);
    }
  }

  // ----- When exactly these hold -----

  ghost predicate AlwaysExact(l: Limits) {
    forall h, ip, t :: NoSweeps(h) && Chronological(h, t) ==>
      (Admits(l, h, ip, t) <==> FitsEveryWindow(l, h, ip, t))
  }

  /** The very first request is let in without looking at the burst, so the windows are
      respected exactly when the burst has room for it. */
  lemma ExactIffBurstPositive(l: Limits)
    ensures AlwaysExact(l) <==> l.burst >= 1
  {
    if l.burst >= 1 {
      forall h, ip, t | NoSweeps(h) && Chronological(h, t)
        ensures Admits(l, h, ip, t) <==> FitsEveryWindow(l, h, ip, t)
      {
        WindowsDecide(l, h, ip, t);
      }
    } else {
      assert Admits(l, [], "a", 0.0) && IsStart([], "a", 0.0, 0.0);
      assert NoSweeps([]) && Chronological([], 0.0);
    }
  }

  ghost predicate SweepsNeverShow(l: Limits, maxAge: real) {
    forall h, ip, t :: Chronological(h, t) && SweepsWith(h, maxAge) ==>
      Admits(l, h, ip, t) == Admits(l, Requests(h), ip, t)
  }

  /** `n` further requests of `ip`, all at time `t`. */
  function Volley(h: History, ip: string, t: real, n: nat): History {
    if n == 0 then h else Volley(h, ip, t, n - 1) + [Request(ip, t)]
  }

  lemma RequestDrains(l: Limits, h: History, ip: string, t: real)
    requires l.burst >= 1
    ensures var level := Level(l, Buckets(l, h), ip, t);
            Level(l, Buckets(l, h + [Request(ip, t)]), ip, t) == if level >= 1.0 then level - 1.0 else level
  {
    var g := h + [Request(ip, t)];
    assert Front(g) == h && Last(g) == Request(ip, t);
    LevelAfterRequest(l, Buckets(l, h), ip, t, ip, t);
    assert Earned(l, t, t) == 0.0;
  }

  /** `n` tokens were taken from a bucket that held `level`, as far as it went. */
  predicate Drained(level: real, n: nat, after: real) {
    if level >= n as real then after == level - n as real else after < 1.0
  }

  lemma OneMoreDrained(level: real, n: nat, before: real)
    requires Drained(level, n, before)
    ensures Drained(level, n + 1, if before >= 1.0 then before - 1.0 else before)
    ensures level >= (n + 1) as real ==> before >= 1.0
  {
  }

  lemma {:induction false} VolleyDrains(l: Limits, h: History, ip: string, t: real, n: nat)
    requires l.burst >= 1
    ensures Drained(Level(l, Buckets(l, h), ip, t), n, Level(l, Buckets(l, Volley(h, ip, t, n)), ip, t))
  {
    if n > 0 {
      var before := Volley(h, ip, t, n - 1);
      VolleyDrains(l, h, ip, t, n - 1);
      RequestDrains(l, before, ip, t);
      OneMoreDrained(Level(l, Buckets(l, h), ip, t), n - 1, Level(l, Buckets(l, before), ip, t));
    }
  }

  lemma RequestAppended(h: History, ip: string, t: real, maxAge: real)
    requires Chronological(h, t) && SweepsWith(h, maxAge)
    ensures var g := h + [Request(ip, t)];
            Chronological(g, t) && SweepsWith(g, maxAge) && Requests(g) == Requests(h) + [Request(ip, t)]
  {
  }

  lemma {:induction false} VolleyOnTime(h: History, ip: string, t: real, n: nat, maxAge: real)
    requires Chronological(h, t) && SweepsWith(h, maxAge)
    ensures Chronological(Volley(h, ip, t, n), t) && SweepsWith(Volley(h, ip, t, n), maxAge)
    ensures Requests(Volley(h, ip, t, n)) == Volley(Requests(h), ip, t, n)
  {
    if n > 0 {
      VolleyOnTime(h, ip, t, n - 1, maxAge);
      RequestAppended(Volley(h, ip, t, n - 1), ip, t, maxAge);
    }
  }

  /** A moment when an untouched bucket counts as idle yet is not full again. */
  lemma TooEarly(l: Limits, maxAge: real) returns (now: real)
    requires l.burst >= 1 && l.rate >= 0.0 && maxAge * l.rate < l.burst as real
    ensures now >= 0.0 && now > maxAge && Earned(l, 0.0, now) < l.burst as real
  {
    if maxAge < 0.0 {
      now := 0.0;
    } else if l.rate == 0.0 {
      now := maxAge + 1.0;
    } else {
      var full := l.burst as real / l.rate;
      assert full * l.rate == l.burst as real;
      now := (maxAge + full) / 2.0;
      assert (full - maxAge) * l.rate > 0.0;
      assert full > maxAge;
      assert (full - now) * l.rate > 0.0;
    }
  }

  lemma RequestGetsIn(l: Limits, h: History, ip: string, t: real, s: real)
    requires l.burst >= 1 && s <= t && Level(l, Buckets(l, h), ip, t) >= 1.0
    ensures AdmittedSince(l, h + [Request(ip, t)], ip, s) == AdmittedSince(l, h, ip, s) + 1
  {
    LevelAfterRequest(l, Buckets(l, h), ip, t, ip, t);
    assert Front(h + [Request(ip, t)]) == h;
  }

  /** The whole volley gets in when the bucket holds that much. */
  lemma {:induction false} VolleyGetsIn(l: Limits, h: History, ip: string, t: real, n: nat, s: real)
    requires l.burst >= 1 && s <= t && Level(l, Buckets(l, h), ip, t) >= n as real
    ensures AdmittedSince(l, Volley(h, ip, t, n), ip, s) == AdmittedSince(l, h, ip, s) + n
  {
    if n > 0 {
      VolleyGetsIn(l, h, ip, t, n - 1, s);
      var before := Volley(h, ip, t, n - 1);
      VolleyDrains(l, h, ip, t, n - 1);
      OneMoreDrained(Level(l, Buckets(l, h), ip, t), n - 1, Level(l, Buckets(l, before), ip, t));
      RequestGetsIn(l, before, ip, t, s);
    }
  }

  /** The first client uses up its burst at time 0. */
  lemma BurstDrains(l: Limits, maxAge: real)
    requires l.burst >= 1
    ensures var h := Volley([], "a", 0.0, l.burst);
            && Chronological(h, 0.0) && SweepsWith(h, maxAge) && Requests(h) == h
            && AdmittedSince(l, h, "a", 0.0) == l.burst
            && "a" in Buckets(l, h) && Buckets(l, h)["a"] == Bucket(0.0, 0.0)
  {
    var h := Volley([], "a", 0.0, l.burst);
    VolleyDrains(l, [], "a", 0.0, l.burst);
    VolleyOnTime([], "a", 0.0, l.burst, maxAge);
    VolleyGetsIn(l, [], "a", 0.0, l.burst, 0.0);
    assert Front(h) == Volley([], "a", 0.0, l.burst - 1);
  }

  /** Swept too early, it is full again. */
  lemma SweptIsFull(l: Limits, maxAge: real, now: real)
    requires l.burst >= 1 && now >= 0.0 && now > maxAge
    ensures var drained := Volley([], "a", 0.0, l.burst);
            var swept := drained + [Sweep(maxAge, now)];
            && Chronological(swept, now) && SweepsWith(swept, maxAge) && Requests(swept) == drained
            && AdmittedSince(l, swept, "a", 0.0) == l.burst
            && Level(l, Buckets(l, swept), "a", now) == l.burst as real
  {
    BurstDrains(l, maxAge);
    var drained := Volley([], "a", 0.0, l.burst);
    var swept := drained + [Sweep(maxAge, now)];
    assert Front(swept) == drained && Last(swept) == Sweep(maxAge, now);
    RequestsOfLast(swept);
  }

  /** Sweep too early and the client it forgets gets a second burst: twice the burst within a
      time that does not earn one. */
  lemma SecondBurst(l: Limits, maxAge: real) returns (h: History, now: real)
    requires l.burst >= 1 && l.rate >= 0.0 && maxAge * l.rate < l.burst as real
    ensures now >= 0.0 && Chronological(h, now) && SweepsWith(h, maxAge)
    ensures AdmittedSince(l, h, "a", 0.0) == 2 * l.burst
    ensures (2 * l.burst) as real > l.burst as real + Earned(l, 0.0, now)
  {
    now := TooEarly(l, maxAge);
    SweptIsFull(l, maxAge, now);
    var swept := Volley([], "a", 0.0, l.burst) + [Sweep(maxAge, now)];
    h := Volley(swept, "a", now, l.burst);
    VolleyGetsIn(l, swept, "a", now, l.burst, 0.0);
    VolleyOnTime(swept, "a", now, l.burst, maxAge);
  }

  /** The last request of that second burst is refused without the sweep. */
  lemma EarlySweepShows(l: Limits, maxAge: real)
    requires l.burst >= 1 && l.rate >= 0.0 && maxAge * l.rate < l.burst as real
    ensures !SweepsNeverShow(l, maxAge)
  {
    var now := TooEarly(l, maxAge);
    SweptIsFull(l, maxAge, now);
    BurstDrains(l, maxAge);
    var n, drained := l.burst - 1, Volley([], "a", 0.0, l.burst);
    var swept := drained + [Sweep(maxAge, now)];
    VolleyDrains(l, swept, "a", now, n);
    VolleyOnTime(swept, "a", now, n, maxAge);
    VolleyDrains(l, drained, "a", now, n);
    var h := Volley(swept, "a", now, n);
    LevelAfterRequest(l, Buckets(l, h), "a", now, "a", now);
    LevelAfterRequest(l, Buckets(l, Requests(h)), "a", now, "a", now);
    assert Admits(l, h, "a", now) && !Admits(l, Requests(h), "a", now);
  }

  lemma OneRequest(l: Limits)
    ensures var one := [Request("a", 0.0)];
            && Buckets(l, one) == map["a" := Bucket(l.burst as real - 1.0, 0.0)]
            && Requests(one) == one && Chronological(one, 0.0)
  {
    var one := [Request("a", 0.0)];
    assert Front(one) == [] && Last(one) == Request("a", 0.0);
    assert Buckets(l, []) == map[] && Requests([]) == [];
  }

  lemma NoBurstSweepShows(l: Limits, maxAge: real)
    requires l.burst < 1
    ensures !SweepsNeverShow(l, maxAge)
  {
    var now := if maxAge < 0.0 then 0.0 else maxAge + 1.0;
    var one := [Request("a", 0.0)];
    var h := one + [Sweep(maxAge, now)];
    OneRequest(l);
    assert Front(h) == one && Last(h) == Sweep(maxAge, now);
    RequestsOfLast(h);
    assert Buckets(l, h) == AfterSweep(Buckets(l, one), maxAge, now);
    assert Chronological(h, now) && SweepsWith(h, maxAge);
    assert Admits(l, h, "a", now) && !Admits(l, one, "a", now);
  }

  ghost predicate NeverOver(l: Limits, maxAge: real) {
    forall h, ip, s, t :: Chronological(h, t) && SweepsWith(h, maxAge) && s <= t ==> WithinLimit(l, h, ip, s, t)
  }

  /** The limit is kept in all runs exactly when the burst has room for a request and an idle
      bucket has had time to refill. */
  lemma LimitIsKeptIff(l: Limits, maxAge: real)
    requires l.rate >= 0.0
    ensures NeverOver(l, maxAge) <==> l.burst >= 1 && maxAge * l.rate >= l.burst as real
  {
    if l.burst < 1 {
      var one := [Request("a", 0.0)];
      OneRequest(l);
      assert Front(one) == [] && AdmittedSince(l, [], "a", 0.0) == 0;
      assert SweepsWith(one, maxAge) && !WithinLimit(l, one, "a", 0.0, 0.0);
    } else if maxAge * l.rate < l.burst as real {
      var h, now := SecondBurst(l, maxAge);
      assert !WithinLimit(l, h, "a", 0.0, now);
    } else {
      forall h, ip, s, t | Chronological(h, t) && SweepsWith(h, maxAge) && s <= t ensures WithinLimit(l, h, ip, s, t) {
        NeverOverTheLimit(l, h, maxAge, ip, s, t);
      }
    }
  }

  /** Sweeping is invisible exactly when an idle bucket has had time to refill. */
  lemma SweepsAreInvisibleIff(l: Limits, maxAge: real)
    requires l.rate >= 0.0
    ensures SweepsNeverShow(l, maxAge) <==> l.burst >= 1 && maxAge * l.rate >= l.burst as real
  {
    if l.burst < 1 {
      NoBurstSweepShows(l, maxAge);
    } else if maxAge * l.rate < l.burst as real {
      EarlySweepShows(l, maxAge);
    } else {
      forall h, ip, t | Chronological(h, t) && SweepsWith(h, maxAge)
        ensures Admits(l, h, ip, t) == Admits(l, Requests(h), ip, t)
      {
        SweepsAreInvisible(l, h, maxAge, ip, t);
      }
    }
  }

  /** The gateway runs 10000 requests a minute, burst 5000, and sweeps after ten minutes. */
  lemma GatewayLimits(h: History, ip: string, t: real)
    requires Chronological(h, t) && SweepsWith(h, 600.0)
    ensures var l := Limits(10000 as real / 60.0, 5000);
            Admits(l, h, ip, t) <==> FitsEveryWindow(l, h, ip, t)
  {
    WindowsDecideDespiteSweeps(Limits(10000 as real / 60.0, 5000), h, 600.0, ip, t);
  }
}
