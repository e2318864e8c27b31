/**
 The API-key cache in front of the key table: how stale an answer can be when keys are
 revoked or changed meanwhile, with lookups, fills and sweeps of many requests interleaved.
 */
module KeyCaching {
  import opened Wrappers

  datatype Entry = Entry(namespace: string, scopes: string)

  datatype KeyRow = KeyRow(entry: Entry, revoked: bool)

  type Database = map<string, KeyRow>

  /** Lookups go to the gateway's own database or to the one it authenticates against; the
      cache does not tell them apart. */
  datatype Client = Own | Auth

  datatype Tables = Tables(own: Database, auth: Database)

  function TableOf(t: Tables, client: Client): Database {
    match client
    case Own => t.own
    case Auth => t.auth
  }

  datatype Cached = Cached(entry: Entry, expiresAt: real)

  type Cache = map<string, Cached>

  predicate Expired(c: Cached, now: real) {
    now > c.expiresAt
  }

  function Get(cache: Cache, key: string, now: real): Option<Entry> {
    if key !in cache || Expired(cache[key], now) then None else Some(cache[key].entry)
  }

  function Sweep(cache: Cache, now: real): Cache {
    map key | key in cache && !Expired(cache[key], now) :: cache[key]
  }

  class MiddlewareCache {
    var apiKeys: Cache
    const ttl: real

    constructor (ttl: real)
      ensures apiKeys == map[] && this.ttl == ttl
    {
      apiKeys := map[];
      this.ttl := ttl;
    }

    method GetAPIKeyEntry(key: string, now: real) returns (r: Option<Entry>)
      ensures r == Get(apiKeys, key, now)
      ensures r.Some? <==> key in apiKeys && now <= apiKeys[key].expiresAt
      ensures r.Some? ==> r.value == apiKeys[key].entry
    {
      if key !in apiKeys || now > apiKeys[key].expiresAt {
        return None;
      }
      return Some(apiKeys[key].entry);
    }

    method SetAPIKeyEntry(key: string, namespace: string, scopes: string, now: real)
      modifies this
      ensures apiKeys == old(apiKeys)[key := Cached(Entry(namespace, scopes), now + ttl)]
    {
      apiKeys := apiKeys[key := Cached(Entry(namespace, scopes), now + ttl)];
    }

    method Cleanup(now: real)
      modifies this
      ensures apiKeys == Sweep(old(apiKeys), now)
      ensures forall key :: key in apiKeys <==> key in old(apiKeys) && now <= old(apiKeys)[key].expiresAt
    {
      var rest := apiKeys.Keys;
      while rest != {}
        invariant rest <= old(apiKeys).Keys
        invariant forall key :: key in apiKeys <==>
                    key in old(apiKeys) && (key in rest || !Expired(old(apiKeys)[key], now))
        invariant forall key :: key in apiKeys ==> apiKeys[key] == old(apiKeys)[key]
        decreases rest
      {
        var key :| key in rest;
        if now > apiKeys[key].expiresAt {
          apiKeys := apiKeys - {key};
        }
        rest := rest - {key};
      }
    }
  }

  // ----- Lookups over a changing database -----

  /** How keys are hashed, how long entries live, and the longest time from reading a row
      to caching it. */
  datatype Config = Config(hash: string -> string, ttl: real, delay: real)

  /** A live row stored under the given key. */
  function Find(db: Database, stored: string): Option<Entry> {
    if stored in db && !db[stored].revoked && db[stored].entry.namespace != "" then Some(db[stored].entry) else None
  }

  /** The hashed form is tried first, then the key as given. */
  predicate ResolvesIn(cfg: Config, db: Database, key: string, entry: Entry) {
    Find(db, cfg.hash(key)) == Some(entry) || Find(db, key) == Some(entry)
  }

  predicate Resolves(cfg: Config, tables: Tables, key: string, entry: Entry) {
    ResolvesIn(cfg, tables.own, key, entry) || ResolvesIn(cfg, tables.auth, key, entry)
  }

  datatype Version = Version(since: real, tables: Tables)

  /** A request's lookup: cache missed, hashed form missed, row read, answered. */
  datatype Lookup =
    | Missed(key: string, client: Client)
    | HashMissed(key: string, client: Client)
    | Read(key: string, entry: Entry, readAt: real)
    | Answered(key: string, answer: Option<Entry>, answeredAt: real)

  datatype System = System(versions: seq<Version>, cache: Cache, lookups: map<nat, Lookup>)

  /** `failed` marks a query the database did not answer. */
  datatype Step =
    | Change(at: real, tables: Tables)
    | Begin(at: real, id: nat, key: string, client: Client)
    | QueryHashed(at: real, id: nat, failed: bool)
    | QueryRaw(at: real, id: nat, failed: bool)
    | Fill(at: real, id: nat)
    | Clean(at: real)

  function Current(s: System, client: Client): Database {
    if s.versions == [] then map[] else TableOf(s.versions[|s.versions| - 1].tables, client)
  }

  function AfterBegin(s: System, at: real, key: string, client: Client): Lookup {
    match Get(s.cache, key, at)
    case Some(entry) => Answered(key, Some(entry), at)
    case None => Missed(key, client)
  }

  function AfterHashed(cfg: Config, s: System, at: real, key: string, client: Client, failed: bool): Lookup {
    match Find(Current(s, client), cfg.hash(key))
    case Some(entry) => if failed then HashMissed(key, client) else Read(key, entry, at)
    case None => HashMissed(key, client)
  }

  function AfterRaw(cfg: Config, s: System, at: real, key: string, client: Client, failed: bool): Lookup {
    match Find(Current(s, client), key)
    case Some(entry) => if failed || cfg.hash(key) == key then Answered(key, None, at) else Read(key, entry, at)
    case None => Answered(key, None, at)
  }

  /** A step that is not possible changes nothing. */
  function Next(cfg: Config, s: System, step: Step): System {
    match step
    case Change(at, tables) => s.(versions := s.versions + [Version(at, tables)])
    case Clean(at) => s.(cache := Sweep(s.cache, at))
    case Begin(at, id, key, client) =>
      if id in s.lookups then s else s.(lookups := s.lookups[id := AfterBegin(s, at, key, client)])
    case QueryHashed(at, id, failed) =>
      if id !in s.lookups || !s.lookups[id].Missed? then s
      else s.(lookups := s.lookups[id := AfterHashed(cfg, s, at, s.lookups[id].key, s.lookups[id].client, failed)])
    case QueryRaw(at, id, failed) =>
      if id !in s.lookups || !s.lookups[id].HashMissed? then s
      else s.(lookups := s.lookups[id := AfterRaw(cfg, s, at, s.lookups[id].key, s.lookups[id].client, failed)])
    case Fill(at, id) =>
      if id !in s.lookups || !s.lookups[id].Read? || at - s.lookups[id].readAt > cfg.delay then s
      else
        var l := s.lookups[id];
        s.(cache := s.cache[l.key := Cached(l.entry, at + cfg.ttl)],
           lookups := s.lookups[id := Answered(l.key, Some(l.entry), at)])
  }

  function Run(cfg: Config, steps: seq<Step>): System {
    if steps == [] then System([], map[], map[])
    else Next(cfg, Run(cfg, steps[..|steps| - 1]), steps[|steps| - 1])
  }

  predicate Chronological(steps: seq<Step>) {
    forall i, j :: 0 <= i < j < |steps| ==> steps[i].at <= steps[j].at
  }

  /** A lookup that nobody disturbs: cache, hashed form, given form, fill; either query may
      fail. */
  function LookUp(cfg: Config, s: System, at: real, id: nat, key: string, client: Client,
                  hashFails: bool, rawFails: bool): System {
    var s := Next(cfg, s, Begin(at, id, key, client));
    var s := Next(cfg, s, QueryHashed(at, id, hashFails));
    var s := Next(cfg, s, QueryRaw(at, id, rawFails));
    Next(cfg, s, Fill(at, id))
  }

  /** These are the tables now; they start empty. */
  ghost predicate AreCurrent(s: System, tables: Tables) {
    tables == if s.versions == [] then Tables(map[], map[]) else s.versions[|s.versions| - 1].tables
  }

  /** The lookup resolves through this stored form: the row is not revoked and its namespace
      has a name. */
  ghost predicate FoundUnder(tables: Tables, client: Client, stored: string, entry: Entry) {
    var db := if client == Auth then tables.auth else tables.own;
    stored in db && db[stored] == KeyRow(entry, false) && entry.namespace != ""
  }

  lemma FindIsFound(s: System, tables: Tables, client: Client, stored: string, entry: Entry)
    requires AreCurrent(s, tables)
    ensures Find(Current(s, client), stored) == Some(entry) <==> FoundUnder(tables, client, stored, entry)
  {
  }

  /** The two queries, in order. */
  lemma QueriesDecide(cfg: Config, s: System, at: real, id: nat, key: string, client: Client,
                      hashFails: bool, rawFails: bool)
    requires id in s.lookups && s.lookups[id] == Missed(key, client)
    ensures var after := Next(cfg, Next(cfg, s, QueryHashed(at, id, hashFails)), QueryRaw(at, id, rawFails));
            var hashed, given := Find(Current(s, client), cfg.hash(key)), Find(Current(s, client), key);
            && after.versions == s.versions && after.cache == s.cache && id in after.lookups
            && after.lookups[id]
               == if !hashFails && hashed.Some? then Read(key, hashed.value, at)
                  else if !rawFails && cfg.hash(key) != key && given.Some? then Read(key, given.value, at)
                  else Answered(key, None, at)
  {
    assert Current(Next(cfg, s, QueryHashed(at, id, hashFails)), client) == Current(s, client);
  }

  /** The cache in front changes nothing but staleness: on a miss the answer is that of the
      database the client asks, the hashed form of the key before the given one, and a found
      entry is what every client gets until it expires.  A failed query finds nothing, and
      nothing is cached for a key that is not found. */
  lemma MissAsksDatabase(cfg: Config, s: System, tables: Tables, at: real, id: nat, key: string, client: Client,
                         hashFails: bool, rawFails: bool, entry: Entry, later: real)
    requires cfg.delay >= 0.0 && AreCurrent(s, tables) && id !in s.lookups && Get(s.cache, key, at) == None
    ensures var after := LookUp(cfg, s, at, id, key, client, hashFails, rawFails);
            var byHash := !hashFails && exists e :: FoundUnder(tables, client, cfg.hash(key), e);
            && id in after.lookups && after.lookups[id].Answered? && after.versions == s.versions
            && (after.lookups[id] == Answered(key, Some(entry), at) <==>
                  || (!hashFails && FoundUnder(tables, client, cfg.hash(key), entry))
                  || (!byHash && !rawFails && cfg.hash(key) != key && FoundUnder(tables, client, key, entry)))
            && (after.lookups[id] == Answered(key, Some(entry), at) && at <= later ==>
                  Get(after.cache, key, later) == if later <= at + cfg.ttl then Some(entry) else None)
            && (after.lookups[id].answer == None ==> after.cache == s.cache)
  {
    var s1 := Next(cfg, s, Begin(at, id, key, client));
    assert s1 == s.(lookups := s.lookups[id := Missed(key, client)]) && Current(s1, client) == Current(s, client);
    QueriesDecide(cfg, s1, at, id, key, client, hashFails, rawFails);
    forall e, stored ensures Find(Current(s, client), stored) == Some(e) <==> FoundUnder(tables, client, stored, e) {
      FindIsFound(s, tables, client, stored, e);
    }
  }

  // ----- Freshness -----

  /** At time `u` one of the databases had a live row that resolves `key` to `entry`. */
  ghost predicate HeldAt(cfg: Config, versions: seq<Version>, key: string, entry: Entry, u: real) {
    exists i :: 0 <= i < |versions| && InForce(versions, i, u) && Resolves(cfg, versions[i].tables, key, entry)
  }

  /** Version `i` was the current one at time `u`; at the instant of a change both are. */
  predicate InForce(versions: seq<Version>, i: nat, u: real)
    requires i < |versions|
  {
    versions[i].since <= u && (i + 1 < |versions| ==> u <= versions[i + 1].since)
  }

  /** ... at some time between `from` and `to`. */
  ghost predicate HeldWithin(cfg: Config, versions: seq<Version>, key: string, entry: Entry, from: real, to: real) {
    exists u :: from <= u <= to && HeldAt(cfg, versions, key, entry, u)
  }

  ghost predicate LookupOk(cfg: Config, s: System, l: Lookup, now: real) {
    match l
    case Missed(_, _) => true
    case HashMissed(_, _) => true
    case Read(key, entry, readAt) => readAt <= now && HeldAt(cfg, s.versions, key, entry, readAt)
    case Answered(key, answer, at) =>
      at <= now && (answer.Some? ==>
        HeldWithin(cfg, s.versions, key, answer.value, at - cfg.ttl - cfg.delay, at))
  }

  ghost predicate CachedOk(cfg: Config, s: System, key: string, c: Cached, now: real) {
    HeldWithin(cfg, s.versions, key, c.entry, c.expiresAt - cfg.ttl - cfg.delay, now)
  }

  ghost predicate Invariant(cfg: Config, s: System, now: real) {
    && (forall i :: 0 <= i < |s.versions| ==> s.versions[i].since <= now)
    && (forall key :: key in s.cache ==> CachedOk(cfg, s, key, s.cache[key], now))
    && (forall id :: id in s.lookups ==> LookupOk(cfg, s, s.lookups[id], now))
  }

  lemma HeldPersists(cfg: Config, versions: seq<Version>, v: Version, key: string, entry: Entry, u: real)
    requires HeldAt(cfg, versions, key, entry, u) && u <= v.since
    ensures HeldAt(cfg, versions + [v], key, entry, u)
  {
    var i :| 0 <= i < |versions| && InForce(versions, i, u) && Resolves(cfg, versions[i].tables, key, entry);
    var after := versions + [v];
    assert InForce(after, i, u) && after[i] == versions[i];
  }

  lemma WithinPersists(cfg: Config, versions: seq<Version>, v: Version, key: string, entry: Entry, from: real, to: real)
    requires HeldWithin(cfg, versions, key, entry, from, to) && to <= v.since
    ensures HeldWithin(cfg, versions + [v], key, entry, from, to)
  {
    var u :| from <= u <= to && HeldAt(cfg, versions, key, entry, u);
    HeldPersists(cfg, versions, v, key, entry, u);
  }

  lemma ChangeKeeps(cfg: Config, s: System, now: real, at: real, tables: Tables)
    requires Invariant(cfg, s, now) && now <= at
    ensures Invariant(cfg, Next(cfg, s, Change(at, tables)), at)
  {
    var v := Version(at, tables);
    var after := Next(cfg, s, Change(at, tables));
    forall key | key in s.cache ensures CachedOk(cfg, after, key, s.cache[key], at) {
      var c := s.cache[key];
      WithinPersists(cfg, s.versions, v, key, c.entry, c.expiresAt - cfg.ttl - cfg.delay, now);
    }
    forall id | id in s.lookups ensures LookupOk(cfg, after, s.lookups[id], at) {
      assert LookupOk(cfg, s, s.lookups[id], now);
      match s.lookups[id]
      case Missed(_, _) =>
      case HashMissed(_, _) =>
      case Read(key, entry, readAt) =>
        HeldPersists(cfg, s.versions, v, key, entry, readAt);
      case Answered(key, answer, t) =>
        if answer.Some? {
          WithinPersists(cfg, s.versions, v, key, answer.value, t - cfg.ttl - cfg.delay, t);
        }
    }
  }

  /** Time passing alone keeps everything. */
  lemma WaitingKeeps(cfg: Config, s: System, now: real, at: real)
    requires Invariant(cfg, s, now) && now <= at
    ensures Invariant(cfg, s, at)
  {
  }

  lemma LookupStepKeeps(cfg: Config, s: System, now: real, id: nat, l: Lookup)
    requires Invariant(cfg, s, now) && LookupOk(cfg, s, l, now)
    ensures Invariant(cfg, s.(lookups := s.lookups[id := l]), now)
  {
  }

  lemma HitIsOk(cfg: Config, s: System, at: real, key: string, client: Client)
    requires Invariant(cfg, s, at)
    ensures LookupOk(cfg, s, AfterBegin(s, at, key, client), at)
  {
  }

  lemma ReadIsOk(cfg: Config, s: System, at: real, key: string, client: Client, failed: bool)
    requires Invariant(cfg, s, at)
    ensures LookupOk(cfg, s, AfterHashed(cfg, s, at, key, client, failed), at)
    ensures LookupOk(cfg, s, AfterRaw(cfg, s, at, key, client, failed), at)
  {
  }

  lemma FillKeeps(cfg: Config, s: System, at: real, id: nat)
    requires cfg.ttl >= 0.0 && cfg.delay >= 0.0
    requires Invariant(cfg, s, at)
    requires id in s.lookups && s.lookups[id].Read? && at - s.lookups[id].readAt <= cfg.delay
    ensures Invariant(cfg, Next(cfg, s, Fill(at, id)), at)
  {
  }

  lemma CleanKeeps(cfg: Config, s: System, at: real)
    requires Invariant(cfg, s, at)
    ensures Invariant(cfg, Next(cfg, s, Clean(at)), at)
  {
  }

  lemma StepKeeps(cfg: Config, s: System, now: real, step: Step)
    requires cfg.ttl >= 0.0 && cfg.delay >= 0.0
    requires Invariant(cfg, s, now) && now <= step.at
    ensures Invariant(cfg, Next(cfg, s, step), step.at)
  {
    WaitingKeeps(cfg, s, now, step.at);
    if Next(cfg, s, step) == s {
      return;
    }
    match step
    case Change(at, tables) =>
      ChangeKeeps(cfg, s, now, at, tables);
    case Begin(at, id, key, client) =>
      HitIsOk(cfg, s, at, key, client);
      LookupStepKeeps(cfg, s, at, id, AfterBegin(s, at, key, client));
    case QueryHashed(at, id, failed) =>
      var key, client := s.lookups[id].key, s.lookups[id].client;
      ReadIsOk(cfg, s, at, key, client, failed);
      LookupStepKeeps(cfg, s, at, id, AfterHashed(cfg, s, at, key, client, failed));
    case QueryRaw(at, id, failed) =>
      var key, client := s.lookups[id].key, s.lookups[id].client;
      ReadIsOk(cfg, s, at, key, client, failed);
      LookupStepKeeps(cfg, s, at, id, AfterRaw(cfg, s, at, key, client, failed));
    case Fill(at, id) =>
      FillKeeps(cfg, s, at, id);
    case Clean(at) =>
      CleanKeeps(cfg, s, at);
  }

  lemma {:induction false} AlwaysInvariant(cfg: Config, steps: seq<Step>)
    requires cfg.ttl >= 0.0 && cfg.delay >= 0.0 && Chronological(steps) && steps != []
    ensures Invariant(cfg, Run(cfg, steps), steps[|steps| - 1].at)
  {
    var init, last := steps[..|steps| - 1], steps[|steps| - 1];
    if init != [] {
      AlwaysInvariant(cfg, init);
      StepKeeps(cfg, Run(cfg, init), init[|init| - 1].at, last);
    } else {
      StepKeeps(cfg, Run(cfg, init), last.at, last);
    }
  }

  /** Lookup `id` was answered with an entry. */
  predicate AnsweredWith(cfg: Config, steps: seq<Step>, id: nat, entry: Entry) {
    var s := Run(cfg, steps);
    id in s.lookups && s.lookups[id].Answered? && s.lookups[id].answer == Some(entry)
  }

  /** One of the databases held what was answered at most `age` before. */
  ghost predicate FreshAnswer(cfg: Config, steps: seq<Step>, id: nat, entry: Entry, age: real)
    requires AnsweredWith(cfg, steps, id, entry)
  {
    var s := Run(cfg, steps);
    var l := s.lookups[id];
    HeldWithin(cfg, s.versions, l.key, entry, l.answeredAt - age, l.answeredAt)
  }

  /** Whatever is answered was true recently: a lookup answered with an entry at time `t`
      means a database held a live row for it at some time in [t - ttl - delay, t]. */
  lemma AnswersAreFresh(cfg: Config, steps: seq<Step>, id: nat, entry: Entry)
    requires cfg.ttl >= 0.0 && cfg.delay >= 0.0 && Chronological(steps)
    requires AnsweredWith(cfg, steps, id, entry)
    ensures FreshAnswer(cfg, steps, id, entry, cfg.ttl + cfg.delay)
  {
    AlwaysInvariant(cfg, steps);
    var s := Run(cfg, steps);
    assert LookupOk(cfg, s, s.lookups[id], steps[|steps| - 1].at);
  }

  /** So a key that resolves to nothing after `since` is refused once ttl + delay have passed. */
  lemma RevocationTakesEffect(cfg: Config, steps: seq<Step>, id: nat, since: real)
    requires cfg.ttl >= 0.0 && cfg.delay >= 0.0 && Chronological(steps)
    requires id in Run(cfg, steps).lookups && Run(cfg, steps).lookups[id].Answered?
    requires forall entry, u :: u > since ==>
               !HeldAt(cfg, Run(cfg, steps).versions, Run(cfg, steps).lookups[id].key, entry, u)
    requires Run(cfg, steps).lookups[id].answeredAt > since + cfg.ttl + cfg.delay
    ensures Run(cfg, steps).lookups[id].answer == None
  {
    var l := Run(cfg, steps).lookups[id];
    if l.answer.Some? {
      AnswersAreFresh(cfg, steps, id, l.answer.value);
    }
  }

  /** The gateway's own table holding one row. */
  function OneRow(cfg: Config, key: string, row: KeyRow): Tables {
    Tables(map[cfg.hash(key) := row], map[])
  }

  /** A row is read at 0, revoked at once, cached `delay` later, and asked for when the
      cached copy is about to expire. */
  function Race(cfg: Config, key: string, entry: Entry): seq<Step> {
    [Change(0.0, OneRow(cfg, key, KeyRow(entry, false))), Begin(0.0, 0, key, Own), QueryHashed(0.0, 0, false),
     Change(0.0, OneRow(cfg, key, KeyRow(entry, true))), Fill(cfg.delay, 0), Begin(cfg.delay + cfg.ttl, 1, key, Own)]
  }

  lemma RunStep(cfg: Config, steps: seq<Step>, n: nat, s: System)
    requires n < |steps| && Run(cfg, steps[..n]) == s
    ensures Run(cfg, steps[..n + 1]) == Next(cfg, s, steps[n])
  {
    assert steps[..n + 1][..n] == steps[..n];
  }

  lemma RaceReads(cfg: Config, key: string, entry: Entry)
    requires entry.namespace != ""
    ensures Run(cfg, Race(cfg, key, entry)[..3])
         == System([Version(0.0, OneRow(cfg, key, KeyRow(entry, false)))], map[], map[0 := Read(key, entry, 0.0)])
  {
    var steps := Race(cfg, key, entry);
    var s0 := System([], map[], map[]);
    assert steps[..0] == [] && Run(cfg, []) == s0;
    RunStep(cfg, steps, 0, s0);
    var s1 := s0.(versions := [Version(0.0, OneRow(cfg, key, KeyRow(entry, false)))]);
    RunStep(cfg, steps, 1, s1);
    var s2 := s1.(lookups := map[0 := Missed(key, Own)]);
    assert Next(cfg, s1, steps[1]) == s2;
    RunStep(cfg, steps, 2, s2);
    assert Find(Current(s2, Own), cfg.hash(key)) == Some(entry);
  }

  lemma RaceEnds(cfg: Config, key: string, entry: Entry)
    requires cfg.delay >= 0.0 && entry.namespace != ""
    ensures var s := Run(cfg, Race(cfg, key, entry));
            && s.versions == [Version(0.0, OneRow(cfg, key, KeyRow(entry, false))),
                              Version(0.0, OneRow(cfg, key, KeyRow(entry, true)))]
            && 1 in s.lookups && s.lookups[1] == Answered(key, Some(entry), cfg.delay + cfg.ttl)
  {
    var steps := Race(cfg, key, entry);
    RaceReads(cfg, key, entry);
    var s3 := Run(cfg, steps[..3]);
    RunStep(cfg, steps, 3, s3);
    var s4 := s3.(versions := s3.versions + [Version(0.0, OneRow(cfg, key, KeyRow(entry, true)))]);
    RunStep(cfg, steps, 4, s4);
    var s5 := System(s4.versions, map[key := Cached(entry, cfg.delay + cfg.ttl)],
                     map[0 := Answered(key, Some(entry), cfg.delay)]);
    assert Next(cfg, s4, steps[4]) == s5;
    RunStep(cfg, steps, 5, s5);
    assert steps[..6] == steps;
  }

  /** The bound is reached: a row revoked at 0 is still served at ttl + delay. */
  lemma BoundIsReached(cfg: Config, key: string, entry: Entry)
    requires cfg.ttl >= 0.0 && cfg.delay >= 0.0 && entry.namespace != ""
    ensures Chronological(Race(cfg, key, entry))
    ensures var s := Run(cfg, Race(cfg, key, entry));
            && 1 in s.lookups && s.lookups[1] == Answered(key, Some(entry), cfg.delay + cfg.ttl)
            && forall e, u :: u > 0.0 ==> !HeldAt(cfg, s.versions, key, e, u)
  {
    RaceEnds(cfg, key, entry);
    var s := Run(cfg, Race(cfg, key, entry));
    forall e, u | u > 0.0 ensures !HeldAt(cfg, s.versions, key, e, u) {
      assert !InForce(s.versions, 0, u);
      assert !Resolves(cfg, s.versions[1].tables, key, e);
    }
  }

  /** In every run, nothing is answered more than `age` after a database last held it. */
  ghost predicate BoundsStaleness(cfg: Config, age: real) {
    forall steps, id, entry :: Chronological(steps) && AnsweredWith(cfg, steps, id, entry) ==>
      FreshAnswer(cfg, steps, id, entry, age)
  }

  /** The lifetimes that bound staleness are exactly those of at least ttl + delay. */
  lemma BoundsStalenessIff(cfg: Config, age: real)
    requires cfg.ttl >= 0.0 && cfg.delay >= 0.0
    ensures BoundsStaleness(cfg, age) <==> age >= cfg.ttl + cfg.delay
  {
    if age >= cfg.ttl + cfg.delay {
      forall steps, id, entry | Chronological(steps) && AnsweredWith(cfg, steps, id, entry)
        ensures FreshAnswer(cfg, steps, id, entry, age)
      {
        AnswersAreFresh(cfg, steps, id, entry);
      }
    } else {
      var entry := Entry("n", "");
      BoundIsReached(cfg, "k", entry);
      assert AnsweredWith(cfg, Race(cfg, "k", entry), 1, entry);
      assert !FreshAnswer(cfg, Race(cfg, "k", entry), 1, entry, age);
    }
  }

  /** So the lifetime of entries alone is a bound if and only if caching a row takes no time. */
  lemma LifetimeBoundsIff(cfg: Config)
    requires cfg.ttl >= 0.0 && cfg.delay >= 0.0
    ensures BoundsStaleness(cfg, cfg.ttl) <==> cfg.delay == 0.0
  {
    BoundsStalenessIff(cfg, cfg.ttl);
  }

  // ----- Sweeping -----

  function WithoutCleans(steps: seq<Step>): seq<Step> {
    if steps == [] then [] else
    WithoutCleans(steps[..|steps| - 1]) + if steps[|steps| - 1].Clean? then [] else [steps[|steps| - 1]]
  }

  /** The two caches answer alike from `now` on. */
  ghost predicate SameAnswers(a: Cache, b: Cache, now: real) {
    forall key, t :: t >= now ==> Get(a, key, t) == Get(b, key, t)
  }

  lemma StepAlike(cfg: Config, s: System, c: Cache, now: real, step: Step)
    requires SameAnswers(s.cache, c, now) && now <= step.at
    ensures var a, b := Next(cfg, s, step), Next(cfg, s.(cache := c), step);
            a.versions == b.versions && a.lookups == b.lookups && SameAnswers(a.cache, b.cache, step.at)
  {
    if step.Begin? {
      assert Get(s.cache, step.key, step.at) == Get(c, step.key, step.at);
    }
    var a, b := Next(cfg, s, step), Next(cfg, s.(cache := c), step);
    forall key, t | t >= step.at ensures Get(a.cache, key, t) == Get(b.cache, key, t) {
      assert Get(s.cache, key, t) == Get(c, key, t);
    }
  }

  /** Dropping expired entries changes no lookup's answer in any run. */
  lemma {:induction false} CleanupIsInvisible(cfg: Config, steps: seq<Step>)
    requires Chronological(steps)
    ensures var a, b := Run(cfg, steps), Run(cfg, WithoutCleans(steps));
            && a.lookups == b.lookups && a.versions == b.versions
            && (steps != [] ==> SameAnswers(a.cache, b.cache, steps[|steps| - 1].at))
  {
    if steps != [] {
      var init, last := steps[..|steps| - 1], steps[|steps| - 1];
      CleanupIsInvisible(cfg, init);
      var a, b := Run(cfg, init), Run(cfg, WithoutCleans(init));
      var now := if init == [] then last.at else init[|init| - 1].at;
      if last.Clean? {
        assert WithoutCleans(steps) == WithoutCleans(init);
        assert Run(cfg, steps) == a.(cache := Sweep(a.cache, last.at));
        forall key, t | t >= last.at ensures Get(Sweep(a.cache, last.at), key, t) == Get(b.cache, key, t) {
          assert Get(a.cache, key, t) == Get(b.cache, key, t);
        }
      } else {
        StepAlike(cfg, a, b.cache, now, last);
        var without := WithoutCleans(steps);
        assert without[..|without| - 1] == WithoutCleans(init) && without[|without| - 1] == last;
        assert b == a.(cache := b.cache);
      }
    }
  }
}
