/**
 Routing a request to one of a namespace's gateways: building the target list from
 database rows, putting it in a canonical order, and taking the first target whose
 circuit breaker lets the request through.
 */
module Failover {
  import opened Sequences
  import opened CircuitBreaking
  import opened Wrappers

  /** A row of the gateway query; a missing address reads "", a missing port 0. */
  datatype Row = Row(ip: string, port: int)

  datatype Target = Target(ip: string, port: int)

  const DEFAULT_PORT := 10004
  const NO_TARGET := Target("", 0)

  // ----- Target list -----

  /** A row without an address yields nothing; a missing port is the default one. */
  function TargetOf(row: Row): seq<Target> {
    if row.ip == "" then [] else [Target(row.ip, if row.port > 0 then row.port else DEFAULT_PORT)]
  }

  function TargetsOf(rows: seq<Row>): seq<Target> {
    FlatMap(TargetOf, rows)
  }

  method BuildTargets(rows: seq<Row>) returns (targets: seq<Target>)
    ensures targets == TargetsOf(rows)
  {
    targets := [];
    for i := 0 to |rows|
      invariant targets == TargetsOf(rows[..i])
    {
      assert rows[..i + 1] == rows[..i] + [rows[i]];
      FlatMapConcat(TargetOf, rows[..i], [rows[i]]);
      FlatMapOne(TargetOf, rows[i]);
      if rows[i].ip == "" {
        continue;
      }
      var port := DEFAULT_PORT;
      if rows[i].port > 0 {
        port := rows[i].port;
      }
      targets := targets + [Target(rows[i].ip, port)];
    }
    assert rows[..|rows|] == rows;
  }

  ghost predicate Addressed(targets: seq<Target>) {
    forall i :: 0 <= i < |targets| ==> targets[i].ip != ""
  }

  lemma {:induction false} TargetsHaveAddresses(rows: seq<Row>, t: Target)
    requires t in TargetsOf(rows)
    ensures t.ip != ""
  {
    if t !in TargetOf(rows[0]) {
      TargetsHaveAddresses(rows[1..], t);
    }
  }

  /** Every row with an address becomes a target in its place; a recorded port is kept, a missing
      one is 10004.  Other rows leave no trace. */
  lemma TargetsFollowRows(before: seq<Row>, row: Row, after: seq<Row>)
    ensures var port := if row.port > 0 then row.port else 10004;
            var own := if row.ip == "" then [] else [Target(row.ip, port)];
            TargetsOf(before + ([row] + after)) == TargetsOf(before) + (own + TargetsOf(after))
  {
    FlatMapMiddle(TargetOf, before, row, after);
  }

  lemma {:induction false} NoTargetsIff(rows: seq<Row>)
    ensures TargetsOf(rows) == [] <==> forall i :: 0 <= i < |rows| ==> rows[i].ip == ""
  {
    if rows != [] {
      NoTargetsIff(rows[1..]);
      assert forall i :: 0 < i < |rows| ==> rows[i] == rows[1..][i - 1];
    }
  }

  predicate TargetLe(a: Target, b: Target) {
    if a.ip == b.ip then a.port <= b.port else LexLe(a.ip, b.ip)
  }

  lemma TargetLeIsTotalOrder()
    ensures TotalOrder(TargetLe)
  {
    LexIsTotalOrder();
    forall a: Target, b: Target ensures TargetLe(a, b) || TargetLe(b, a) {
      assert LexLe(a.ip, b.ip) || LexLe(b.ip, a.ip);
    }
    forall a: Target, b: Target | TargetLe(a, b) && TargetLe(b, a) ensures a == b {
      assert LexLe(a.ip, b.ip) && LexLe(b.ip, a.ip) ==> a.ip == b.ip;
    }
    forall a: Target, b: Target, c: Target | TargetLe(a, b) && TargetLe(b, c) ensures TargetLe(a, c) {
      assert LexLe(a.ip, b.ip) && LexLe(b.ip, c.ip) ==> LexLe(a.ip, c.ip);
      assert LexLe(a.ip, b.ip) && LexLe(b.ip, a.ip) ==> a.ip == b.ip;
    }
  }

  // ----- Canonical order -----

  /** The first target on this machine, or -1. */
  function LocalIndex(targets: seq<Target>, local: string): (i: int)
    ensures -1 <= i < |targets|
    ensures i >= 0 ==> local != "" && targets[i].ip == local
    ensures forall j :: 0 <= j < i ==> targets[j].ip != local
    ensures i < 0 ==> local == "" || forall j :: 0 <= j < |targets| ==> targets[j].ip != local
  {
    if local == "" || targets == [] then -1
    else if targets[0].ip == local then 0
    else var i := LocalIndex(targets[1..], local); if i < 0 then -1 else i + 1
  }

  function Leaders(targets: seq<Target>, local: int, hash: int): seq<Target>
    requires -1 <= local < |targets| && 0 <= hash < |targets|
  {
    (if local >= 0 then [targets[local]] else []) + (if hash != local then [targets[hash]] else [])
  }

  /** Local gateway first, then the one the affinity hash selects, then the rest. */
  function Ordered(targets: seq<Target>, local: string, hash: nat): seq<Target>
    requires targets != []
  {
    var l := LocalIndex(targets, local);
    var h := hash % |targets|;
    Leaders(targets, l, h) + Keep(targets, l, h, 0)
  }

  method FindLocal(targets: seq<Target>, local: string) returns (i: int)
    ensures i == LocalIndex(targets, local)
  {
    i := -1;
    if local != "" {
      for j := 0 to |targets|
        invariant forall k :: 0 <= k < j ==> targets[k].ip != local
        invariant i == -1
      {
        if targets[j].ip == local {
          i := j;
          break;
        }
      }
    }
    FirstLocalIsUnique(targets, local, i);
  }

  method OrderTargets(targets: seq<Target>, local: string, hash: nat) returns (ordered: seq<Target>)
    requires targets != []
    ensures ordered == Ordered(targets, local, hash)
  {
    ordered := [];
    var localIdx := FindLocal(targets, local);
    if localIdx >= 0 {
      ordered := ordered + [targets[localIdx]];
    }
    var hashIdx := hash % |targets|;
    if hashIdx != localIdx {
      ordered := ordered + [targets[hashIdx]];
    }
    ghost var leaders := ordered;
    assert leaders == Leaders(targets, localIdx, hashIdx);
    for i := 0 to |targets|
      invariant ordered + Keep(targets, localIdx, hashIdx, i) == leaders + Keep(targets, localIdx, hashIdx, 0)
    {
      if i != localIdx && i != hashIdx {
        assert Keep(targets, localIdx, hashIdx, i) == [targets[i]] + Keep(targets, localIdx, hashIdx, i + 1);
        ordered := ordered + [targets[i]];
      }
    }
  }

  lemma {:induction false} FirstLocalIsUnique(targets: seq<Target>, local: string, i: int)
    requires -1 <= i < |targets|
    requires i >= 0 ==> local != "" && targets[i].ip == local && forall j :: 0 <= j < i ==> targets[j].ip != local
    requires i < 0 ==> local == "" || forall j :: 0 <= j < |targets| ==> targets[j].ip != local
    ensures LocalIndex(targets, local) == i
  {
    if local != "" && targets != [] && targets[0].ip != local {
      FirstLocalIsUnique(targets[1..], local, if i < 0 then i else i - 1);
    }
  }

  lemma LeadersThenRest(targets: seq<Target>, l: int, h: int)
    requires -1 <= l < |targets| && 0 <= h < |targets|
    ensures multiset(Leaders(targets, l, h) + Keep(targets, l, h, 0)) == multiset(targets)
  {
    assert targets[0..] == targets;
    if l < 0 || l == h {
      KeepAllButOne(targets, l, h, 0);
      assert Leaders(targets, l, h) == [targets[h]];
    } else {
      assert Leaders(targets, l, h) == [targets[l], targets[h]];
      if l < h {
        KeepAllButTwo(targets, l, h, 0);
      } else {
        KeepAllButTwo(targets, h, l, 0);
        KeepSwap(targets, l, h, 0);
      }
    }
  }

  /** Nothing is dropped or tried twice. */
  lemma OrderedPermutes(targets: seq<Target>, local: string, hash: nat)
    requires targets != []
    ensures multiset(Ordered(targets, local, hash)) == multiset(targets)
    ensures |Ordered(targets, local, hash)| == |targets|
  {
    var l, h := LocalIndex(targets, local), hash % |targets|;
    LeadersThenRest(targets, l, h);
    var r := Ordered(targets, local, hash);
    assert |r| == |multiset(r)| == |multiset(targets)| == |targets|;
  }

  /** The local gateway leads, and the hash-selected one comes first or directly after it. */
  lemma OrderedLeaders(targets: seq<Target>, local: string, hash: nat)
    requires targets != []
    ensures var r, h := Ordered(targets, local, hash), targets[hash % |targets|];
            && r != []
            && (local != "" && (exists t :: t in targets && t.ip == local) ==> r[0].ip == local)
            && (r[0] == h || (|r| > 1 && r[1] == h && r[0].ip == local))
  {
  }

  /** Which target comes where: the first one with the local address, if there is one, then the
      one the hash selects, unless it is the same, then all others in their order. */
  ghost predicate Affine(targets: seq<Target>, local: string, hash: nat, at: seq<nat>)
    requires targets != []
  {
    var h := hash % |targets|;
    && |at| == |targets| && Distinct(at) && (forall k :: 0 <= k < |at| ==> at[k] < |targets|)
    && if local == "" || (forall j :: 0 <= j < |targets| ==> targets[j].ip != local) then
         at[0] == h && Increasing(at[1..])
       else
         && targets[at[0]].ip == local && (forall j :: 0 <= j < at[0] ==> targets[j].ip != local)
         && if at[0] == h then Increasing(at[1..]) else |at| > 1 && at[1] == h && Increasing(at[2..])
  }

  lemma LeadersApart(lead: seq<nat>, rest: seq<nat>)
    requires Distinct(lead) && Increasing(rest) && forall i :: 0 <= i < |lead| ==> lead[i] !in rest
    ensures Distinct(lead + rest) && (lead + rest)[|lead|..] == rest
  {
  }

  lemma OrderIsAffine(targets: seq<Target>, local: string, hash: nat) returns (at: seq<nat>)
    requires targets != []
    ensures Affine(targets, local, hash, at)
    ensures |Ordered(targets, local, hash)| == |at|
    ensures forall k :: 0 <= k < |at| ==> Ordered(targets, local, hash)[k] == targets[at[k]]
  {
    var l, h := LocalIndex(targets, local), hash % |targets|;
    var rest := KeptAt(|targets|, l, h, 0);
    KeptAtIncreases(|targets|, l, h, 0);
    KeepIsKeptAt(targets, l, h, 0);
    var lead: seq<nat> := if l < 0 || l == h then [h] else [l, h];
    LeadersApart(lead, rest);
    at := lead + rest;
    OrderedAt(targets, l, h, lead, rest);
    OrderedPermutes(targets, local, hash);
  }

  lemma OrderedAt(targets: seq<Target>, l: int, h: int, lead: seq<nat>, rest: seq<nat>)
    requires -1 <= l < |targets| && 0 <= h < |targets|
    requires lead == if l < 0 || l == h then [h] else [l, h]
    requires |rest| == |Keep(targets, l, h, 0)|
    requires forall k :: 0 <= k < |rest| ==> rest[k] < |targets| && Keep(targets, l, h, 0)[k] == targets[rest[k]]
    ensures var ordered, at := Leaders(targets, l, h) + Keep(targets, l, h, 0), lead + rest;
            |ordered| == |at| && forall k :: 0 <= k < |at| ==> at[k] < |targets| && ordered[k] == targets[at[k]]
  {
  }

  // ----- Selection -----

  type Circuits = map<string, Breaker>

  function Key(t: Target): string {
    "ns:" + t.ip
  }

  /** Targets share a breaker exactly when they share an address. */
  lemma KeysTellAddresses(a: Target, b: Target)
    ensures Key(a) == Key(b) <==> a.ip == b.ip
  {
    assert Key(a)[3..] == a.ip && Key(b)[3..] == b.ip;
  }

  /** A target without a breaker gets a new one. */
  function CircuitOf(circuits: Circuits, key: string): Breaker {
    if key in circuits then circuits[key] else NEW_BREAKER
  }

  /** The first target in order whose circuit lets a request through; the length of the
      list when none does. */
  function FirstOpenTo(circuits: Circuits, ordered: seq<Target>, now: real): (k: nat)
    ensures k <= |ordered|
    ensures forall i :: 0 <= i < k ==> !Lets(CircuitOf(circuits, Key(ordered[i])), now)
    ensures k < |ordered| ==> Lets(CircuitOf(circuits, Key(ordered[k])), now)
  {
    if ordered == [] then 0
    else if Lets(CircuitOf(circuits, Key(ordered[0])), now) then 0
    else 1 + FirstOpenTo(circuits, ordered[1..], now)
  }

  lemma {:induction false} FirstOpenIsUnique(circuits: Circuits, ordered: seq<Target>, now: real, k: nat)
    requires k <= |ordered|
    requires forall i :: 0 <= i < k ==> !Lets(CircuitOf(circuits, Key(ordered[i])), now)
    requires k < |ordered| ==> Lets(CircuitOf(circuits, Key(ordered[k])), now)
    ensures FirstOpenTo(circuits, ordered, now) == k
  {
  }

  /** Only the circuit of the chosen target moves; it alone may be newly created. */
  function AfterSelect(circuits: Circuits, ordered: seq<Target>, now: real): Circuits {
    var k := FirstOpenTo(circuits, ordered, now);
    if k == |ordered| then circuits
    else var key := Key(ordered[k]); circuits[key := AfterAllow(CircuitOf(circuits, key), now)]
  }

  class Registry {
    var breakers: map<string, CircuitBreaker>

    constructor ()
      ensures Valid() && View() == map[] && breakers == map[]
    {
      breakers := map[];
    }

    /** No two targets share a breaker. */
    ghost predicate Valid()
      reads this
    {
      forall k, m :: k in breakers && m in breakers && k != m ==> breakers[k] != breakers[m]
    }

    ghost function View(): Circuits
      reads this, breakers.Values
    {
      map key | key in breakers :: breakers[key].View()
    }

    method Get(target: string) returns (cb: CircuitBreaker)
      requires Valid()
      modifies this
      ensures Valid() && target in breakers && breakers[target] == cb
      ensures cb.View() == CircuitOf(old(View()), target)
      ensures target in old(breakers) ==> breakers == old(breakers)
      ensures target !in old(breakers) ==> fresh(cb) && breakers == old(breakers)[target := cb]
      ensures View() == old(View())[target := CircuitOf(old(View()), target)]
    {
      if target in breakers {
        return breakers[target];
      }
      cb := new CircuitBreaker();
      breakers := breakers[target := cb];
    }

    /** One turn of the selection loop: fetch the breaker, ask it. */
    method Try(target: string, now: real) returns (ok: bool, cb: CircuitBreaker)
      requires Valid()
      modifies this, breakers.Values
      ensures Valid() && target in breakers && breakers[target] == cb
      ensures target in old(breakers) ==> breakers == old(breakers)
      ensures ok == Lets(CircuitOf(old(View()), target), now)
      ensures View() == old(View())[target := AfterAllow(CircuitOf(old(View()), target), now)]
    {
      cb := Get(target);
      label got:
      ok := cb.Allow(now);
      assert forall k :: k in breakers && k != target ==> breakers[k].View() == old@got(breakers[k].View());
    }

    method Select(ordered: seq<Target>, now: real) returns (selected: Target, cb: CircuitBreaker?)
      requires Valid()
      requires Addressed(ordered)
      modifies this, breakers.Values
      ensures Valid() && View() == AfterSelect(old(View()), ordered, now)
      ensures var k := FirstOpenTo(old(View()), ordered, now);
              if k == |ordered| then selected == NO_TARGET && cb == null
              else selected == ordered[k] && Key(selected) in breakers && cb == breakers[Key(selected)]
      ensures selected.ip == "" <==>
                forall i :: 0 <= i < |ordered| ==> !Lets(CircuitOf(old(View()), Key(ordered[i])), now)
    {
      selected, cb := NO_TARGET, null;
      ghost var circuits := View();
      var i := 0;
      while i < |ordered|
        invariant 0 <= i <= |ordered|
        invariant Valid() && breakers == old(breakers) && View() == circuits
        invariant forall j :: 0 <= j < i ==> !Lets(CircuitOf(circuits, Key(ordered[j])), now)
      {
        var ok, candidate := Try(Key(ordered[i]), now);
        if ok {
          FirstOpenIsUnique(circuits, ordered, now, i);
          return ordered[i], candidate;
        }
        assert Key(ordered[i]) in circuits;
        i := i + 1;
      }
      FirstOpenIsUnique(circuits, ordered, now, i);
    }
  }

  // ----- The request handler -----

  datatype Outcome = NotFound | NoGateway | AllCircuitsOpen | Forward(target: Target)

  /** The list the breaker loop walks. */
  function Canonical(targets: seq<Target>, local: string, hash: nat): seq<Target>
    requires targets != []
  {
    SortPermutes(TargetLe, targets);
    Ordered(Sort(TargetLe, targets), local, hash)
  }

  /** The list in terms of the targets: put into ascending order of addresses and ports, then
      local one, hash-selected one, others. */
  lemma CanonicalIsAffine(targets: seq<Target>, local: string, hash: nat) returns (base: seq<Target>, at: seq<nat>)
    requires targets != []
    ensures multiset(base) == multiset(targets) && base != []
    ensures forall i, j :: 0 <= i < j < |base| ==>
              Precedes(base[i].ip, base[j].ip) || (base[i].ip == base[j].ip && base[i].port <= base[j].port)
    ensures Affine(base, local, hash, at) && |Canonical(targets, local, hash)| == |at|
    ensures forall k :: 0 <= k < |at| ==> Canonical(targets, local, hash)[k] == base[at[k]]
  {
    base := Sort(TargetLe, targets);
    TargetLeIsTotalOrder();
    SortSorts(TargetLe, targets);
    SortPermutes(TargetLe, targets);
    at := OrderIsAffine(base, local, hash);
    forall i, j | 0 <= i < j < |base|
      ensures Precedes(base[i].ip, base[j].ip) || (base[i].ip == base[j].ip && base[i].port <= base[j].port)
    {
      assert TargetLe(base[i], base[j]);
      LexIsFirstDifference(base[i].ip, base[j].ip);
    }
  }

  lemma CanonicalHaveAddresses(targets: seq<Target>, local: string, hash: nat)
    requires targets != [] && Addressed(targets)
    ensures Addressed(Canonical(targets, local, hash))
  {
    SortPermutes(TargetLe, targets);
    OrderedPermutes(Sort(TargetLe, targets), local, hash);
    var ordered := Canonical(targets, local, hash);
    forall i | 0 <= i < |ordered| ensures ordered[i].ip != "" {
      assert ordered[i] in multiset(targets);
    }
  }

  /** `cached` is what the target cache holds, [] on a miss; `answer` is what the database
      would answer, nothing if the query fails. */
  method Lookup(cached: seq<Target>, answer: Option<seq<Row>>) returns (targets: seq<Target>, found: bool)
    requires Addressed(cached)
    ensures targets == Known(cached, answer)
    ensures found == (cached != [] || RowsOf(answer) != [])
    ensures Addressed(targets)
  {
    targets, found := cached, true;
    if targets == [] {
      if answer.None? || answer.value == [] {
        return [], false;
      }
      targets := BuildTargets(answer.value);
      forall i | 0 <= i < |targets| ensures targets[i].ip != "" {
        TargetsHaveAddresses(answer.value, targets[i]);
      }
    }
  }

  function RowsOf(answer: Option<seq<Row>>): seq<Row> {
    if answer.Some? then answer.value else []
  }

  function Known(cached: seq<Target>, answer: Option<seq<Row>>): seq<Target> {
    if cached != [] then cached else TargetsOf(RowsOf(answer))
  }

  /** What the handler answers: 404 without rows or when the query fails, 503 without a usable
      row or with every circuit refusing, else the first target in order that is let through. */
  function Verdict(circuits: Circuits, targets: seq<Target>, rows: seq<Row>, local: string, hash: nat, now: real)
    : Outcome
  {
    if targets == [] then
      if rows == [] then NotFound else NoGateway
    else
      var ordered := Canonical(targets, local, hash);
      var k := FirstOpenTo(circuits, ordered, now);
      if k == |ordered| then AllCircuitsOpen else Forward(ordered[k])
  }

  /** With every target's circuit refusing nothing is sent and nothing changes; otherwise the
      request goes to a target that lets it through, every earlier one refusing, and that
      target's circuit alone has answered. */
  ghost predicate SentToFirstAdmitting(circuits: Circuits, ordered: seq<Target>, now: real,
                                       outcome: Outcome, after: Circuits) {
    if forall i :: 0 <= i < |ordered| ==> !Lets(CircuitOf(circuits, Key(ordered[i])), now) then
      outcome == AllCircuitsOpen && after == circuits
    else
      exists k :: 0 <= k < |ordered| && outcome == Forward(ordered[k])
                  && Lets(CircuitOf(circuits, Key(ordered[k])), now)
                  && (forall i :: 0 <= i < k ==> !Lets(CircuitOf(circuits, Key(ordered[i])), now))
                  && after == circuits[Key(ordered[k]) := AfterAllow(CircuitOf(circuits, Key(ordered[k])), now)]
  }

  lemma VerdictSendsToFirstAdmitting(circuits: Circuits, targets: seq<Target>, rows: seq<Row>, local: string,
                                     hash: nat, now: real)
    requires targets != []
    ensures var ordered := Canonical(targets, local, hash);
            SentToFirstAdmitting(circuits, ordered, now, Verdict(circuits, targets, rows, local, hash, now),
                                 AfterSelect(circuits, ordered, now))
  {
  }

  /** The breaker that will be told the outcome is the one of the target sent to. */
  ghost predicate HoldsBreaker(registry: Registry, outcome: Outcome, cb: CircuitBreaker?)
    reads registry
  {
    if outcome.Forward? then Key(outcome.target) in registry.breakers && cb == registry.breakers[Key(outcome.target)]
    else cb == null
  }

  method Route(registry: Registry, cached: seq<Target>, answer: Option<seq<Row>>, local: string, hash: nat, now: real)
    returns (outcome: Outcome, cb: CircuitBreaker?)
    requires registry.Valid()
    requires Addressed(cached)
    modifies registry, registry.breakers.Values
    ensures registry.Valid() && HoldsBreaker(registry, outcome, cb)
    ensures var targets := Known(cached, answer);
            && outcome == Verdict(old(registry.View()), targets, RowsOf(answer), local, hash, now)
            && registry.View() == if targets == [] then old(registry.View())
                                  else AfterSelect(old(registry.View()), Canonical(targets, local, hash), now)
    ensures outcome == NotFound <==> cached == [] && (answer.None? || answer.value == [])
    ensures outcome == NoGateway <==>
              cached == [] && answer.Some? && answer.value != []
              && forall i :: 0 <= i < |answer.value| ==> answer.value[i].ip == ""
    ensures outcome.Forward? || outcome.AllCircuitsOpen? ==>
              var targets := if cached != [] then cached else TargetsOf(answer.value);
              && targets != []
              && SentToFirstAdmitting(old(registry.View()), Canonical(targets, local, hash), now, outcome,
                                      registry.View())
  {
    ghost var circuits := registry.View();
    var targets, found := Lookup(cached, answer);
    assert registry.View() == circuits;
    if !found {
      return NotFound, null;
    }
    NoTargetsIff(RowsOf(answer));
    if targets == [] {
      return NoGateway, null;
    }
    outcome, cb := Dispatch(registry, targets, RowsOf(answer), local, hash, now);
    VerdictSendsToFirstAdmitting(circuits, targets, RowsOf(answer), local, hash, now);
  }

  method Dispatch(registry: Registry, targets: seq<Target>, ghost rows: seq<Row>, local: string, hash: nat, now: real)
    returns (outcome: Outcome, cb: CircuitBreaker?)
    requires registry.Valid()
    requires targets != [] && Addressed(targets)
    modifies registry, registry.breakers.Values
    ensures registry.Valid() && HoldsBreaker(registry, outcome, cb)
    ensures outcome == Verdict(old(registry.View()), targets, rows, local, hash, now)
    ensures registry.View() == AfterSelect(old(registry.View()), Canonical(targets, local, hash), now)
  {
    SortPermutes(TargetLe, targets);
    CanonicalHaveAddresses(targets, local, hash);
    ghost var circuits := registry.View();
    var ordered := OrderTargets(Sort(TargetLe, targets), local, hash);
    assert ordered == Canonical(targets, local, hash) && registry.View() == circuits;
    var selected;
    selected, cb := registry.Select(ordered, now);
    outcome := if selected.ip == "" then AllCircuitsOpen else Forward(selected);
  }

  /** The order in which the database returns the rows makes no difference, nor does it
      matter whether they were cached in another order: same list, same choice, same
      circuits afterwards. */
  lemma RowOrderIsIrrelevant(a: seq<Row>, b: seq<Row>, local: string, hash: nat, circuits: Circuits, now: real)
    requires multiset(a) == multiset(b) && TargetsOf(a) != []
    ensures TargetsOf(b) != []
    ensures Canonical(TargetsOf(a), local, hash) == Canonical(TargetsOf(b), local, hash)
    ensures multiset(Canonical(TargetsOf(a), local, hash)) == multiset(TargetsOf(b))
    ensures AfterSelect(circuits, Canonical(TargetsOf(a), local, hash), now)
         == AfterSelect(circuits, Canonical(TargetsOf(b), local, hash), now)
    ensures Verdict(circuits, TargetsOf(a), a, local, hash, now) == Verdict(circuits, TargetsOf(b), b, local, hash, now)
  {
    FlatMapPermutes(TargetOf, a, b);
    assert TargetsOf(a)[0] in multiset(TargetsOf(b));
    TargetLeIsTotalOrder();
    SortIgnoresOrder(TargetLe, TargetsOf(a), TargetsOf(b));
    SortPermutes(TargetLe, TargetsOf(a));
    OrderedPermutes(Sort(TargetLe, TargetsOf(a)), local, hash);
  }

  // ----- Whole runs -----

  /** A request on its way through its list: the target it is at, whether it holds that
      target's breaker, and whether it was let through. */
  datatype Walk = Walk(ordered: seq<Target>, next: nat, fetched: bool, chosen: bool)

  datatype System = System(circuits: Circuits, walks: map<nat, Walk>)

  /** What happens under one lock: a request starts, fetches a breaker, or asks it, reading
      the clock; or an outcome is recorded for a target. */
  datatype Step =
    | Begins(id: nat, ordered: seq<Target>)
    | Fetches(id: nat)
    | Asks(id: nat, at: real)
    | Records(key: string, ok: bool, at: real)

  predicate Walking(s: System, id: nat) {
    id in s.walks && !s.walks[id].chosen && s.walks[id].next < |s.walks[id].ordered|
  }

  function KeyAt(s: System, id: nat): string
    requires Walking(s, id)
  {
    Key(s.walks[id].ordered[s.walks[id].next])
  }

  predicate CanAsk(s: System, id: nat) {
    Walking(s, id) && s.walks[id].fetched
  }

  /** A step that is not enabled changes nothing. */
  function Next(s: System, step: Step): System {
    match step
    case Begins(id, ordered) =>
      if id in s.walks then s else s.(walks := s.walks[id := Walk(ordered, 0, false, false)])
    case Fetches(id) =>
      if !Walking(s, id) then s else
      System(s.circuits[KeyAt(s, id) := CircuitOf(s.circuits, KeyAt(s, id))],
             s.walks[id := s.walks[id].(fetched := true)])
    case Asks(id, at) =>
      if !CanAsk(s, id) then s else
      var b, walk := CircuitOf(s.circuits, KeyAt(s, id)), s.walks[id];
      System(s.circuits[KeyAt(s, id) := AfterAllow(b, at)],
             s.walks[id := if Lets(b, at) then walk.(chosen := true)
                           else walk.(next := walk.next + 1, fetched := false)])
    case Records(key, ok, at) =>
      var b := CircuitOf(s.circuits, key);
      s.(circuits := s.circuits[key := if ok then AfterSuccess(b) else AfterFailure(b, at)])
  }

  function Run(steps: seq<Step>): System {
    if steps == [] then System(map[], map[]) else Next(Run(steps[..|steps| - 1]), steps[|steps| - 1])
  }

  function CallsBy(s: System, step: Step, key: string): seq<Call> {
    match step
    case Asks(id, at) => if CanAsk(s, id) && KeyAt(s, id) == key then [Allow(at)] else []
    case Records(k, ok, at) => if k == key then [if ok then Success else Failure(at)] else []
    case _ => []
  }

  /** The calls one target's breaker has seen. */
  function CallsTo(steps: seq<Step>, key: string): seq<Call> {
    if steps == [] then [] else
    var before := steps[..|steps| - 1];
    CallsTo(before, key) + CallsBy(Run(before), steps[|steps| - 1], key)
  }

  lemma StepActsOnCalled(s: System, step: Step, key: string)
    ensures var calls, b := CallsBy(s, step, key), CircuitOf(s.circuits, key);
            && |calls| <= 1
            && CircuitOf(Next(s, step).circuits, key) == if calls == [] then b else AfterCall(b, calls[0])
  {
  }

  /** Targets do not influence one another: over any interleaving of requests and outcomes,
      each target's circuit is what its own calls alone make it. */
  lemma {:induction false} CircuitsAreIndependent(steps: seq<Step>, key: string)
    ensures CircuitOf(Run(steps).circuits, key) == Replay(CallsTo(steps, key))
  {
    if steps != [] {
      var before, step := steps[..|steps| - 1], steps[|steps| - 1];
      CircuitsAreIndependent(before, key);
      StepActsOnCalled(Run(before), step, key);
      var h, calls := CallsTo(before, key), CallsBy(Run(before), step, key);
      if calls == [] {
        assert h + calls == h;
      } else {
        ReplayAppend(h, calls[0]);
        assert h + calls == h + [calls[0]];
      }
    }
  }

  /** By its own calls, a target has not failed five times since its last success, or nothing
      was let through since the last outcome and the wait is over. */
  ghost predicate Healthy(calls: seq<Call>, now: real) {
    !Tripped(calls) || (!GrantedSinceRecord(calls)
                        && forall failed :: LatestFailure(calls, failed) ==> now - failed >= OPEN_SECONDS)
  }

  lemma LetsIffHealthy(calls: seq<Call>, now: real)
    ensures Lets(Replay(calls), now) <==> Healthy(calls, now)
  {
    StateIsHistory(calls);
    forall failed | LatestFailure(calls, failed)
      ensures Lets(Replay(calls), now) <==>
                !Tripped(calls) || (!GrantedSinceRecord(calls) && now - failed >= OPEN_SECONDS)
    {
      AnswerIsHistory(calls, now, failed);
    }
  }

  /** However requests interleave, one is sent to the target it has come to if and only if
      that target is healthy by its own calls up to that moment; else it moves on to the next. */
  lemma ChosenTargetIsHealthy(steps: seq<Step>, id: nat, now: real)
    requires CanAsk(Run(steps), id)
    ensures var s := Run(steps);
            var walk := Next(s, Asks(id, now)).walks[id];
            && (walk.chosen <==> Healthy(CallsTo(steps, KeyAt(s, id)), now))
            && walk.next == s.walks[id].next + (if walk.chosen then 0 else 1)
  {
    var s := Run(steps);
    CircuitsAreIndependent(steps, KeyAt(s, id));
    LetsIffHealthy(CallsTo(steps, KeyAt(s, id)), now);
  }

  /** The breakers a request has asked, in order, with their answers. */
  datatype Answer = Answer(key: string, ok: bool)

  function AnswersTo(steps: seq<Step>, id: nat): seq<Answer> {
    if steps == [] then [] else
    var before, step := steps[..|steps| - 1], steps[|steps| - 1];
    if step.Asks? && step.id == id && CanAsk(Run(before), id)
    then AnswersTo(before, id)
         + [Answer(KeyAt(Run(before), id), Lets(CircuitOf(Run(before).circuits, KeyAt(Run(before), id)), step.at))]
    else AnswersTo(before, id)
  }

  /** However requests interleave, each asks its targets in order, every one once: the ones it
      has passed refused it, and the one it was sent to, if any, did not. */
  lemma {:induction false} WalksAskInOrder(steps: seq<Step>, id: nat)
    ensures id !in Run(steps).walks ==> AnswersTo(steps, id) == []
    ensures id in Run(steps).walks ==>
              var walk, answers := Run(steps).walks[id], AnswersTo(steps, id);
              && walk.next + (if walk.chosen then 1 else 0) == |answers| <= |walk.ordered|
              && forall i :: 0 <= i < |answers| ==> answers[i] == Answer(Key(walk.ordered[i]), i == walk.next)
  {
    if steps != [] {
      WalksAskInOrder(steps[..|steps| - 1], id);
    }
  }

  /** A request that nobody disturbs walks on from where it is. */
  function Finish(s: System, id: nat, now: real): System
    decreases if Walking(s, id) then |s.walks[id].ordered| - s.walks[id].next else 0
  {
    if Walking(s, id) then Finish(Next(Next(s, Fetches(id)), Asks(id, now)), id, now) else s
  }

  lemma RefusedMovesOn(s: System, id: nat, now: real)
    requires Walking(s, id) && !Lets(CircuitOf(s.circuits, KeyAt(s, id)), now)
    ensures var after, walk := Next(Next(s, Fetches(id)), Asks(id, now)), s.walks[id];
            after == System(s.circuits, s.walks[id := Walk(walk.ordered, walk.next + 1, false, false)])
  {
  }

  lemma LetsIsChosen(s: System, id: nat, now: real)
    requires Walking(s, id) && Lets(CircuitOf(s.circuits, KeyAt(s, id)), now)
    ensures var after, key := Next(Next(s, Fetches(id)), Asks(id, now)), KeyAt(s, id);
            after == System(s.circuits[key := AfterAllow(CircuitOf(s.circuits, key), now)],
                            s.walks[id := s.walks[id].(fetched := true, chosen := true)])
  {
  }

  /** Alone, it does what the selection loop does. */
  lemma {:induction false} UndisturbedWalkSelects(s: System, id: nat, now: real)
    requires id in s.walks && !s.walks[id].chosen && s.walks[id].next <= |s.walks[id].ordered|
    ensures var walk, end := s.walks[id], Finish(s, id, now);
            var rest := walk.ordered[walk.next..];
            var k := FirstOpenTo(s.circuits, rest, now);
            && end.circuits == AfterSelect(s.circuits, rest, now)
            && id in end.walks && end.walks[id].ordered == walk.ordered
            && end.walks[id].next == walk.next + k && end.walks[id].chosen == (k < |rest|)
    decreases |s.walks[id].ordered| - s.walks[id].next
  {
    if Walking(s, id) {
      var walk := s.walks[id];
      var rest, after := walk.ordered[walk.next..], Next(Next(s, Fetches(id)), Asks(id, now));
      assert rest[1..] == walk.ordered[walk.next + 1..];
      if Lets(CircuitOf(s.circuits, KeyAt(s, id)), now) {
        LetsIsChosen(s, id, now);
      } else {
        RefusedMovesOn(s, id, now);
        UndisturbedWalkSelects(after, id, now);
      }
    }
  }
}
