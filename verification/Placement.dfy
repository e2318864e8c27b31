/**
 Choosing nodes by load: the capacity score, the home node of a namespace, and the
 replica nodes of a deployment.  Scores are reals.
 */
module Placement {
  import opened Sequences
  import opened Wrappers

  const MAX_DEPLOYMENTS := 100.0
  const MAX_PORTS := 9900.0
  const MAX_MEMORY_MB := 8192.0
  const MAX_CPU_PERCENT := 400.0

  datatype Load = Load(deployments: nat, ports: nat, memoryMB: nat, cpuPercent: nat)

  datatype Capacity = Capacity(node: string, load: Load, score: real)

  /** The unused share of one resource, 0 once the cap is reached. */
  function Headroom(used: nat, cap: real): (share: real)
    requires cap > 0.0
    ensures 0.0 <= share <= 1.0
    ensures share > 0.0 <==> used as real < cap
    ensures used as real <= cap ==> share * cap == cap - used as real
  {
    var share := 1.0 - used as real / cap;
    assert share * cap == cap - used as real;
    if share < 0.0 then 0.0 else share
  }

  function Score(l: Load): (score: real)
    ensures 0.0 <= score <= 1.0
  {
    Headroom(l.deployments, MAX_DEPLOYMENTS) * 0.4
    + Headroom(l.ports, MAX_PORTS) * 0.2
    + Headroom(l.memoryMB, MAX_MEMORY_MB) * 0.2
    + Headroom(l.cpuPercent, MAX_CPU_PERCENT) * 0.2
  }

  /** What a node gives up when one resource is used to its cap: the weight of the resource
      times what was left of it.  Deployments count twice as much as the others. */
  lemma ScoreWeights(l: Load)
    ensures Score(l) - Score(l.(deployments := 100)) == 0.4 * Headroom(l.deployments, MAX_DEPLOYMENTS)
    ensures Score(l) - Score(l.(ports := 9900)) == 0.2 * Headroom(l.ports, MAX_PORTS)
    ensures Score(l) - Score(l.(memoryMB := 8192)) == 0.2 * Headroom(l.memoryMB, MAX_MEMORY_MB)
    ensures Score(l) - Score(l.(cpuPercent := 400)) == 0.2 * Headroom(l.cpuPercent, MAX_CPU_PERCENT)
    ensures Score(Load(0, 0, 0, 0)) == 1.0 && Score(Load(100, 9900, 8192, 400)) == 0.0
  {
  }

  function Min(a: int, b: int): int { if a < b then a else b }

  /** The score in numbers.  Use beyond 100 deployments, 9900 ports, 8192 MB or 400 percent does
      not count. */
  lemma ScoreInNumbers(l: Load)
    ensures var d, p := Min(l.deployments, 100), Min(l.ports, 9900);
            var m, c := Min(l.memoryMB, 8192), Min(l.cpuPercent, 400);
            Score(l) == 1.0 - 0.4 * (d as real / 100.0) - 0.2 * (p as real / 9900.0)
                        - 0.2 * (m as real / 8192.0) - 0.2 * (c as real / 400.0)
  {
    HeadroomInNumbers(l.deployments, 100);
    HeadroomInNumbers(l.ports, 9900);
    HeadroomInNumbers(l.memoryMB, 8192);
    HeadroomInNumbers(l.cpuPercent, 400);
  }

  lemma HeadroomInNumbers(used: nat, cap: nat)
    requires cap > 0
    ensures Headroom(used, cap as real) == 1.0 - Min(used, cap) as real / cap as real
  {
    if used > cap {
      assert cap as real / cap as real == 1.0;
    }
  }

  lemma HeadroomFalls(less: nat, more: nat, cap: real)
    requires cap > 0.0 && less <= more
    ensures Headroom(less, cap) >= Headroom(more, cap)
    ensures less < more && less as real < cap ==> Headroom(less, cap) > Headroom(more, cap)
  {
    var a, b := 1.0 - less as real / cap, 1.0 - more as real / cap;
    assert a * cap == cap - less as real && b * cap == cap - more as real;
    assert (a - b) * cap == more as real - less as real;
    assert a >= b && (less < more ==> a > b);
  }

  predicate NoHeavier(a: Load, b: Load) {
    && a.deployments <= b.deployments && a.ports <= b.ports
    && a.memoryMB <= b.memoryMB && a.cpuPercent <= b.cpuPercent
  }

  /** No heavier anywhere, and lighter on some resource it still has room for. */
  predicate Dominates(a: Load, b: Load) {
    && NoHeavier(a, b)
    && (|| (a.deployments < b.deployments && a.deployments as real < MAX_DEPLOYMENTS)
        || (a.ports < b.ports && a.ports as real < MAX_PORTS)
        || (a.memoryMB < b.memoryMB && a.memoryMB as real < MAX_MEMORY_MB)
        || (a.cpuPercent < b.cpuPercent && a.cpuPercent as real < MAX_CPU_PERCENT))
  }

  /** Among loads no heavier anywhere, the score tells exactly the dominated ones apart. */
  lemma ScoreFollowsLoad(a: Load, b: Load)
    requires NoHeavier(a, b)
    ensures Score(a) >= Score(b)
    ensures Score(a) > Score(b) <==> Dominates(a, b)
  {
    HeadroomFalls(a.deployments, b.deployments, MAX_DEPLOYMENTS);
    HeadroomFalls(a.ports, b.ports, MAX_PORTS);
    HeadroomFalls(a.memoryMB, b.memoryMB, MAX_MEMORY_MB);
    HeadroomFalls(a.cpuPercent, b.cpuPercent, MAX_CPU_PERCENT);
  }

  // ----- Best node -----

  /** `i` is the first of the highest-scoring entries. */
  ghost predicate IsBest(s: seq<Capacity>, i: int) {
    && 0 <= i < |s|
    && (forall j :: 0 <= j < |s| ==> s[j].score <= s[i].score)
    && (forall j :: 0 <= j < i ==> s[j].score < s[i].score)
  }

  method SelectBestNode(capacities: seq<Capacity>) returns (best: Option<Capacity>, ghost at: int)
    ensures best.None? <==> capacities == []
    ensures best.Some? ==> IsBest(capacities, at) && best.value == capacities[at]
  {
    at := 0;
    if capacities == [] {
      return None, 0;
    }
    var top := capacities[0];
    for i := 1 to |capacities|
      invariant 0 <= at < i && top == capacities[at]
      invariant IsBest(capacities[..i], at)
    {
      if capacities[i].score > top.score {
        top, at := capacities[i], i;
      }
    }
    assert capacities[..|capacities|] == capacities;
    best := Some(top);
  }

  /** Nodes whose capacity cannot be read are skipped. */
  function CapacityOf(node: string, loads: map<string, Load>): seq<Capacity> {
    if node in loads then [Capacity(node, loads[node], Score(loads[node]))] else []
  }

  /** The entries of the first `n` nodes. */
  function CapacitiesUpTo(nodes: seq<string>, loads: map<string, Load>, n: nat): seq<Capacity>
    requires n <= |nodes|
  {
    if n == 0 then [] else CapacitiesUpTo(nodes, loads, n - 1) + CapacityOf(nodes[n - 1], loads)
  }

  function CapacitiesOf(nodes: seq<string>, loads: map<string, Load>): seq<Capacity> {
    CapacitiesUpTo(nodes, loads, |nodes|)
  }

  predicate IsEntryOf(c: Capacity, node: string, loads: map<string, Load>) {
    node in loads && c == Capacity(node, loads[node], Score(loads[node]))
  }

  lemma {:induction false} CapacitiesGrow(nodes: seq<string>, loads: map<string, Load>, m: nat, n: nat)
    requires m <= n <= |nodes|
    ensures CapacitiesUpTo(nodes, loads, m) <= CapacitiesUpTo(nodes, loads, n)
  {
    if m < n {
      CapacitiesGrow(nodes, loads, m, n - 1);
    }
  }

  /** A readable node has its entry after those of the nodes before it. */
  lemma EntryOfNode(nodes: seq<string>, loads: map<string, Load>, p: nat)
    requires p < |nodes| && nodes[p] in loads
    ensures var k, all := |CapacitiesUpTo(nodes, loads, p)|, CapacitiesOf(nodes, loads);
            k < |all| && IsEntryOf(all[k], nodes[p], loads) && k < |CapacitiesUpTo(nodes, loads, p + 1)|
  {
    CapacitiesGrow(nodes, loads, p + 1, |nodes|);
  }

  /** Every entry is that of such a node. */
  lemma {:induction false} NodeOfEntry(nodes: seq<string>, loads: map<string, Load>, n: nat, k: nat) returns (p: nat)
    requires n <= |nodes| && k < |CapacitiesUpTo(nodes, loads, n)|
    ensures p < n && nodes[p] in loads && |CapacitiesUpTo(nodes, loads, p)| == k
  {
    if k < |CapacitiesUpTo(nodes, loads, n - 1)| {
      p := NodeOfEntry(nodes, loads, n - 1, k);
    } else {
      p := n - 1;
    }
  }

  /** Entries are in the order of the nodes: of two readable nodes, the earlier one has the
      earlier entry. */
  lemma CapacitiesFollowNodes(nodes: seq<string>, loads: map<string, Load>, p: nat, q: nat)
    requires p < q < |nodes| && nodes[p] in loads && nodes[q] in loads
    ensures var i, j := |CapacitiesUpTo(nodes, loads, p)|, |CapacitiesUpTo(nodes, loads, q)|;
            var all := CapacitiesOf(nodes, loads);
            i < j < |all| && IsEntryOf(all[i], nodes[p], loads) && IsEntryOf(all[j], nodes[q], loads)
  {
    EntryOfNode(nodes, loads, p);
    EntryOfNode(nodes, loads, q);
    CapacitiesGrow(nodes, loads, p + 1, q);
  }

  lemma CapacitiesListNodes(nodes: seq<string>, loads: map<string, Load>, c: Capacity)
    ensures c in CapacitiesOf(nodes, loads) <==> c.node in nodes && IsEntryOf(c, c.node, loads)
  {
    var all := CapacitiesOf(nodes, loads);
    if c in all {
      var k :| 0 <= k < |all| && all[k] == c;
      var p := NodeOfEntry(nodes, loads, |nodes|, k);
      EntryOfNode(nodes, loads, p);
    }
    if c.node in nodes && IsEntryOf(c, c.node, loads) {
      var p :| 0 <= p < |nodes| && nodes[p] == c.node;
      EntryOfNode(nodes, loads, p);
    }
  }

  method CalculateNodeCapacities(nodes: seq<string>, loads: map<string, Load>) returns (capacities: seq<Capacity>)
    ensures capacities == CapacitiesOf(nodes, loads)
  {
    capacities := [];
    for i := 0 to |nodes|
      invariant capacities == CapacitiesUpTo(nodes, loads, i)
    {
      if nodes[i] !in loads {
        continue;
      }
      capacities := capacities + [Capacity(nodes[i], loads[nodes[i]], Score(loads[nodes[i]]))];
    }
  }

  // ----- Home node -----

  /** A best entry is never dominated by another. */
  lemma BestIsUndominated(s: seq<Capacity>, i: int, j: int)
    requires IsBest(s, i) && 0 <= j < |s|
    requires s[i].score == Score(s[i].load) && s[j].score == Score(s[j].load)
    ensures !Dominates(s[j].load, s[i].load)
  {
    if NoHeavier(s[j].load, s[i].load) {
      ScoreFollowsLoad(s[j].load, s[i].load);
    }
  }

  /** The node a namespace gets when it counts as new. */
  ghost predicate IsBestNode(active: seq<string>, loads: map<string, Load>, node: string) {
    exists i :: IsBest(CapacitiesOf(active, loads), i) && CapacitiesOf(active, loads)[i].node == node
  }

  lemma BestNodeIsUnique(active: seq<string>, loads: map<string, Load>, a: string, b: string)
    requires IsBestNode(active, loads, a) && IsBestNode(active, loads, b)
    ensures a == b
  {
    var s := CapacitiesOf(active, loads);
    var i :| IsBest(s, i) && s[i].node == a;
    var j :| IsBest(s, j) && s[j].node == b;
    assert i == j;
  }

  lemma BestNodeIsUndominated(active: seq<string>, loads: map<string, Load>, node: string, n: string)
    requires IsBestNode(active, loads, node) && n in active && n in loads
    ensures node in active && node in loads && !Dominates(loads[n], loads[node])
  {
    var s := CapacitiesOf(active, loads);
    var i :| IsBest(s, i) && s[i].node == node;
    CapacitiesListNodes(active, loads, s[i]);
    CapacitiesListNodes(active, loads, Capacity(n, loads[n], Score(loads[n])));
    var j :| 0 <= j < |s| && s[j] == Capacity(n, loads[n], Score(loads[n]));
    BestIsUndominated(s, i, j);
  }

  /** What assigning a home answers, given the recorded one ("" if there is none) and whether
      its lookup got an answer: a namespace whose lookup failed counts as new. */
  ghost predicate Assigns(existing: string, answered: bool, active: seq<string>, loads: map<string, Load>,
                          node: Option<string>) {
    if answered && existing != "" then node == Some(existing)
    else if CapacitiesOf(active, loads) == [] then node == None
    else node.Some? && IsBestNode(active, loads, node.value)
  }

  function HomeOf(homes: map<string, string>, namespace: string): string {
    if namespace in homes then homes[namespace] else ""
  }

  class HomeNodes {
    var homes: map<string, string>

    constructor ()
      ensures homes == map[]
    {
      homes := map[];
    }

    method AssignHomeNode(namespace: string, answered: bool, active: seq<string>, loads: map<string, Load>)
      returns (node: Option<string>)
      modifies this
      ensures Assigns(HomeOf(old(homes), namespace), answered, active, loads, node)
      ensures homes == if node.None? || (answered && HomeOf(old(homes), namespace) != "") then old(homes)
                       else old(homes)[namespace := node.value]
    {
      if answered && namespace in homes && homes[namespace] != "" {
        return Some(homes[namespace]);
      }
      if active == [] {
        return None;
      }
      var capacities := CalculateNodeCapacities(active, loads);
      var best, at := SelectBestNode(capacities);
      if best.None? {
        return None;
      }
      homes := homes[namespace := best.value.node];
      return Some(best.value.node);
    }
  }

  /** A newly chosen home is active, readable and undominated; there is none only if no active
      node can be read. */
  lemma NewHomeIsUndominated(existing: string, answered: bool, active: seq<string>, loads: map<string, Load>,
                             node: Option<string>)
    requires !(answered && existing != "") && Assigns(existing, answered, active, loads, node)
    ensures node.None? <==> forall n :: n in active ==> n !in loads
    ensures node.Some? ==> && node.value in active && node.value in loads
                           && forall n :: n in active && n in loads ==> !Dominates(loads[n], loads[node.value])
  {
    var s := CapacitiesOf(active, loads);
    forall n | n in active && n in loads
      ensures s != [] && node.value in active && node.value in loads && !Dominates(loads[n], loads[node.value])
    {
      CapacitiesListNodes(active, loads, Capacity(n, loads[n], Score(loads[n])));
      BestNodeIsUndominated(active, loads, node.value, n);
    }
    if s != [] {
      CapacitiesListNodes(active, loads, s[0]);
    }
  }

  /** Of the active nodes that can be read, a newly chosen home is the first with the highest
      score. */
  lemma NewHomeIsFirstBest(existing: string, answered: bool, active: seq<string>, loads: map<string, Load>,
                           node: Option<string>) returns (p: nat)
    requires !(answered && existing != "") && Assigns(existing, answered, active, loads, node) && node.Some?
    ensures p < |active| && active[p] == node.value && active[p] in loads
    ensures forall q :: 0 <= q < |active| && active[q] in loads ==>
              && Score(loads[active[q]]) <= Score(loads[active[p]])
              && (q < p ==> Score(loads[active[q]]) < Score(loads[active[p]]))
  {
    var s := CapacitiesOf(active, loads);
    var i: nat :| IsBest(s, i) && s[i].node == node.value;
    p := NodeOfEntry(active, loads, |active|, i);
    EntryOfNode(active, loads, p);
    forall q | 0 <= q < |active| && active[q] in loads
      ensures && Score(loads[active[q]]) <= Score(loads[active[p]])
              && (q < p ==> Score(loads[active[q]]) < Score(loads[active[p]]))
    {
      EntryOfNode(active, loads, q);
      if q < p {
        CapacitiesFollowNodes(active, loads, q, p);
      }
    }
  }

  /** An existing home is returned if and only if its lookup is answered or it happens to be
      the node a new namespace would get. */
  lemma HomeIsKeptIff(existing: string, answered: bool, active: seq<string>, loads: map<string, Load>,
                      node: Option<string>)
    requires existing != "" && Assigns(existing, answered, active, loads, node)
    ensures node == Some(existing) <==> answered || IsBestNode(active, loads, existing)
  {
    if !answered && IsBestNode(active, loads, existing) {
      BestNodeIsUnique(active, loads, existing, node.value);
    }
  }

  /** A failed lookup moves a namespace from its half-full home to the idle node. */
  lemma FailedLookupMovesHome(node: Option<string>)
    requires Assigns("a", false, ["a", "b"], map["a" := Load(50, 0, 0, 0), "b" := Load(0, 0, 0, 0)], node)
    ensures node == Some("b")
  {
    var active, loads := ["a", "b"], map["a" := Load(50, 0, 0, 0), "b" := Load(0, 0, 0, 0)];
    var idle := Capacity("b", loads["b"], Score(loads["b"]));
    CapacitiesListNodes(active, loads, idle);
    BestNodeIsUndominated(active, loads, node.value, "b");
  }

  // ----- Replica nodes -----

  predicate ScoreGe(a: Capacity, b: Capacity) {
    a.score >= b.score
  }

  /** Highest score first; equal scores keep their order. */
  function Ranked(s: seq<Capacity>): seq<Capacity> {
    Sort(ScoreGe, s)
  }

  function WithScore(s: seq<Capacity>, score: real): seq<Capacity> {
    if s == [] then [] else (if s[0].score == score then [s[0]] else []) + WithScore(s[1..], score)
  }

  lemma WithScoreCons(x: Capacity, s: seq<Capacity>, score: real)
    ensures WithScore([x] + s, score) == (if x.score == score then [x] else []) + WithScore(s, score)
  {
  }

  lemma InsertCases(x: Capacity, s: seq<Capacity>)
    ensures s == [] || ScoreGe(x, s[0]) ==> Insert(ScoreGe, x, s) == [x] + s
    ensures s != [] && !ScoreGe(x, s[0]) ==> Insert(ScoreGe, x, s) == [s[0]] + Insert(ScoreGe, x, s[1..])
  {
  }

  lemma {:induction false} InsertIsStable(x: Capacity, s: seq<Capacity>, score: real)
    ensures WithScore(Insert(ScoreGe, x, s), score)
         == (if x.score == score then [x] else []) + WithScore(s, score)
  {
    InsertCases(x, s);
    if s == [] || ScoreGe(x, s[0]) {
      WithScoreCons(x, s, score);
    } else {
      InsertIsStable(x, s[1..], score);
      WithScoreCons(s[0], Insert(ScoreGe, x, s[1..]), score);
      assert s == [s[0]] + s[1..];
      WithScoreCons(s[0], s[1..], score);
    }
  }

  /** `Ranked` is the stable descending arrangement. */
  lemma {:induction false} RankedIsStableSort(s: seq<Capacity>, score: real)
    ensures SortedBy(ScoreGe, Ranked(s))
    ensures multiset(Ranked(s)) == multiset(s)
    ensures WithScore(Ranked(s), score) == WithScore(s, score)
  {
    SortSorts(ScoreGe, s);
    SortPermutes(ScoreGe, s);
    if s != [] {
      RankedIsStableSort(s[1..], score);
      InsertIsStable(s[0], Ranked(s[1..]), score);
    }
  }

  function Without(s: seq<Capacity>, i: int): seq<Capacity>
    requires 0 <= i < |s|
  {
    s[..i] + s[i + 1..]
  }

  /** Taking the best entry out is what ranking does first. */
  lemma {:induction false} BestComesFirst(s: seq<Capacity>, i: int)
    requires IsBest(s, i)
    ensures Ranked(s) == [s[i]] + Ranked(Without(s, i))
  {
    var rest := Ranked(s[1..]);
    InsertCases(s[0], rest);
    if i == 0 {
      assert Without(s, i) == s[1..];
      SortPermutes(ScoreGe, s[1..]);
      if rest != [] {
        assert rest[0] in multiset(s[1..]);
      }
    } else {
      BestComesFirst(s[1..], i - 1);
      RankedTail(s, i);
    }
  }

  lemma RankedTail(s: seq<Capacity>, i: int)
    requires 0 < i < |s|
    ensures Ranked(Without(s, i)) == Insert(ScoreGe, s[0], Ranked(Without(s[1..], i - 1)))
  {
    assert Without(s, i)[0] == s[0] && Without(s, i)[1..] == Without(s[1..], i - 1);
  }

  ghost predicate DistinctNodes(s: seq<Capacity>) {
    forall i, j :: 0 <= i < j < |s| ==> s[i].node != s[j].node
  }

  /** Entries of nodes other than `node`. */
  method DropNode(s: seq<Capacity>, node: string, ghost at: int) returns (rest: seq<Capacity>)
    requires 0 <= at < |s| && s[at].node == node && DistinctNodes(s)
    ensures rest == Without(s, at) && DistinctNodes(rest)
  {
    rest := [];
    for i := 0 to |s|
      invariant rest == if i <= at then s[..i] else s[..at] + s[at + 1..i]
    {
      if s[i].node != node {
        rest := rest + [s[i]];
      }
    }
  }

  method CandidateNodes(active: seq<string>, primary: string) returns (candidates: seq<string>)
    ensures candidates == Others(active, primary)
  {
    candidates := [];
    for i := 0 to |active|
      invariant candidates == OthersUpTo(active, primary, i)
    {
      if active[i] != primary {
        candidates := candidates + [active[i]];
      }
    }
  }

  /** The first `n` nodes without the primary. */
  function OthersUpTo<K(==)>(nodes: seq<K>, primary: K, n: nat): seq<K>
    requires n <= |nodes|
  {
    if n == 0 then [] else
    OthersUpTo(nodes, primary, n - 1) + if nodes[n - 1] != primary then [nodes[n - 1]] else []
  }

  function Others<K(==)>(nodes: seq<K>, primary: K): seq<K> {
    OthersUpTo(nodes, primary, |nodes|)
  }

  lemma {:induction false} OthersGrow<K>(nodes: seq<K>, primary: K, m: nat, n: nat)
    requires m <= n <= |nodes|
    ensures OthersUpTo(nodes, primary, m) <= OthersUpTo(nodes, primary, n)
  {
    if m < n {
      OthersGrow(nodes, primary, m, n - 1);
    }
  }

  /** A node other than the primary comes after those before it. */
  lemma OtherIsListed<K>(nodes: seq<K>, primary: K, p: nat)
    requires p < |nodes| && nodes[p] != primary
    ensures var k, all := |OthersUpTo(nodes, primary, p)|, Others(nodes, primary);
            k < |all| && all[k] == nodes[p] && k < |OthersUpTo(nodes, primary, p + 1)|
  {
    OthersGrow(nodes, primary, p + 1, |nodes|);
  }

  lemma {:induction false} ListedIsOther<K>(nodes: seq<K>, primary: K, n: nat, k: nat) returns (p: nat)
    requires n <= |nodes| && k < |OthersUpTo(nodes, primary, n)|
    ensures p < n && nodes[p] != primary && |OthersUpTo(nodes, primary, p)| == k
  {
    if k < |OthersUpTo(nodes, primary, n - 1)| {
      p := ListedIsOther(nodes, primary, n - 1, k);
    } else {
      p := n - 1;
    }
  }

  /** The others keep their order: the `j`th comes from a later place than the `i`th. */
  lemma OthersFollowNodes<K>(nodes: seq<K>, primary: K, i: nat, j: nat) returns (p: nat, q: nat)
    requires i < j < |Others(nodes, primary)|
    ensures p < q < |nodes| && nodes[p] == Others(nodes, primary)[i] && nodes[q] == Others(nodes, primary)[j]
    ensures nodes[p] != primary && nodes[q] != primary
  {
    p := ListedIsOther(nodes, primary, |nodes|, i);
    q := ListedIsOther(nodes, primary, |nodes|, j);
    OtherIsListed(nodes, primary, p);
    OtherIsListed(nodes, primary, q);
    if q <= p {
      OthersGrow(nodes, primary, q, p);
    }
  }

  /** The scored candidates for replicas of a deployment whose primary is `primary`. */
  function Candidates(active: seq<string>, primary: string, loads: map<string, Load>): seq<Capacity> {
    CapacitiesOf(Others(active, primary), loads)
  }

  lemma OthersDistinct<K>(nodes: seq<K>, primary: K)
    requires Distinct(nodes)
    ensures Distinct(Others(nodes, primary))
    ensures forall n :: n in Others(nodes, primary) <==> n in nodes && n != primary
  {
    var all := Others(nodes, primary);
    forall i, j | 0 <= i < j < |all| ensures all[i] != all[j] {
      var p, q := OthersFollowNodes(nodes, primary, i, j);
    }
    forall n ensures n in all <==> n in nodes && n != primary {
      if n in all {
        var k :| 0 <= k < |all| && all[k] == n;
        var p := ListedIsOther(nodes, primary, |nodes|, k);
        OtherIsListed(nodes, primary, p);
      }
      if n in nodes && n != primary {
        var p :| 0 <= p < |nodes| && nodes[p] == n;
        OtherIsListed(nodes, primary, p);
      }
    }
  }

  /** The `j`th entry comes from a later node than the `i`th. */
  lemma EntriesFollowNodes(nodes: seq<string>, loads: map<string, Load>, i: nat, j: nat) returns (p: nat, q: nat)
    requires i < j < |CapacitiesOf(nodes, loads)|
    ensures p < q < |nodes| && IsEntryOf(CapacitiesOf(nodes, loads)[i], nodes[p], loads)
    ensures IsEntryOf(CapacitiesOf(nodes, loads)[j], nodes[q], loads)
  {
    p := NodeOfEntry(nodes, loads, |nodes|, i);
    q := NodeOfEntry(nodes, loads, |nodes|, j);
    EntryOfNode(nodes, loads, p);
    EntryOfNode(nodes, loads, q);
    if q <= p {
      CapacitiesGrow(nodes, loads, q, p);
    }
  }

  lemma CapacitiesDistinct(nodes: seq<string>, loads: map<string, Load>)
    requires Distinct(nodes)
    ensures DistinctNodes(CapacitiesOf(nodes, loads))
  {
    var all := CapacitiesOf(nodes, loads);
    forall i, j | 0 <= i < j < |all| ensures all[i].node != all[j].node {
      var p, q := EntriesFollowNodes(nodes, loads, i, j);
    }
  }

  /** How many replicas the selection yields.  The loop compares its counter with a list
      that shrinks every round, so it stops after half of the candidates, rounded up. */
  function Picks(count: nat, candidates: nat): nat {
    Min(count, (candidates + 1) / 2)
  }

  /** The nodes of the first entries of a list. */
  ghost predicate NamesPrefix(selected: seq<string>, ranked: seq<Capacity>) {
    |selected| <= |ranked| && forall j :: 0 <= j < |selected| ==> selected[j] == ranked[j].node
  }

  method PickTop(all: seq<Capacity>, count: nat) returns (selected: seq<string>)
    requires DistinctNodes(all)
    ensures |selected| == Picks(count, |all|) && NamesPrefix(selected, Ranked(all))
  {
    var capacities := all;
    ghost var ranked := Ranked(all);
    SortPermutes(ScoreGe, all);
    selected := [];
    var i := 0;
    while i < count && i < |capacities|
      invariant 0 <= i <= Picks(count, |all|)
      invariant |capacities| == |all| - i
      invariant DistinctNodes(capacities)
      invariant |selected| == i && NamesPrefix(selected, ranked)
      invariant ranked[i..] == Ranked(capacities)
    {
      var best, at := SelectBestNode(capacities);
      BestComesFirst(capacities, at);
      assert ranked[i] == ranked[i..][0] && ranked[i + 1..] == ranked[i..][1..];
      selected := selected + [best.value.node];
      capacities := DropNode(capacities, best.value.node, at);
      i := i + 1;
    }
  }

  method SelectReplicaNodes(active: seq<string>, primary: string, loads: map<string, Load>, count: nat)
    returns (selected: seq<string>)
    requires Distinct(active)
    ensures var all := Candidates(active, primary, loads);
            |selected| == Picks(count, |all|) && NamesPrefix(selected, Ranked(all))
  {
    var candidates := CandidateNodes(active, primary);
    OthersDistinct(active, primary);
    CapacitiesDistinct(candidates, loads);
    if candidates == [] {
      return [];
    }
    var capacities := CalculateNodeCapacities(candidates, loads);
    selected := PickTop(capacities, count);
  }

  /** "Up to count" is met in full exactly when no more than half of the candidates,
      rounded up, are asked for, or there is at most one. */
  lemma FullCountIff(count: nat, candidates: nat)
    ensures Picks(count, candidates) == Min(count, candidates) <==> count <= (candidates + 1) / 2 || candidates <= 1
  {
  }

  /** Replicas are distinct active nodes, none of them the primary. */
  lemma ReplicasAreDistinct(active: seq<string>, primary: string, loads: map<string, Load>, selected: seq<string>)
    requires Distinct(active) && NamesPrefix(selected, Ranked(Candidates(active, primary, loads)))
    ensures Distinct(selected) && primary !in selected
    ensures forall i :: 0 <= i < |selected| ==> selected[i] in active && selected[i] in loads
  {
    var nodes := Others(active, primary);
    var all := CapacitiesOf(nodes, loads);
    OthersDistinct(active, primary);
    CapacitiesDistinct(nodes, loads);
    RankedDistinct(all);
    SortPermutes(ScoreGe, all);
    forall i | 0 <= i < |selected| ensures selected[i] in nodes && selected[i] in loads {
      assert Ranked(all)[i] in multiset(all);
      CapacitiesListNodes(nodes, loads, Ranked(all)[i]);
    }
  }

  lemma RankedDistinct(s: seq<Capacity>)
    requires DistinctNodes(s)
    ensures DistinctNodes(Ranked(s))
  {
    SortKeepsDistinct(ScoreGe, s);
    SortPermutes(ScoreGe, s);
    var r := Ranked(s);
    forall i, j | 0 <= i < j < |r| ensures r[i].node != r[j].node {
      assert r[i] in multiset(s) && r[j] in multiset(s);
    }
  }

  // ----- Ties -----

  /** `a` outranks `b`: a higher score, or the same one and an earlier place. */
  predicate Outranks(place: string -> int, a: Capacity, b: Capacity) {
    a.score > b.score || (a.score == b.score && place(a.node) < place(b.node))
  }

  ghost predicate InPlaces(place: string -> int, s: seq<Capacity>) {
    forall i, j :: 0 <= i < j < |s| ==> place(s[i].node) < place(s[j].node)
  }

  ghost predicate RankedBy(place: string -> int, s: seq<Capacity>) {
    forall i, j :: 0 <= i < j < |s| ==> Outranks(place, s[i], s[j])
  }

  lemma {:induction false} InsertRanks(place: string -> int, x: Capacity, s: seq<Capacity>)
    requires RankedBy(place, s) && forall j :: 0 <= j < |s| ==> place(x.node) < place(s[j].node)
    ensures RankedBy(place, Insert(ScoreGe, x, s))
  {
    InsertCases(x, s);
    if s != [] && !ScoreGe(x, s[0]) {
      InsertRanks(place, x, s[1..]);
      InsertPermutes(ScoreGe, x, s[1..]);
      var r := Insert(ScoreGe, x, s[1..]);
      forall j | 0 <= j < |r| ensures Outranks(place, s[0], r[j]) {
        assert r[j] in multiset(s[1..]) + multiset{x};
      }
    }
  }

  lemma {:induction false} RankingBreaksTies(place: string -> int, s: seq<Capacity>)
    requires InPlaces(place, s)
    ensures RankedBy(place, Ranked(s))
  {
    if s != [] {
      RankingBreaksTies(place, s[1..]);
      SortPermutes(ScoreGe, s[1..]);
      var rest := Ranked(s[1..]);
      forall j | 0 <= j < |rest| ensures place(s[0].node) < place(rest[j].node) {
        assert rest[j] in multiset(s[1..]);
      }
      InsertRanks(place, s[0], rest);
    }
  }

  /** The place of a node among the active ones. */
  function PlaceOf(active: seq<string>, node: string): int {
    if active == [] || active[0] == node then 0 else 1 + PlaceOf(active[1..], node)
  }

  lemma {:induction false} PlaceOfAt(active: seq<string>, p: nat)
    requires Distinct(active) && p < |active|
    ensures PlaceOf(active, active[p]) == p
  {
    if p > 0 {
      PlaceOfAt(active[1..], p - 1);
    }
  }

  lemma CandidatesInPlaces(active: seq<string>, primary: string, loads: map<string, Load>)
    requires Distinct(active)
    ensures InPlaces(node => PlaceOf(active, node), Candidates(active, primary, loads))
  {
    var others, all := Others(active, primary), Candidates(active, primary, loads);
    forall i, j | 0 <= i < j < |all| ensures PlaceOf(active, all[i].node) < PlaceOf(active, all[j].node) {
      var m, n := EntriesFollowNodes(others, loads, i, j);
      var p, q := OthersFollowNodes(active, primary, m, n);
      PlaceOfAt(active, p);
      PlaceOfAt(active, q);
    }
  }

  /** A node that could take a replica. */
  predicate CanHost(active: seq<string>, primary: string, loads: map<string, Load>, p: nat) {
    p < |active| && active[p] != primary && active[p] in loads
  }

  /** Each replica outranks every node left that could take one: its score is higher, or the
      same and it comes first among the active nodes. */
  lemma ReplicasAreFirstBest(active: seq<string>, primary: string, loads: map<string, Load>,
                             selected: seq<string>, i: nat, p: nat, q: nat)
    requires Distinct(active) && NamesPrefix(selected, Ranked(Candidates(active, primary, loads)))
    requires i < |selected| && p < |active| && active[p] == selected[i]
    requires CanHost(active, primary, loads, q) && active[q] !in selected[..i + 1]
    ensures CanHost(active, primary, loads, p)
    ensures Score(loads[active[p]]) > Score(loads[active[q]])
            || (Score(loads[active[p]]) == Score(loads[active[q]]) && p < q)
  {
    var all := Candidates(active, primary, loads);
    var ranked := Ranked(all);
    ReplicasAreDistinct(active, primary, loads, selected);
    SortPermutes(ScoreGe, all);
    assert forall k :: 0 <= k <= i ==> selected[..i + 1][k] == ranked[k].node;
    var entry := Capacity(active[q], loads[active[q]], Score(loads[active[q]]));
    OthersDistinct(active, primary);
    CapacitiesListNodes(Others(active, primary), loads, entry);
    assert entry in multiset(ranked);
    var j :| 0 <= j < |ranked| && ranked[j] == entry;
    assert ranked[i] in multiset(all);
    CapacitiesListNodes(Others(active, primary), loads, ranked[i]);
    CandidatesInPlaces(active, primary, loads);
    RankingBreaksTies(node => PlaceOf(active, node), all);
    PlaceOfAt(active, p);
    PlaceOfAt(active, q);
  }
}
