/**
 How far a request travels between nodes.  Forwarding nodes stamp X-Orama-Proxy-Node with
 their own id, and the first thing a node looks at is whether the stamp is there.
 */
module Hops {
  import opened Sequences

  /** One node's gateway: its own id (may be unset), whether it manages replicas, and which
      deployment answers on each local port that has a listener. */
  datatype Gateway = Gateway(peerId: string, managesReplicas: bool, listening: map<int, string>)

  type Cluster = map<string, Gateway>

  /** A deployment as every node reads it: its id, the home node's port, the home node, and the
      port on record for each active replica. */
  datatype Deployment = Deployment(id: string, port: int, home: string, replicas: map<string, int>)

  /** A name no gateway runs under forwards nothing. */
  function GatewayOf(c: Cluster, node: string): Gateway {
    if node in c then c[node] else Gateway("", false, map[])
  }

  // ----- Handlers wrapped with the home-node proxy -----

  /** Where a node may send a deployment-management request: nowhere once it is stamped or
      when it names no known deployment, else to the home node if that is another one. */
  function HomeForwards(c: Cluster, d: Deployment, known: bool, node: string, stamp: string): set<string> {
    var g := GatewayOf(c, node);
    if stamp != "" || !known then {}
    else if g.peerId != "" && d.home != "" && d.home != g.peerId then {d.home}
    else {}
  }

  /** A sequence of nodes a request visits, starting with stamp `stamp`. */
  ghost predicate HomeRoute(c: Cluster, d: Deployment, known: bool, p: seq<string>, stamp: string) {
    && p != []
    && (|p| > 1 ==> && p[1] in HomeForwards(c, d, known, p[0], stamp)
                    && HomeRoute(c, d, known, p[1..], GatewayOf(c, p[0]).peerId))
  }

  /** Wrapped handlers: whatever the cluster looks like, at most one node boundary is crossed,
      always from another node to the home node, and none by a stamped request. */
  lemma HomeProxyHopsOnce(c: Cluster, d: Deployment, known: bool, p: seq<string>, stamp: string)
    requires HomeRoute(c, d, known, p, stamp)
    ensures |p| <= 2
    ensures |p| == 2 ==> p[1] == d.home && GatewayOf(c, p[0]).peerId != d.home
    ensures stamp != "" ==> |p| == 1
  {
  }

  /** And that boundary is crossed: the route to the home node exists exactly for an unstamped
      request for a known deployment at a node with an id that is not its home. */
  lemma HomeProxyReachesHomeIff(c: Cluster, d: Deployment, known: bool, node: string, stamp: string)
    requires node in c
    ensures HomeRoute(c, d, known, [node, d.home], stamp) <==>
              stamp == "" && known && c[node].peerId != "" && d.home != "" && d.home != c[node].peerId
  {
    assert [node, d.home][1..] == [d.home];
    assert HomeRoute(c, d, known, [d.home], c[node].peerId);
  }

  // ----- Requests for the deployments themselves -----

  /** The nodes with a replica that has a port. */
  function Active(d: Deployment): set<string> {
    set n | n in d.replicas && d.replicas[n] > 0
  }

  /** The nodes tried across the cluster: every active replica but oneself, or the home node,
      if there is one, when no replica is on record. */
  function CrossNodeTargets(c: Cluster, d: Deployment, node: string): set<string> {
    var g := GatewayOf(c, node);
    if !g.managesReplicas || Active(d) == {} then
      if d.home == "" then {} else {d.home}
    else Active(d) - {g.peerId}
  }

  /** A request at a node, and whether it came with a stamp. */
  datatype Visit = Visit(node: string, stamped: bool)

  /** An unstamped request at a node that knows the home node to be another one. */
  predicate Elsewhere(c: Cluster, d: Deployment, v: Visit) {
    var g := GatewayOf(c, v.node);
    g.peerId != "" && d.home != "" && d.home != g.peerId && !v.stamped
  }

  predicate IsReplica(c: Cluster, d: Deployment, node: string) {
    var g := GatewayOf(c, node);
    g.managesReplicas && g.peerId in Active(d)
  }

  /** The local port a request is served from: a replica looks up its own only for a request
      that is unstamped; every other request goes to the home node's port. */
  function LocalPort(c: Cluster, d: Deployment, v: Visit): int {
    var g := GatewayOf(c, v.node);
    if Elsewhere(c, d, v) && IsReplica(c, d, v.node) then d.replicas[g.peerId] else d.port
  }

  /** Where a node may send a request.  Unstamped requests go out unless this node is home or
      a replica; a request served locally goes out when nothing answers on the local port,
      stamped or not. */
  function Forwards(c: Cluster, d: Deployment, v: Visit): set<string> {
    var g := GatewayOf(c, v.node);
    if d.port == 0 then {}
    else if Elsewhere(c, d, v) && !IsReplica(c, d, v.node) then CrossNodeTargets(c, d, v.node)
    else if LocalPort(c, d, v) !in g.listening && g.managesReplicas then CrossNodeTargets(c, d, v.node)
    else {}
  }

  // ----- The branches, by what the node knows -----

  /** Replicas with a port on record, other than this node; the home node if there are none or
      the node does not manage replicas. */
  lemma TargetsAreKnownNodes(c: Cluster, d: Deployment, node: string, m: string)
    requires node in c
    ensures var recorded := c[node].managesReplicas && exists n :: n in d.replicas && d.replicas[n] > 0;
            m in CrossNodeTargets(c, d, node) <==>
              if recorded then m in d.replicas && d.replicas[m] > 0 && m != c[node].peerId
              else d.home != "" && m == d.home
  {
    assert forall n :: n in Active(d) <==> n in d.replicas && d.replicas[n] > 0;
  }

  /** The node has a port on record for its own replica of a deployment that lives elsewhere. */
  predicate HasOwnPort(c: Cluster, d: Deployment, node: string) {
    && node in c && c[node].peerId != "" && c[node].managesReplicas && d.home != "" && d.home != c[node].peerId
    && c[node].peerId in d.replicas && d.replicas[c[node].peerId] > 0
  }

  /** A replica serves an unstamped request from its own port, and sends it out only when nothing
      answers there, whatever answers on the home node's port. */
  lemma ReplicaServesOwnPort(c: Cluster, d: Deployment, node: string)
    requires HasOwnPort(c, d, node) && d.port != 0
    ensures var own, v := d.replicas[c[node].peerId], Visit(node, false);
            && (own in c[node].listening ==> Forwards(c, d, v) == {})
            && (own !in c[node].listening ==> Forwards(c, d, v) == CrossNodeTargets(c, d, node))
            && (Misserves(c, d, v) <==> own in c[node].listening && c[node].listening[own] != d.id)
  {
  }

  /** A node that is neither home nor a replica sends an unstamped request out at once. */
  lemma StrangerSendsOut(c: Cluster, d: Deployment, node: string)
    requires node in c && c[node].peerId != "" && d.home != "" && d.home != c[node].peerId
    requires !HasOwnPort(c, d, node) && d.port != 0
    ensures Forwards(c, d, Visit(node, false)) == CrossNodeTargets(c, d, node)
    ensures Misserves(c, d, Visit(node, false)) <==> d.port in c[node].listening && c[node].listening[d.port] != d.id
  {
  }

  /** The home node, a node without an id, and any node that gets a stamped request serve from
      the home node's port, and send it out when nothing answers there and replicas are managed. */
  lemma OthersServeHomePort(c: Cluster, d: Deployment, v: Visit)
    requires v.node in c && d.port != 0
    requires v.stamped || c[v.node].peerId == "" || d.home == "" || d.home == c[v.node].peerId
    ensures var g := c[v.node];
            && (d.port in g.listening || !g.managesReplicas ==> Forwards(c, d, v) == {})
            && (d.port !in g.listening && g.managesReplicas ==> Forwards(c, d, v) == CrossNodeTargets(c, d, v.node))
            && (Misserves(c, d, v) <==> d.port in g.listening && g.listening[d.port] != d.id)
  {
  }

  /** A deployment without a port is neither served nor forwarded. */
  lemma NoPortNoHop(c: Cluster, d: Deployment, v: Visit)
    requires d.port == 0
    ensures Forwards(c, d, v) == {} && !Misserves(c, d, v)
  {
  }

  /** One boundary crossed; the stamp is the sender's id, and an unset id is no stamp. */
  predicate Hop(c: Cluster, d: Deployment, v: Visit, w: Visit) {
    w.node in Forwards(c, d, v) && w.stamped == (GatewayOf(c, v.node).peerId != "")
  }

  ghost predicate Route(c: Cluster, d: Deployment, p: seq<Visit>) {
    p != [] && forall i :: 0 < i < |p| ==> Hop(c, d, p[i - 1], p[i])
  }

  // ----- One boundary -----

  /** The node would pass a stamped request on: nothing answers there on the home node's port,
      whatever port its own replica has, and it knows another node to try. */
  predicate PassesOn(c: Cluster, d: Deployment, node: string) {
    var g := GatewayOf(c, node);
    d.port != 0 && d.port !in g.listening && g.managesReplicas && CrossNodeTargets(c, d, node) != {}
  }

  /** The node would send an unstamped request out: it is neither home nor a replica, or
      nothing answers on the port it serves from, and it knows another node to try. */
  predicate SendsOut(c: Cluster, d: Deployment, node: string) {
    var g, v := GatewayOf(c, node), Visit(node, false);
    && d.port != 0 && CrossNodeTargets(c, d, node) != {}
    && ((Elsewhere(c, d, v) && !IsReplica(c, d, node)) || (g.managesReplicas && LocalPort(c, d, v) !in g.listening))
  }

  ghost predicate HopsOnce(c: Cluster, d: Deployment, v: Visit) {
    forall p :: Route(c, d, p) && p[0] == v ==> |p| <= 2
  }

  /** A request crosses at most one boundary if and only if no node it can be forwarded to
      would pass it on; when the node it is at has no id, the forwarded request is unstamped
      and no node it can be forwarded to may send such a request out. */
  lemma HopsOnceIff(c: Cluster, d: Deployment, v: Visit)
    ensures GatewayOf(c, v.node).peerId != "" ==>
              (HopsOnce(c, d, v) <==> forall m :: m in Forwards(c, d, v) ==> !PassesOn(c, d, m))
    ensures GatewayOf(c, v.node).peerId == "" ==>
              (HopsOnce(c, d, v) <==> forall m :: m in Forwards(c, d, v) ==> !SendsOut(c, d, m))
  {
    var stamped := GatewayOf(c, v.node).peerId != "";
    if m :| m in Forwards(c, d, v) && Forwards(c, d, Visit(m, stamped)) != {} {
      var next :| next in Forwards(c, d, Visit(m, stamped));
      var p := [v, Visit(m, stamped), Visit(next, GatewayOf(c, m).peerId != "")];
      assert Hop(c, d, p[0], p[1]) && Hop(c, d, p[1], p[2]);
      assert Route(c, d, p);
    } else {
      forall p | Route(c, d, p) && p[0] == v ensures |p| <= 2 {
        assert |p| > 2 ==> Hop(c, d, p[0], p[1]) && Hop(c, d, p[1], p[2]);
      }
    }
  }

  /** In particular when on every gateway's node something answers on the home node's port,
      whichever deployment that is. */
  lemma SharedPortHopsOnce(c: Cluster, d: Deployment, v: Visit)
    requires forall m :: m in c ==> d.port in c[m].listening
    ensures HopsOnce(c, d, v)
  {
    HopsOnceIff(c, d, v);
  }

  /** Deployment d with home node h on port 10100 and a replica on r, port 10105; x runs
      neither. */
  const EXAMPLE := Deployment("d", 10100, "h", map["h" := 10100, "r" := 10105])

  function Nodes(h: map<int, string>, r: map<int, string>): Cluster {
    map["h" := Gateway("h", true, h), "r" := Gateway("r", true, r), "x" := Gateway("x", true, map[])]
  }

  /** Every replica answering on its own port is not enough: from x the request goes to r,
      which looks for the home node's port and passes it on to h. */
  lemma HealthyClusterHopsTwice()
    ensures var c, d := Nodes(map[10100 := "d"], map[10105 := "d"]), EXAMPLE;
            && (forall n :: n in Active(d) ==> d.replicas[n] in GatewayOf(c, n).listening)
            && Route(c, d, [Visit("x", false), Visit("r", true), Visit("h", true)])
            && !HopsOnce(c, d, Visit("x", false))
  {
    var c, d := Nodes(map[10100 := "d"], map[10105 := "d"]), EXAMPLE;
    var p := [Visit("x", false), Visit("r", true), Visit("h", true)];
    assert Active(d) == {"h", "r"};
    assert Hop(c, d, p[0], p[1]) && Hop(c, d, p[1], p[2]);
    assert Route(c, d, p);
  }

  // ----- Loops -----

  ghost predicate HasRoute(c: Cluster, d: Deployment, v: Visit, n: nat) {
    exists p :: Route(c, d, p) && p[0] == v && |p| == n + 1
  }

  /** There are routes of every length. */
  ghost predicate Endless(c: Cluster, d: Deployment, v: Visit) {
    forall n: nat :: HasRoute(c, d, v, n)
  }

  /** Some route returns to a visit it has made. */
  ghost predicate ComesBack(c: Cluster, d: Deployment, v: Visit) {
    exists p, i, j :: Route(c, d, p) && p[0] == v && 0 <= i < j < |p| && p[i] == p[j]
  }

  /** Walk the route once, then go round between `i` and `j`. */
  function Lap(i: nat, j: nat, k: nat): (r: nat)
    requires i < j
    ensures r < j && (k < j ==> r == k)
  {
    if k < j then k else Lap(i, j, k - (j - i))
  }

  lemma {:induction false} LapSteps(i: nat, j: nat, k: nat)
    requires i < j
    ensures Lap(i, j, k + 1) == if Lap(i, j, k) == j - 1 then i else Lap(i, j, k) + 1
  {
    if k >= j {
      LapSteps(i, j, k - (j - i));
    }
  }

  lemma CycleGivesRoute(c: Cluster, d: Deployment, p: seq<Visit>, i: nat, j: nat, n: nat) returns (q: seq<Visit>)
    requires Route(c, d, p) && i < j < |p| && p[i] == p[j]
    ensures Route(c, d, q) && q[0] == p[0] && |q| == n + 1
  {
    q := seq(n + 1, k requires k >= 0 => p[Lap(i, j, k)]);
    forall k | 0 < k < |q| ensures Hop(c, d, q[k - 1], q[k]) {
      var at := Lap(i, j, k - 1);
      LapSteps(i, j, k - 1);
      assert Hop(c, d, p[at], p[at + 1]);
    }
  }

  ghost function AllVisits(c: Cluster): set<Visit> {
    set node, stamped | node in c && stamped in {true, false} :: Visit(node, stamped)
  }

  lemma LongRouteComesBack(c: Cluster, d: Deployment, p: seq<Visit>)
    requires Route(c, d, p) && |p| == |AllVisits(c)| + 2
    ensures exists i, j :: 0 <= i < j < |p| && p[i] == p[j]
  {
    var inner := p[..|p| - 1];
    forall i | 0 <= i < |inner| ensures inner[i] in AllVisits(c) {
      assert Hop(c, d, p[i], p[i + 1]);
    }
    Pigeonhole(inner, AllVisits(c));
    var i, j :| 0 <= i < j < |inner| && inner[i] == inner[j];
    assert p[i] == p[j];
  }

  /** For any cluster at all: there are routes of every length if and only if a route can
      return to a node it has visited, stamped or not as before. */
  lemma EndlessIffComesBack(c: Cluster, d: Deployment, v: Visit)
    ensures Endless(c, d, v) <==> ComesBack(c, d, v)
  {
    if ComesBack(c, d, v) {
      var p, i, j :| Route(c, d, p) && p[0] == v && 0 <= i < j < |p| && p[i] == p[j];
      forall n: nat ensures HasRoute(c, d, v, n) {
        var q := CycleGivesRoute(c, d, p, i, j, n);
      }
    }
    if Endless(c, d, v) {
      assert HasRoute(c, d, v, |AllVisits(c)| + 1);
      var p :| Route(c, d, p) && p[0] == v && |p| == |AllVisits(c)| + 2;
      LongRouteComesBack(c, d, p);
    }
  }

  /** Every gateway runs under its own id. */
  ghost predicate Named(c: Cluster) {
    forall n :: n in c ==> c[n].peerId == n && n != ""
  }

  /** The node a loop can be entered through, and the two it runs between: with no replica on
      record the home node passes the request to itself, else two replicas that do not answer
      on the home node's port pass it to each other. */
  predicate Loops(c: Cluster, d: Deployment, m: string) {
    && PassesOn(c, d, m)
    && (Active(d) == {} || exists a, b | a in Active(d) && b in Active(d) ::
          a != b && PassesOn(c, d, a) && PassesOn(c, d, b))
  }

  /** With ids set, the cycles that can be reached are exactly these. */
  lemma EndlessIffLoops(c: Cluster, d: Deployment, v: Visit)
    requires Named(c)
    ensures Endless(c, d, v) <==> exists m :: m in Forwards(c, d, v) && Loops(c, d, m)
  {
    if m :| m in Forwards(c, d, v) && Loops(c, d, m) {
      LoopComesBack(c, d, v, m);
      EndlessIffComesBack(c, d, v);
    }
    if Endless(c, d, v) {
      assert HasRoute(c, d, v, 4);
      var p: seq<Visit> :| Route(c, d, p) && p[0] == v && |p| == 5;
      assert Hop(c, d, p[0], p[1]) && Hop(c, d, p[1], p[2]) && Hop(c, d, p[2], p[3]) && Hop(c, d, p[3], p[4]);
      assert PassesOn(c, d, p[1].node) && PassesOn(c, d, p[2].node) && PassesOn(c, d, p[3].node);
      assert Loops(c, d, p[1].node);
    }
  }

  lemma LoopComesBack(c: Cluster, d: Deployment, v: Visit, m: string)
    requires Named(c) && m in Forwards(c, d, v) && Loops(c, d, m)
    ensures ComesBack(c, d, v)
  {
    if Active(d) == {} {
      var p := [v, Visit(m, true), Visit(m, true)];
      assert Hop(c, d, p[0], p[1]) && Hop(c, d, p[1], p[2]);
      assert Route(c, d, p) && p[1] == p[2];
    } else {
      var a, b :| a in Active(d) && b in Active(d) && a != b && PassesOn(c, d, a) && PassesOn(c, d, b);
      var first, second := if a == m then b else a, if a == m then a else b;
      var p := [v, Visit(m, true), Visit(first, true), Visit(second, true), Visit(first, true)];
      assert Hop(c, d, p[0], p[1]) && Hop(c, d, p[1], p[2]) && Hop(c, d, p[2], p[3]) && Hop(c, d, p[3], p[4]);
      assert Route(c, d, p) && p[2] == p[4];
    }
  }

  /** In any cluster: two replicas that do not answer on the home node's port pass a stamped
      request back and forth without end, whatever their own ports do. */
  lemma SilentReplicasLoop(c: Cluster, d: Deployment, a: string, b: string)
    requires d.port != 0 && a != b && {a, b} <= Active(d) && "" !in {a, b}
    requires forall n :: n in {a, b} ==>
               var g := GatewayOf(c, n); g.peerId == n && g.managesReplicas && d.port !in g.listening
    ensures Endless(c, d, Visit(a, true))
  {
    var p := [Visit(a, true), Visit(b, true), Visit(a, true)];
    assert a in {a, b} && b in {a, b};
    assert Hop(c, d, p[0], p[1]) && Hop(c, d, p[1], p[2]);
    assert Route(c, d, p) && p[0] == p[2];
    EndlessIffComesBack(c, d, p[0]);
  }

  /** A home node with no replica on record and a dead process forwards to itself without end. */
  lemma DeadHomeLoops(c: Cluster, d: Deployment, stamped: bool)
    requires d.port != 0 && Active(d) == {} && d.home != ""
    requires var g := GatewayOf(c, d.home); g.peerId == d.home && g.managesReplicas && d.port !in g.listening
    ensures Endless(c, d, Visit(d.home, stamped))
  {
    var p := [Visit(d.home, stamped), Visit(d.home, true), Visit(d.home, true)];
    assert Hop(c, d, p[0], p[1]) && Hop(c, d, p[1], p[2]);
    assert Route(c, d, p) && p[1] == p[2];
    EndlessIffComesBack(c, d, p[0]);
  }

  /** So a live replica does not stop a loop: with the process at h down, a request entering at
      x is passed between r and h for ever, although r's replica answers on its own port. */
  lemma LiveReplicaLoops()
    ensures Endless(Nodes(map[], map[10105 := "d"]), EXAMPLE, Visit("x", false))
  {
    var c, d := Nodes(map[], map[10105 := "d"]), EXAMPLE;
    assert Active(d) == {"h", "r"};
    assert PassesOn(c, d, "h") by { assert "r" in CrossNodeTargets(c, d, "h"); }
    assert PassesOn(c, d, "r") by { assert "h" in CrossNodeTargets(c, d, "r"); }
    assert "r" in Forwards(c, d, Visit("x", false)) && Loops(c, d, "r");
    EndlessIffLoops(c, d, Visit("x", false));
  }

  // ----- Who answers -----

  /** Another deployment answers on the port this visit is served from.  A node that is neither
      home nor a replica tries that port too, when no other node could be reached. */
  predicate Misserves(c: Cluster, d: Deployment, v: Visit) {
    var g, port := GatewayOf(c, v.node), LocalPort(c, d, v);
    d.port != 0 && port in g.listening && g.listening[port] != d.id
  }

  /** Wherever the request can get to, only its own deployment answers it. */
  ghost predicate ReachesOnlyOwn(c: Cluster, d: Deployment, v: Visit) {
    forall p :: Route(c, d, p) && p[0] == v ==> !Misserves(c, d, p[|p| - 1])
  }

  /** A route that ends at another deployment needs no more than two boundaries: where the
      last node is known to somebody, the first one passing on knows it too. */
  lemma MisserveIsNear(c: Cluster, d: Deployment, p: seq<Visit>)
    requires Named(c) && Route(c, d, p) && |p| > 2 && Misserves(c, d, p[|p| - 1])
    ensures PassesOn(c, d, p[1].node) && p[|p| - 1].node in CrossNodeTargets(c, d, p[1].node)
    ensures p[|p| - 1].stamped
  {
    var n := |p| - 1;
    assert Hop(c, d, p[0], p[1]) && Hop(c, d, p[1], p[2]) && Hop(c, d, p[n - 1], p[n]);
    if n > 2 {
      assert Hop(c, d, p[n - 2], p[n - 1]);
    }
  }

  /** Another deployment answers here, or on the home node's port of a node the request can be
      forwarded to or of a node one of those would pass it on to. */
  ghost predicate OtherIsNear(c: Cluster, d: Deployment, v: Visit) {
    || Misserves(c, d, v)
    || (exists m :: m in Forwards(c, d, v) && Misserves(c, d, Visit(m, true)))
    || (exists m, n :: m in Forwards(c, d, v) && PassesOn(c, d, m) && n in CrossNodeTargets(c, d, m)
                       && Misserves(c, d, Visit(n, true)))
  }

  lemma NearIsReached(c: Cluster, d: Deployment, v: Visit) returns (p: seq<Visit>)
    requires Named(c) && OtherIsNear(c, d, v)
    ensures Route(c, d, p) && p[0] == v && Misserves(c, d, p[|p| - 1])
  {
    if Misserves(c, d, v) {
      p := [v];
    } else if m :| m in Forwards(c, d, v) && Misserves(c, d, Visit(m, true)) {
      p := [v, Visit(m, true)];
      assert Hop(c, d, p[0], p[1]);
    } else {
      var m, n :| m in Forwards(c, d, v) && PassesOn(c, d, m) && n in CrossNodeTargets(c, d, m)
                  && Misserves(c, d, Visit(n, true));
      p := [v, Visit(m, true), Visit(n, true)];
      assert Hop(c, d, p[0], p[1]) && Hop(c, d, p[1], p[2]);
    }
  }

  /** With ids set, a request is answered by its own deployment wherever it goes if and only if
      no other one answers that near. */
  lemma ReachesOnlyOwnIff(c: Cluster, d: Deployment, v: Visit)
    requires Named(c)
    ensures ReachesOnlyOwn(c, d, v) <==> !OtherIsNear(c, d, v)
  {
    if OtherIsNear(c, d, v) {
      var p := NearIsReached(c, d, v);
    } else {
      forall p | Route(c, d, p) && p[0] == v ensures !Misserves(c, d, p[|p| - 1]) {
        var last: Visit := p[|p| - 1];
        assert |p| > 1 ==> Hop(c, d, p[0], p[1]);
        if |p| > 2 && Misserves(c, d, last) {
          MisserveIsNear(c, d, p);
        }
      }
    }
  }

  /** Ports are handed out per node: with deployment e on port 10100 of r, a request for d that
      enters at x can be answered by e, although every replica of d answers on its own port. */
  lemma OtherDeploymentAnswers()
    ensures var c, d := Nodes(map[10100 := "d"], map[10105 := "d", 10100 := "e"]), EXAMPLE;
            && (forall n :: n in Active(d) ==>
                  d.replicas[n] in GatewayOf(c, n).listening && GatewayOf(c, n).listening[d.replicas[n]] == d.id)
            && !ReachesOnlyOwn(c, d, Visit("x", false))
  {
    var c, d := Nodes(map[10100 := "d"], map[10105 := "d", 10100 := "e"]), EXAMPLE;
    assert Active(d) == {"h", "r"};
    var p := [Visit("x", false), Visit("r", true)];
    assert Hop(c, d, p[0], p[1]) && Misserves(c, d, p[1]);
    assert Route(c, d, p) && p[|p| - 1] == p[1];
  }
}
