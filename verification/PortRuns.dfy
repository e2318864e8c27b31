/**
 Runs of the port allocator: how long a call holds its port, when the port is given out
 again, and every way in which a call can run out of retries.
 */
module PortRuns {
  import opened Sequences
  import opened PortAllocation

  // ----- An undisturbed allocation -----

  function Allocation(id: nat, node: string, deployment: string): seq<Step> {
    [Begin(id, node, deployment), Query(id), Insert(id)]
  }

  function LeastFree(s: System, node: string): int {
    FirstFree(PortsOn(s.table, node), USER_MIN_PORT)
  }

  function AfterAllocation(s: System, id: nat, node: string, deployment: string): System {
    var port := LeastFree(s, node);
    System(s.table + [Row(node, port, deployment)],
           s.calls[id := Call(node, deployment, 0, Done(port), |s.log|, |s.log|, [], 0)],
           s.log + [Insertion(id, node, port)])
  }

  lemma AllocationTakesLeast(s: System, id: nat, node: string, deployment: string)
    requires id !in s.calls && LeastFree(s, node) <= MAX_PORT
    ensures RunFrom(s, Allocation(id, node, deployment)) == AfterAllocation(s, id, node, deployment)
  {
    var begun := Next(s, Begin(id, node, deployment));
    RunFromOne(s, Begin(id, node, deployment));
    RunFromAppend(s, [Begin(id, node, deployment)], Query(id));
    RunFromAppend(s, [Begin(id, node, deployment), Query(id)], Insert(id));
    assert [Begin(id, node, deployment)] + [Query(id)] == [Begin(id, node, deployment), Query(id)];
    assert [Begin(id, node, deployment), Query(id)] + [Insert(id)] == Allocation(id, node, deployment);
    assert Next(begun, Query(id)).calls[id].phase == Chosen(LeastFree(s, node));
  }

  /** The same, with the steps by what matters about them. */
  lemma Allocate(s: System, id: nat, node: string, deployment: string) returns (steps: seq<Step>)
    requires id !in s.calls && LeastFree(s, node) <= MAX_PORT
    ensures RunFrom(s, steps) == AfterAllocation(s, id, node, deployment)
    ensures Clean(steps)
  {
    AllocationTakesLeast(s, id, node, deployment);
    steps := Allocation(id, node, deployment);
  }

  /** Nothing fails and nothing is released. */
  predicate Clean(steps: seq<Step>) {
    forall i :: 0 <= i < |steps| ==> !steps[i].QueryFails? && !steps[i].InsertFails? && !steps[i].Deallocate?
  }

  lemma AllocationMovesOn(s: System, id: nat, node: string, deployment: string)
    requires LeastFree(s, node) <= MAX_PORT
    ensures var after := AfterAllocation(s, id, node, deployment);
            PortsOn(after.table, node) == PortsOn(s.table, node) + {LeastFree(s, node)}
            && LeastFree(after, node) > LeastFree(s, node)
  {
    var row := Row(node, LeastFree(s, node), deployment);
    PortsOnConcat(s.table, [row], node);
    PortsOnOne(row, node);
  }

  // ----- Held until released -----

  /** The ports of the call's deployment were released after the call had got one. */
  predicate Released(steps: seq<Step>, id: nat) {
    steps != [] &&
      var before, last := steps[..|steps| - 1], steps[|steps| - 1];
      || Released(before, id)
      || (&& last.Deallocate? && id in Run(before).calls && Run(before).calls[id].phase.Done?
          && Run(before).calls[id].deployment == last.deployment)
  }

  function RowOf(c: Call): Row
    requires c.phase.Done?
  {
    Row(c.node, c.phase.port, c.deployment)
  }

  predicate Got(s: System, id: nat) {
    id in s.calls && s.calls[id].phase.Done?
  }

  /** A call's port stays recorded until its deployment's ports are released. */
  lemma {:induction false} HeldUntilReleased(steps: seq<Step>, id: nat)
    requires Got(Run(steps), id) && !Released(steps, id)
    ensures RowOf(Run(steps).calls[id]) in Run(steps).table
  {
    var before := steps[..|steps| - 1];
    if Got(Run(before), id) {
      HeldUntilReleased(before, id);
    }
  }

  ghost predicate Logged(s: System, id: nat)
    requires Got(s, id)
  {
    exists k :: 0 <= k < |s.log| && s.log[k] == Insertion(id, s.calls[id].node, s.calls[id].phase.port)
  }

  lemma StepKeepsLogged(s: System, step: Step, id: nat)
    requires Got(s, id) ==> Logged(s, id)
    ensures Got(Next(s, step), id) ==> Logged(Next(s, step), id)
  {
    var after := Next(s, step);
    if Got(s, id) {
      var k :| 0 <= k < |s.log| && s.log[k] == Insertion(id, s.calls[id].node, s.calls[id].phase.port);
      assert after.log[k] == s.log[k];
    } else if Got(after, id) {
      assert after.log[|s.log|].call == id;
    }
  }

  lemma {:induction false} DoneIsLogged(steps: seq<Step>, id: nat)
    ensures Got(Run(steps), id) ==> Logged(Run(steps), id)
  {
    if steps != [] {
      DoneIsLogged(steps[..|steps| - 1], id);
      StepKeepsLogged(Run(steps[..|steps| - 1]), steps[|steps| - 1], id);
    }
  }

  lemma {:induction false} ReinsertedMeansReleased(steps: seq<Step>, i: nat, j: nat)
    requires i < j < |Run(steps).log|
    requires Run(steps).log[i].node == Run(steps).log[j].node && Run(steps).log[i].port == Run(steps).log[j].port
    ensures Released(steps, Run(steps).log[i].call)
  {
    var before := steps[..|steps| - 1];
    var s, first := Run(before), Run(steps).log[i];
    assert s.log[i] == first;
    if j < |s.log| {
      ReinsertedMeansReleased(before, i, j);
    } else {
      AlwaysInvariant(before);
      if !Released(before, first.call) {
        HeldUntilReleased(before, first.call);
      }
    }
  }

  /** Two calls that end with the same port of the same node: one of them was released. */
  lemma PortIsExclusive(steps: seq<Step>, a: nat, b: nat)
    requires a != b && Got(Run(steps), a) && Got(Run(steps), b) && !Released(steps, a) && !Released(steps, b)
    ensures var s := Run(steps);
            s.calls[a].node != s.calls[b].node || s.calls[a].phase.port != s.calls[b].phase.port
  {
    var s := Run(steps);
    DoneIsLogged(steps, a);
    DoneIsLogged(steps, b);
    var i :| 0 <= i < |s.log| && s.log[i] == Insertion(a, s.calls[a].node, s.calls[a].phase.port);
    var j :| 0 <= j < |s.log| && s.log[j] == Insertion(b, s.calls[b].node, s.calls[b].phase.port);
    if s.log[i].node == s.log[j].node && s.log[i].port == s.log[j].port {
      ReinsertedMeansReleased(steps, if i < j then i else j, if i < j then j else i);
    }
  }

  // ----- Given out again -----

  predicate NotReleasing(steps: seq<Step>, deployment: string) {
    forall i :: 0 <= i < |steps| ==> steps[i] != Deallocate(deployment)
  }

  /** Since the log had `from` entries, somebody inserted this port on this node. */
  ghost predicate InsertedSince(s: System, from: nat, node: string, port: int) {
    exists k :: from <= k < |s.log| && s.log[k].node == node && s.log[k].port == port
  }

  /** The port can be given to somebody else although nobody releases the deployment any more. */
  ghost predicate CanBeGivenAgain(s: System, row: Row) {
    exists more :: NotReleasing(more, row.deployment) && InsertedSince(RunFrom(s, more), |s.log|, row.node, row.port)
  }

  lemma {:induction false} RecordedIsSafe(s: System, row: Row, more: seq<Step>)
    requires row in s.table && NotReleasing(more, row.deployment)
    ensures row in RunFrom(s, more).table && |s.log| <= |RunFrom(s, more).log|
    ensures !InsertedSince(RunFrom(s, more), |s.log|, row.node, row.port)
  {
    if more != [] {
      RecordedIsSafe(s, row, more[..|more| - 1]);
    }
  }

  /** A free port is reached by allocating until it is the least one. */
  lemma {:induction false} FreeIsGivenOut(s: System, node: string, port: int) returns (more: seq<Step>)
    requires USER_MIN_PORT <= port <= MAX_PORT && port !in PortsOn(s.table, node)
    ensures Clean(more) && InsertedSince(RunFrom(s, more), |s.log|, node, port)
    decreases port - LeastFree(s, node)
  {
    var id := FreshId(s.calls.Keys);
    var after := AfterAllocation(s, id, node, "");
    more := Allocate(s, id, node, "");
    AllocationMovesOn(s, id, node, "");
    if LeastFree(s, node) == port {
      assert after.log[|s.log|] == Insertion(id, node, port);
    } else {
      var rest := FreeIsGivenOut(after, node, port);
      RunFromConcat(s, more, rest);
      more := more + rest;
    }
  }

  lemma {:induction false} OnlyHolder(table: Table, i: nat, j: nat)
    requires TableOk(table) && i < |table| && j < |table|
    requires table[i].node == table[j].node && table[i].port == table[j].port
    ensures i == j
  {
    if i < j {
      RowsAreApart(table, i, j);
    } else if j < i {
      RowsAreApart(table, j, i);
    }
  }

  /** Releasing the one deployment that holds a port frees it. */
  lemma ReleasingFrees(s: System, holder: Row)
    requires TableOk(s.table) && holder in s.table
    ensures holder.port !in PortsOn(Next(s, Deallocate(holder.deployment)).table, holder.node)
  {
    var after := Next(s, Deallocate(holder.deployment)).table;
    forall r | r in after ensures !(r.node == holder.node && r.port == holder.port) {
      var i :| 0 <= i < |s.table| && s.table[i] == r;
      var j :| 0 <= j < |s.table| && s.table[j] == holder;
      if r.node == holder.node && r.port == holder.port {
        OnlyHolder(s.table, i, j);
      }
    }
  }

  /** A port can be given out again before its deployment is released if and only if its row is
      gone from the table. */
  lemma GivenAgainIff(s: System, row: Row)
    requires TableOk(s.table) && USER_MIN_PORT <= row.port <= MAX_PORT
    ensures CanBeGivenAgain(s, row) <==> row !in s.table
  {
    if row in s.table {
      forall more | NotReleasing(more, row.deployment)
        ensures !InsertedSince(RunFrom(s, more), |s.log|, row.node, row.port)
      {
        RecordedIsSafe(s, row, more);
      }
    } else if row.port !in PortsOn(s.table, row.node) {
      var more := FreeIsGivenOut(s, row.node, row.port);
      assert NotReleasing(more, row.deployment);
    } else {
      var holder :| holder in s.table && holder.node == row.node && holder.port == row.port;
      var step := Deallocate(holder.deployment);
      ReleasingFrees(s, holder);
      var more := FreeIsGivenOut(Next(s, step), row.node, row.port);
      RunFromOne(s, step);
      RunFromConcat(s, [step], more);
      assert NotReleasing([step] + more, row.deployment);
    }
  }

  /** Deployment `d` gets a port on its home node `h` and one on a replica node `r`.  A replica
      that fails to start, or is torn down, releases both, and `e` is deployed on `h`. */
  function ReplicaRollback(h: string, r: string, d: string, e: string): seq<Step> {
    Allocation(0, h, d) + Allocation(1, r, d) + [Deallocate(d)] + Allocation(2, h, e)
  }

  lemma {:induction false} AllReleased(table: Table, deployment: string)
    requires forall r :: r in table ==> r.deployment == deployment
    ensures RowsExcept(table, deployment) == []
  {
    if table != [] {
      assert table[0] in table;
      AllReleased(table[1..], deployment);
    }
  }

  lemma TwoPortsTaken(h: string, r: string, d: string)
    requires h != r
    ensures var s := Run(Allocation(0, h, d) + Allocation(1, r, d));
            && s.table == [Row(h, USER_MIN_PORT, d), Row(r, USER_MIN_PORT, d)]
            && s.calls.Keys == {0, 1} && Got(s, 0) && s.calls[0].node == h && s.calls[0].phase.port == USER_MIN_PORT
  {
    assert PortsOn([], h) == {} && PortsOn([], r) == {};
    AllocationTakesLeast(INITIAL, 0, h, d);
    var s := AfterAllocation(INITIAL, 0, h, d);
    PortsOnOne(Row(h, USER_MIN_PORT, d), r);
    RunFromConcat(INITIAL, Allocation(0, h, d), Allocation(1, r, d));
    AllocationTakesLeast(s, 1, r, d);
  }

  lemma ReleasedThenGiven(before: seq<Step>, h: string, d: string, e: string)
    requires 2 !in Run(before).calls && forall r :: r in Run(before).table ==> r.deployment == d
    ensures var s := Run(before).(table := []);
            Run(before + [Deallocate(d)] + Allocation(2, h, e)) == AfterAllocation(s, 2, h, e)
            && LeastFree(s, h) == USER_MIN_PORT
  {
    AllReleased(Run(before).table, d);
    RunFromAppend(INITIAL, before, Deallocate(d));
    assert PortsOn([], h) == {};
    RunFromConcat(INITIAL, before + [Deallocate(d)], Allocation(2, h, e));
    AllocationTakesLeast(Run(before).(table := []), 2, h, e);
  }

  /** The home node's port is then given to `e` while the process of `d` still has it. */
  lemma GivenOutTwice(h: string, r: string, d: string, e: string)
    requires h != r
    ensures var s := Run(ReplicaRollback(h, r, d, e));
            && Got(s, 0) && Got(s, 2) && s.calls[0].node == s.calls[2].node == h
            && s.calls[0].phase.port == s.calls[2].phase.port == 10100
            && s.table == [Row(h, 10100, e)]
  {
    TwoPortsTaken(h, r, d);
    ReleasedThenGiven(Allocation(0, h, d) + Allocation(1, r, d), h, d, e);
  }

  // ----- Running out of retries -----

  /** Another call takes the port that call 0 has chosen. */
  function AfterTheft(s: System, other: nat, node: string, deployment: string): System {
    Next(AfterAllocation(s, other, node, deployment), Insert(0))
  }

  lemma TheftRetries(s: System, other: nat, node: string, deployment: string)
    requires 0 in s.calls && s.calls[0].node == node && s.calls[0].phase == Chosen(LeastFree(s, node))
    requires LeastFree(s, node) <= MAX_PORT && other !in s.calls
    ensures var after := AfterTheft(s, other, node, deployment);
            && PortsOn(after.table, node) == PortsOn(s.table, node) + {LeastFree(s, node)}
            && after.log == s.log + [Insertion(other, node, LeastFree(s, node))]
            && after.calls.Keys == s.calls.Keys + {other}
            && after.calls[0] == Retry(s.calls[0].(charges := after.calls[0].charges))
  {
    var taken := AfterAllocation(s, other, node, deployment);
    AllocationMovesOn(s, other, node, deployment);
    assert taken.calls[0] == s.calls[0] && LeastFree(s, node) in PortsOn(taken.table, node);
    assert AfterTheft(s, other, node, deployment) == AfterInsert(taken, 0);
  }

  lemma Steal(s: System, other: nat, node: string, deployment: string) returns (steps: seq<Step>)
    requires 0 in s.calls && s.calls[0].phase.Ready? && other !in s.calls && LeastFree(s, node) <= MAX_PORT
    ensures RunFrom(s, steps) == AfterTheft(Next(s, Query(0)), other, node, deployment) && Clean(steps)
  {
    var chosen := Next(s, Query(0));
    steps := Allocate(chosen, other, node, deployment);
    RunFromOne(s, Query(0));
    RunFromConcat(s, [Query(0)], steps);
    RunFromAppend(s, [Query(0)] + steps, Insert(0));
    steps := [Query(0)] + steps + [Insert(0)];
  }

  /** Call 0 has retried `attempts` times, and `n` others have got a port. */
  ghost predicate Contended(s: System, node: string, n: nat, attempts: nat) {
    && |s.log| == n && (forall k :: 0 <= k < n ==> s.log[k].node == node && s.log[k].call != 0)
    && (forall id :: id in s.calls ==> id <= n)
    && (forall p :: p in PortsOn(s.table, node) ==> p < USER_MIN_PORT + n)
    && 0 in s.calls && s.calls[0].node == node && s.calls[0].began == 0 && s.calls[0].attempt == attempts
    && s.calls[0].phase == if attempts < MAX_ATTEMPTS then Ready else Failed(TooManyRetries)
  }

  lemma QueryChooses(s: System, node: string, n: nat)
    requires n < MAX_ATTEMPTS && Contended(s, node, n, n)
    ensures var chosen := Next(s, Query(0));
            && LeastFree(s, node) <= USER_MIN_PORT + n
            && chosen.table == s.table && chosen.log == s.log && chosen.calls.Keys == s.calls.Keys
            && chosen.calls[0] == s.calls[0].(phase := Chosen(LeastFree(s, node)), queried := |s.log|)
  {
    assert LeastFree(s, node) <= USER_MIN_PORT + n;
  }

  lemma RetryContends(s: System, after: System, node: string, n: nat, port: int)
    requires n < MAX_ATTEMPTS && Contended(s, node, n, n) && port <= USER_MIN_PORT + n
    requires PortsOn(after.table, node) == PortsOn(s.table, node) + {port}
    requires after.log == s.log + [Insertion(n + 1, node, port)] && after.calls.Keys == s.calls.Keys + {n + 1}
    requires after.calls[0]
          == Retry(s.calls[0].(phase := Chosen(port), queried := n, charges := after.calls[0].charges))
    ensures Contended(after, node, n + 1, n + 1)
  {
  }

  lemma TheftContends(s: System, node: string, deployment: string, n: nat)
    requires n < MAX_ATTEMPTS && Contended(s, node, n, n)
    ensures LeastFree(s, node) <= USER_MIN_PORT + n
    ensures Contended(AfterTheft(Next(s, Query(0)), n + 1, node, deployment), node, n + 1, n + 1)
  {
    var chosen := Next(s, Query(0));
    QueryChooses(s, node, n);
    TheftRetries(chosen, n + 1, node, deployment);
    RetryContends(s, AfterTheft(chosen, n + 1, node, deployment), node, n, LeastFree(s, node));
  }

  /** Call 0 loses the port it chose `n` times. */
  lemma {:induction false} Contend(n: nat, node: string, deployment: string) returns (steps: seq<Step>)
    requires n <= MAX_ATTEMPTS
    ensures Contended(Run(steps), node, n, n) && Clean(steps)
  {
    if n == 0 {
      RunFromOne(INITIAL, Begin(0, node, deployment));
      steps := [Begin(0, node, deployment)];
    } else {
      steps := Contend(n - 1, node, deployment);
      TheftContends(Run(steps), node, deployment, n - 1);
      var more := Steal(Run(steps), n, node, deployment);
      RunFromConcat(INITIAL, steps, more);
      steps := steps + more;
    }
  }

  lemma {:induction false} CleanHasNoFailures(steps: seq<Step>)
    requires Clean(steps)
    ensures ConflictingFailures(steps, 0) == 0
  {
    if steps != [] {
      CleanHasNoFailures(steps[..|steps| - 1]);
    }
  }

  lemma OneMoreFailure(s: System, node: string, n: nat, attempts: nat, text: string)
    requires attempts < MAX_ATTEMPTS && Contended(s, node, n, attempts) && IsConflict(Wrapped(QUERY_FAILED, text))
    ensures Contended(Next(s, QueryFails(0, text)), node, n, attempts + 1)
  {
  }

  /** Then `k` of its queries fail. */
  lemma {:induction false} ContendThenFail(n: nat, k: nat, node: string, deployment: string, text: string)
    returns (steps: seq<Step>)
    requires n + k <= MAX_ATTEMPTS && IsConflict(Wrapped(QUERY_FAILED, text))
    ensures Contended(Run(steps), node, n, n + k) && ConflictingFailures(steps, 0) == k
  {
    if k == 0 {
      steps := Contend(n, node, deployment);
      CleanHasNoFailures(steps);
    } else {
      var before := ContendThenFail(n, k - 1, node, deployment, text);
      steps := before + [QueryFails(0, text)];
      RunFromAppend(INITIAL, before, QueryFails(0, text));
      OneMoreFailure(Run(before), node, n, n + k - 1, text);
      assert steps[..|steps| - 1] == before;
    }
  }

  lemma OthersCounted(s: System, node: string, n: nat, attempts: nat)
    requires Contended(s, node, n, attempts)
    ensures |InsertionsByOthers(s, 0)| == n
  {
    var positions := seq(n, i requires 0 <= i < n => i as nat);
    IncreasingSize(positions);
    forall k: nat | k in InsertionsByOthers(s, 0) ensures k in Elements(positions) {
      assert positions[k] == k;
    }
    assert Elements(positions) == InsertionsByOthers(s, 0);
  }

  /** The count of what giving up takes is exact: for every `k` up to ten, some run gives up with
      `k` failures worded like conflicts and ten less `k` insertions of others, no more. */
  lemma GivingUpIsTight(k: nat, node: string, deployment: string, text: string) returns (steps: seq<Step>)
    requires k <= 10 && IsConflict(Wrapped(QUERY_FAILED, text))
    ensures var s := Run(steps);
            && 0 in s.calls && s.calls[0].node == node && s.calls[0].phase == Failed(TooManyRetries)
            && ConflictingFailures(steps, 0) == k && |InsertionsByOthers(s, 0)| == 10 - k
  {
    steps := ContendThenFail(MAX_ATTEMPTS - k, k, node, deployment, text);
    OthersCounted(Run(steps), node, MAX_ATTEMPTS - k, MAX_ATTEMPTS);
  }
}
