/**
 Optimistic port allocation: read the ports taken on a node, insert the least free one,
 and start over when somebody else got there first.  The search is a method; concurrent
 callers are a step machine over one shared table.
 */
module PortAllocation {
  import opened Sequences
  import opened Wrappers

  const USER_MIN_PORT := 10100
  const MAX_PORT := 19999
  const MAX_ATTEMPTS := 10

  datatype Row = Row(node: string, port: int, deployment: string)

  type Table = seq<Row>

  function PortsOn(table: Table, node: string): set<int> {
    set r | r in table && r.node == node :: r.port
  }

  lemma PortsOnConcat(a: Table, b: Table, node: string)
    ensures PortsOn(a + b, node) == PortsOn(a, node) + PortsOn(b, node)
  {
  }

  lemma PortsOnOne(row: Row, node: string)
    ensures PortsOn([row], node) == if row.node == node then {row.port} else {}
  {
  }

  /** The least port from `from` on that is not taken, or one past the range. */
  function FirstFree(taken: set<int>, from: int): (port: int)
    requires from <= MAX_PORT + 1
    ensures from <= port <= MAX_PORT + 1
    ensures forall p :: from <= p < port ==> p in taken
    ensures port <= MAX_PORT ==> port !in taken
    decreases MAX_PORT + 1 - from
  {
    if from == MAX_PORT + 1 || from !in taken then from else FirstFree(taken, from + 1)
  }

  /** The ports a query for the node returns. */
  method QueryPorts(table: Table, node: string) returns (ports: seq<int>)
    ensures (set p | p in ports) == PortsOn(table, node)
  {
    ports := [];
    for i := 0 to |table|
      invariant (set p | p in ports) == PortsOn(table[..i], node)
    {
      assert table[..i + 1] == table[..i] + [table[i]];
      PortsOnConcat(table[..i], [table[i]], node);
      PortsOnOne(table[i], node);
      if table[i].node == node {
        ports := ports + [table[i].port];
      }
    }
    assert table[..|table|] == table;
  }

  method FindPort(rows: seq<int>) returns (port: int)
    ensures 10100 <= port <= 20000 && (port <= 19999 ==> port !in rows)
    ensures forall p :: 10100 <= p < port ==> p in rows
    ensures port == FirstFree((set p | p in rows), USER_MIN_PORT)
  {
    var inUse: map<int, bool> := map[];
    for i := 0 to |rows|
      invariant forall p :: p in inUse <==> p in rows[..i]
    {
      inUse := inUse[rows[i] := true];
    }
    port := USER_MIN_PORT;
    while port <= MAX_PORT
      invariant USER_MIN_PORT <= port <= MAX_PORT + 1
      invariant FirstFree((set p | p in rows), USER_MIN_PORT) == FirstFree((set p | p in rows), port)
      invariant forall p :: USER_MIN_PORT <= p < port ==> p in rows
    {
      if port !in inUse {
        break;
      }
      port := port + 1;
    }
  }

  // ----- Error texts -----

  predicate OccursAt(s: string, sub: string, i: nat) {
    i + |sub| <= |s| && s[i..i + |sub|] == sub
  }

  predicate Contains(s: string, sub: string) {
    exists i :: 0 <= i <= |s| && OccursAt(s, sub, i)
  }

  /** Conflicts are recognised by the wording of the error. */
  predicate IsConflict(text: string) {
    Contains(text, "UNIQUE") || Contains(text, "constraint") || Contains(text, "conflict")
  }

  function Wrapped(message: string, cause: string): string {
    message + ": " + cause
  }

  const QUERY_FAILED := "failed to query allocated ports"
  const INSERT_FAILED := "failed to insert port allocation"
  const UNIQUE_VIOLATION := "UNIQUE" + " constraint failed: port_allocations.node_id, port_allocations.port"

  lemma UniqueViolationIsConflict()
    ensures IsConflict(Wrapped(INSERT_FAILED, UNIQUE_VIOLATION))
  {
    assert OccursAt(Wrapped(INSERT_FAILED, UNIQUE_VIOLATION), "UNIQUE", |INSERT_FAILED| + |": "|);
  }

  /** From some position on the text goes on with the word. */
  ghost predicate Mentions(text: string, word: string) {
    exists i :: 0 <= i <= |text| && word <= text[i..]
  }

  ghost predicate ReadsLikeConflict(text: string) {
    Mentions(text, "UNIQUE") || Mentions(text, "constraint") || Mentions(text, "conflict")
  }

  lemma ContainsIsMentions(text: string, word: string)
    ensures Contains(text, word) <==> Mentions(text, word)
  {
    if i :| 0 <= i <= |text| && OccursAt(text, word, i) {
      assert text[i..][..|word|] == text[i..i + |word|];
    }
    if i :| 0 <= i <= |text| && word <= text[i..] {
      assert text[i..i + |word|] == text[i..][..|word|];
      assert OccursAt(text, word, i);
    }
  }

  lemma ConflictIsWording(text: string)
    ensures IsConflict(text) <==> ReadsLikeConflict(text)
  {
    ContainsIsMentions(text, "UNIQUE");
    ContainsIsMentions(text, "constraint");
    ContainsIsMentions(text, "conflict");
  }

  // ----- Concurrent callers -----

  datatype Failure = NoPorts | TooManyRetries | Database

  datatype Phase = Ready | Chosen(port: int) | Done(port: int) | Failed(reason: Failure)

  /** One call in progress.  The last four fields only record its history: the length of
      the insertion log when it began and when it last queried, the log position each
      uniqueness retry is charged to, and the retries other errors caused. */
  datatype Call = Call(node: string, deployment: string, attempt: nat, phase: Phase,
                       began: nat, queried: nat, charges: seq<nat>, others: nat)

  datatype Insertion = Insertion(call: nat, node: string, port: int)

  datatype System = System(table: Table, calls: map<nat, Call>, log: seq<Insertion>)

  datatype Step =
    | Begin(id: nat, node: string, deployment: string)
    | Query(id: nat)
    | QueryFails(id: nat, text: string)
    | Insert(id: nat)
    | InsertFails(id: nat, text: string)
    | Deallocate(deployment: string)

  const INITIAL := System([], map[], [])

  /** The latest insertion of a port on a node. */
  function LatestInsertion(log: seq<Insertion>, node: string, port: int): (k: nat)
    ensures forall j :: k < j < |log| ==> !(log[j].node == node && log[j].port == port)
    ensures (exists j :: 0 <= j < |log| && log[j].node == node && log[j].port == port) ==>
              k < |log| && log[k].node == node && log[k].port == port
  {
    if log == [] then 0
    else if log[|log| - 1].node == node && log[|log| - 1].port == port then |log| - 1
    else LatestInsertion(log[..|log| - 1], node, port)
  }

  function Retry(c: Call): Call {
    c.(attempt := c.attempt + 1,
       phase := if c.attempt + 1 >= MAX_ATTEMPTS then Failed(TooManyRetries) else Ready)
  }

  /** A failed database call is retried when its text reads like a conflict. */
  function AfterError(c: Call, text: string): Call {
    if IsConflict(text) then Retry(c.(others := c.others + 1)) else c.(phase := Failed(Database))
  }

  function AfterQuery(c: Call, s: System): Call {
    var port := FirstFree(PortsOn(s.table, c.node), USER_MIN_PORT);
    if port > MAX_PORT then c.(phase := Failed(NoPorts)) else c.(phase := Chosen(port), queried := |s.log|)
  }

  /** The primary key admits the row or rejects it. */
  function AfterInsert(s: System, id: nat): System
    requires id in s.calls && s.calls[id].phase.Chosen?
  {
    var c := s.calls[id];
    var port := c.phase.port;
    if port in PortsOn(s.table, c.node) then
      s.(calls := s.calls[id := Retry(c.(charges := c.charges + [LatestInsertion(s.log, c.node, port)]))])
    else
      System(s.table + [Row(c.node, port, c.deployment)],
             s.calls[id := c.(phase := Done(port))],
             s.log + [Insertion(id, c.node, port)])
  }

  function RowsExcept(table: Table, deployment: string): (r: Table)
    ensures forall row :: row in r <==> row in table && row.deployment != deployment
  {
    if table == [] then []
    else if table[0].deployment == deployment then RowsExcept(table[1..], deployment)
    else [table[0]] + RowsExcept(table[1..], deployment)
  }

  /** One step of one caller or of a deallocation; a step that is not possible changes nothing. */
  function Next(s: System, step: Step): System {
    match step
    case Begin(id, node, deployment) =>
      if id in s.calls then s
      else s.(calls := s.calls[id := Call(node, deployment, 0, Ready, |s.log|, |s.log|, [], 0)])
    case Query(id) =>
      if id !in s.calls || !s.calls[id].phase.Ready? then s
      else s.(calls := s.calls[id := AfterQuery(s.calls[id], s)])
    case QueryFails(id, text) =>
      if id !in s.calls || !s.calls[id].phase.Ready? then s
      else s.(calls := s.calls[id := AfterError(s.calls[id], Wrapped(QUERY_FAILED, text))])
    case Insert(id) =>
      if id !in s.calls || !s.calls[id].phase.Chosen? then s
      else AfterInsert(s, id)
    case InsertFails(id, text) =>
      if id !in s.calls || !s.calls[id].phase.Chosen? then s
      else s.(calls := s.calls[id := AfterError(s.calls[id], Wrapped(INSERT_FAILED, text))])
    case Deallocate(deployment) =>
      s.(table := RowsExcept(s.table, deployment))
  }

  function RunFrom(s: System, steps: seq<Step>): System {
    if steps == [] then s else Next(RunFrom(s, steps[..|steps| - 1]), steps[|steps| - 1])
  }

  function Run(steps: seq<Step>): System {
    RunFrom(INITIAL, steps)
  }

  lemma RunFromAppend(s: System, steps: seq<Step>, step: Step)
    ensures RunFrom(s, steps + [step]) == Next(RunFrom(s, steps), step)
  {
  }

  lemma RunFromOne(s: System, step: Step)
    ensures RunFrom(s, [step]) == Next(s, step)
  {
    RunFromAppend(s, [], step);
    assert [] + [step] == [step];
  }

  /** An answered query leaves the call with the least free port of the node, or ends it when all
      9900 are taken. */
  lemma QueryDecides(s: System, id: nat)
    requires id in s.calls && s.calls[id].phase.Ready?
    ensures var taken, phase := PortsOn(s.table, s.calls[id].node), Next(s, Query(id)).calls[id].phase;
            && (phase == Failed(NoPorts) <==> forall p :: 10100 <= p <= 19999 ==> p in taken)
            && (phase != Failed(NoPorts) ==>
                  && phase.Chosen? && 10100 <= phase.port <= 19999 && phase.port !in taken
                  && forall p :: 10100 <= p < phase.port ==> p in taken)
  {
  }

  /** The insert of a port that is free adds the row and ends the call; that of a taken one adds
      nothing, and the attempt is repeated, up to ten in all. */
  lemma InsertDecides(s: System, id: nat)
    requires id in s.calls && s.calls[id].phase.Chosen?
    ensures var c, after := s.calls[id], Next(s, Insert(id));
            if c.phase.port !in PortsOn(s.table, c.node) then
              && after.table == s.table + [Row(c.node, c.phase.port, c.deployment)]
              && after.calls[id] == c.(phase := Done(c.phase.port))
            else
              && after.table == s.table && after.calls[id].attempt == c.attempt + 1
              && after.calls[id].phase == if c.attempt + 1 < 10 then Ready else Failed(TooManyRetries)
  {
  }

  /** A failed query or insert ends the call at once, unless the wrapped text has one of the
      three words in it; then the attempt is repeated, up to ten in all. */
  lemma WordingDecidesRetry(s: System, id: nat, text: string, early: bool)
    requires id in s.calls && (if early then s.calls[id].phase.Ready? else s.calls[id].phase.Chosen?)
    ensures var c := s.calls[id];
            var message := if early then "failed to query allocated ports: " else "failed to insert port allocation: ";
            var error := message + text;
            var after := Next(s, if early then QueryFails(id, text) else InsertFails(id, text)).calls[id];
            && (!ReadsLikeConflict(error) ==> after == c.(phase := Failed(Database)))
            && (ReadsLikeConflict(error) ==>
                  && after.attempt == c.attempt + 1
                  && after.phase == if c.attempt + 1 < 10 then Ready else Failed(TooManyRetries))
  {
    ConflictIsWording(Wrapped(if early then QUERY_FAILED else INSERT_FAILED, text));
    assert QUERY_FAILED + ": " == "failed to query allocated ports: ";
    assert INSERT_FAILED + ": " == "failed to insert port allocation: ";
  }

  // ----- Invariants -----

  /** Ports are in range and no row repeats the node and port of a later one. */
  ghost predicate TableOk(table: Table) {
    table != [] ==>
      && USER_MIN_PORT <= table[0].port <= MAX_PORT
      && table[0].port !in PortsOn(table[1..], table[0].node)
      && TableOk(table[1..])
  }

  /** Position `k` of the log is an insertion on the call's node by somebody else, made
      while the call was in progress. */
  ghost predicate ByOther(log: seq<Insertion>, id: nat, c: Call, k: nat) {
    c.began <= k < |log| && log[k].node == c.node && log[k].call != id
  }

  ghost predicate CallOk(s: System, id: nat, c: Call) {
    && c.began <= c.queried <= |s.log|
    && c.attempt == |c.charges| + c.others
    && c.attempt <= MAX_ATTEMPTS
    && (c.phase.Ready? || c.phase.Chosen? ==> c.attempt < MAX_ATTEMPTS)
    && (c.phase == Failed(TooManyRetries) ==> c.attempt == MAX_ATTEMPTS)
    && Increasing(c.charges)
    && (forall i :: 0 <= i < |c.charges| ==> ByOther(s.log, id, c, c.charges[i]))
    && (c.phase.Chosen? ==>
        && USER_MIN_PORT <= c.phase.port <= MAX_PORT
        && (forall i :: 0 <= i < |c.charges| ==> c.charges[i] < c.queried)
        && (c.phase.port in PortsOn(s.table, c.node) ==>
              exists k :: c.queried <= k < |s.log| && s.log[k].node == c.node && s.log[k].port == c.phase.port))
  }

  ghost predicate Invariant(s: System) {
    && TableOk(s.table)
    && (forall id :: id in s.calls ==> CallOk(s, id, s.calls[id]))
    && (forall k :: 0 <= k < |s.log| ==>
          s.log[k].call in s.calls && s.calls[s.log[k].call].phase == Done(s.log[k].port)
          && s.calls[s.log[k].call].node == s.log[k].node)
  }

  lemma {:induction false} RowsExceptOk(table: Table, deployment: string)
    requires TableOk(table)
    ensures TableOk(RowsExcept(table, deployment))
  {
    if table != [] {
      var rest := RowsExcept(table[1..], deployment);
      RowsExceptOk(table[1..], deployment);
      assert PortsOn(rest, table[0].node) <= PortsOn(table[1..], table[0].node);
      assert ([table[0]] + rest)[1..] == rest;
    }
  }

  lemma DeallocateKeeps(s: System, deployment: string)
    requires Invariant(s)
    ensures Invariant(Next(s, Deallocate(deployment)))
  {
    RowsExceptOk(s.table, deployment);
    var after := Next(s, Deallocate(deployment));
    forall id | id in after.calls ensures CallOk(after, id, after.calls[id]) {
      assert CallOk(s, id, s.calls[id]);
      assert PortsOn(after.table, s.calls[id].node) <= PortsOn(s.table, s.calls[id].node);
    }
  }

  lemma RejectionKeeps(s: System, id: nat)
    requires Invariant(s) && id in s.calls && s.calls[id].phase.Chosen?
    requires s.calls[id].phase.port in PortsOn(s.table, s.calls[id].node)
    ensures Invariant(AfterInsert(s, id))
  {
  }

  lemma {:induction false} AppendKeepsTableOk(table: Table, row: Row)
    requires TableOk(table) && USER_MIN_PORT <= row.port <= MAX_PORT && row.port !in PortsOn(table, row.node)
    ensures TableOk(table + [row])
  {
    if table == [] {
      assert (table + [row])[1..] == [];
    } else {
      var head, tail := table[0], table[1..];
      assert table == [head] + tail && (table + [row])[1..] == tail + [row];
      PortsOnConcat([head], tail, row.node);
      PortsOnOne(head, row.node);
      AppendKeepsTableOk(tail, row);
      PortsOnConcat(tail, [row], head.node);
      PortsOnOne(row, head.node);
    }
  }

  lemma AcceptanceKeeps(s: System, id: nat)
    requires Invariant(s) && id in s.calls && s.calls[id].phase.Chosen?
    requires s.calls[id].phase.port !in PortsOn(s.table, s.calls[id].node)
    ensures Invariant(AfterInsert(s, id))
  {
    var c, after := s.calls[id], AfterInsert(s, id);
    assert CallOk(s, id, c);
    AppendKeepsTableOk(s.table, Row(c.node, c.phase.port, c.deployment));
    assert after.log[|s.log|] == Insertion(id, c.node, c.phase.port);
    forall j | j in after.calls ensures CallOk(after, j, after.calls[j]) {
      var d := s.calls[j];
      assert CallOk(s, j, d);
      forall i | 0 <= i < |d.charges| ensures ByOther(after.log, j, d, d.charges[i]) {
        assert ByOther(s.log, j, d, d.charges[i]);
      }
      if d.phase.Chosen? && j != id && d.phase.port in PortsOn(after.table, d.node) {
        NewRowOnly(s, after, j, d);
      }
    }
  }

  lemma NewRowOnly(s: System, after: System, j: nat, d: Call)
    requires CallOk(s, j, d) && d.phase.Chosen?
    requires |after.table| == |s.table| + 1 && after.table[..|s.table|] == s.table
    requires |after.log| == |s.log| + 1 && after.log[..|s.log|] == s.log
    requires after.log[|s.log|].node == after.table[|s.table|].node
    requires after.log[|s.log|].port == after.table[|s.table|].port
    requires d.phase.port in PortsOn(after.table, d.node)
    ensures exists k :: d.queried <= k < |after.log| && after.log[k].node == d.node && after.log[k].port == d.phase.port
  {
  }

  lemma CallStepKeeps(s: System, id: nat, c: Call)
    requires Invariant(s) && CallOk(s, id, c)
    requires id in s.calls ==> c.node == s.calls[id].node && !s.calls[id].phase.Done?
    ensures Invariant(s.(calls := s.calls[id := c]))
  {
  }

  lemma StepKeeps(s: System, step: Step)
    requires Invariant(s)
    ensures Invariant(Next(s, step))
  {
    if Next(s, step) == s {
      return;
    }
    match step
    case Begin(id, node, deployment) =>
      CallStepKeeps(s, id, Call(node, deployment, 0, Ready, |s.log|, |s.log|, [], 0));
    case Query(id) =>
      assert CallOk(s, id, s.calls[id]);
      QueryKeepsCall(s, id, s.calls[id]);
      CallStepKeeps(s, id, AfterQuery(s.calls[id], s));
    case QueryFails(id, text) =>
      ErrorKeepsCall(s, id, s.calls[id], Wrapped(QUERY_FAILED, text));
      CallStepKeeps(s, id, AfterError(s.calls[id], Wrapped(QUERY_FAILED, text)));
    case Insert(id) =>
      if s.calls[id].phase.port in PortsOn(s.table, s.calls[id].node) {
        RejectionKeeps(s, id);
      } else {
        AcceptanceKeeps(s, id);
      }
    case InsertFails(id, text) =>
      ErrorKeepsCall(s, id, s.calls[id], Wrapped(INSERT_FAILED, text));
      CallStepKeeps(s, id, AfterError(s.calls[id], Wrapped(INSERT_FAILED, text)));
    case Deallocate(deployment) =>
      DeallocateKeeps(s, deployment);
  }

  lemma QueryKeepsCall(s: System, id: nat, c: Call)
    requires CallOk(s, id, c) && c.phase.Ready?
    ensures CallOk(s, id, AfterQuery(c, s))
  {
  }

  lemma ErrorKeepsCall(s: System, id: nat, c: Call, text: string)
    requires CallOk(s, id, c) && (c.phase.Ready? || c.phase.Chosen?)
    ensures CallOk(s, id, AfterError(c, text))
  {
  }

  /** Holds after every interleaving of allocations, failures and deallocations. */
  lemma {:induction false} AlwaysInvariant(steps: seq<Step>)
    ensures Invariant(Run(steps))
  {
    if steps != [] {
      AlwaysInvariant(steps[..|steps| - 1]);
      StepKeeps(Run(steps[..|steps| - 1]), steps[|steps| - 1]);
    }
  }

  lemma {:induction false} RowsAreApart(table: Table, i: nat, j: nat)
    requires TableOk(table) && i < j < |table|
    ensures table[i].node != table[j].node || table[i].port != table[j].port
  {
    if i > 0 {
      RowsAreApart(table[1..], i - 1, j - 1);
    } else {
      assert table[j] in table[1..];
    }
  }

  lemma {:induction false} RangeAt(table: Table, i: nat)
    requires TableOk(table) && i < |table|
    ensures USER_MIN_PORT <= table[i].port <= MAX_PORT
  {
    if i > 0 {
      RangeAt(table[1..], i - 1);
    }
  }

  /** Every stored port is in the user range, and no two rows share a node and port. */
  lemma TableAlwaysOk(steps: seq<Step>)
    ensures var table := Run(steps).table;
            && (forall i :: 0 <= i < |table| ==> 10100 <= table[i].port <= 19999)
            && (forall i, j :: 0 <= i < j < |table| ==>
                  table[i].node != table[j].node || table[i].port != table[j].port)
  {
    AlwaysInvariant(steps);
    var table := Run(steps).table;
    forall i | 0 <= i < |table| ensures USER_MIN_PORT <= table[i].port <= MAX_PORT {
      RangeAt(table, i);
    }
    forall i, j | 0 <= i < j < |table|
      ensures table[i].node != table[j].node || table[i].port != table[j].port
    {
      RowsAreApart(table, i, j);
    }
  }

  // ----- Progress -----

  /** What others inserted on the call's node while it was in progress. */
  ghost function InsertionsByOthers(s: System, id: nat): set<nat>
    requires id in s.calls
  {
    set k: nat | k < |s.log| && ByOther(s.log, id, s.calls[id], k)
  }

  ghost function Elements(s: seq<nat>): set<nat> {
    set k | k in s
  }

  lemma {:induction false} IncreasingSize(s: seq<nat>)
    requires Increasing(s)
    ensures |Elements(s)| == |s|
  {
    if s != [] {
      var init, last := s[..|s| - 1], s[|s| - 1];
      IncreasingSize(init);
      assert s == init + [last];
      assert Elements(s) == Elements(init) + {last} && last !in Elements(init);
    }
  }

  /** A uniqueness conflict always has a culprit: somebody else inserted that very port on
      that node after this attempt's query. */
  lemma ConflictHasCulprit(steps: seq<Step>, id: nat)
    requires id in Run(steps).calls && Run(steps).calls[id].phase.Chosen?
    requires Run(steps).calls[id].phase.port in PortsOn(Run(steps).table, Run(steps).calls[id].node)
    ensures var s := Run(steps);
            exists k :: s.calls[id].queried <= k < |s.log| && s.log[k].call != id
                        && s.log[k].node == s.calls[id].node && s.log[k].port == s.calls[id].phase.port
  {
    AlwaysInvariant(steps);
    var s := Run(steps);
    assert CallOk(s, id, s.calls[id]);
  }

  /** Database failures of the call whose text reads like a conflict. */
  function ConflictingFailures(steps: seq<Step>, id: nat): nat {
    if steps == [] then 0 else
    var last := steps[|steps| - 1];
    var counts := || (last.QueryFails? && last.id == id && IsConflict(Wrapped(QUERY_FAILED, last.text)))
                  || (last.InsertFails? && last.id == id && IsConflict(Wrapped(INSERT_FAILED, last.text)));
    ConflictingFailures(steps[..|steps| - 1], id) + if counts then 1 else 0
  }

  lemma {:induction false} OtherRetriesAreFailures(steps: seq<Step>, id: nat)
    ensures id in Run(steps).calls ==> Run(steps).calls[id].others <= ConflictingFailures(steps, id)
  {
    if steps != [] {
      OtherRetriesAreFailures(steps[..|steps| - 1], id);
    }
  }

  /** System-wide progress: a call only runs out of retries while others succeed.  Of its
      ten retries, each one a uniqueness conflict caused is matched by a distinct insertion
      of another call on the same node, made during this call; the remaining ones were
      caused by errors whose text merely reads like a conflict. */
  lemma GivingUpMeansOthersSucceeded(steps: seq<Step>, id: nat)
    requires id in Run(steps).calls && Run(steps).calls[id].phase == Failed(TooManyRetries)
    ensures |InsertionsByOthers(Run(steps), id)| + ConflictingFailures(steps, id) >= 10
  {
    AlwaysInvariant(steps);
    OtherRetriesAreFailures(steps, id);
    var s := Run(steps);
    var c := s.calls[id];
    assert CallOk(s, id, c);
    IncreasingSize(c.charges);
    assert Elements(c.charges) <= InsertionsByOthers(s, id);
    SubsetSize(Elements(c.charges), InsertionsByOthers(s, id));
  }

  lemma SubsetSize<T>(a: set<T>, b: set<T>)
    requires a <= b
    ensures |a| <= |b|
  {
    assert b == a + (b - a);
  }

  /** An attempt that fails with this error, at the query or at the insert. */
  function FailedAttempt(id: nat, text: string, early: bool): seq<Step> {
    if early then [QueryFails(id, text)] else [Query(id), InsertFails(id, text)]
  }

  function Outage(id: nat, node: string, deployment: string, text: string, early: bool, n: nat): seq<Step> {
    if n == 0 then [Begin(id, node, deployment)]
    else Outage(id, node, deployment, text, early, n - 1) + FailedAttempt(id, text, early)
  }

  /** The call has used `n` attempts and nobody has inserted anything. */
  ghost predicate Idle(s: System, id: nat, n: nat) {
    && s.table == [] && s.log == [] && id in s.calls && s.calls[id].attempt == n
    && s.calls[id].phase == (if n >= MAX_ATTEMPTS then Failed(TooManyRetries) else Ready)
  }

  lemma FailureStaysIdle(s: System, id: nat, text: string, early: bool, n: nat)
    requires n < MAX_ATTEMPTS && Idle(s, id, n)
    requires IsConflict(Wrapped(if early then QUERY_FAILED else INSERT_FAILED, text))
    ensures Idle(RunFrom(s, FailedAttempt(id, text, early)), id, n + 1)
  {
    if early {
      RunFromOne(s, QueryFails(id, text));
    } else {
      RunFromOne(s, Query(id));
      RunFromAppend(s, [Query(id)], InsertFails(id, text));
      assert [Query(id)] + [InsertFails(id, text)] == FailedAttempt(id, text, early);
      assert PortsOn([], s.calls[id].node) == {};
      assert Next(s, Query(id)).calls[id].phase == Chosen(USER_MIN_PORT);
    }
  }

  /** Without the second term the claim is false: a database that keeps failing with a
      suitably worded error exhausts the retries although nobody inserts anything. */
  lemma {:induction false} WordingAloneExhausts(
      id: nat, node: string, deployment: string, text: string, early: bool, n: nat)
    requires n <= MAX_ATTEMPTS && IsConflict(Wrapped(if early then QUERY_FAILED else INSERT_FAILED, text))
    ensures Idle(Run(Outage(id, node, deployment, text, early, n)), id, n)
  {
    if n == 0 {
      RunFromOne(INITIAL, Begin(id, node, deployment));
    } else {
      var before := Outage(id, node, deployment, text, early, n - 1);
      WordingAloneExhausts(id, node, deployment, text, early, n - 1);
      RunFromConcat(INITIAL, before, FailedAttempt(id, text, early));
      FailureStaysIdle(Run(before), id, text, early, n - 1);
    }
  }

  const FOREIGN_KEY_VIOLATION := "FOREIGN KEY " + "constraint" + " failed"

  /** Such as a violation of the foreign key on deployments, whose row is inserted only after
      the port is taken: where the key is enforced, a lone caller facing an empty table
      gives up after ten retries. */
  lemma ForeignKeyExhausts(id: nat, node: string, deployment: string)
    ensures var s := Run(Outage(id, node, deployment, FOREIGN_KEY_VIOLATION, false, 10));
            s.table == [] && s.log == [] && id in s.calls && s.calls[id].phase == Failed(TooManyRetries)
  {
    var text := Wrapped(INSERT_FAILED, FOREIGN_KEY_VIOLATION);
    assert OccursAt(text, "constraint", |INSERT_FAILED| + |": "| + |"FOREIGN KEY "|);
    WordingAloneExhausts(id, node, deployment, FOREIGN_KEY_VIOLATION, false, 10);
  }

  // ----- Counting free ports -----

  function CountOn(table: Table, node: string): nat {
    if table == [] then 0 else CountOn(table[1..], node) + if table[0].node == node then 1 else 0
  }

  function AvailableCount(table: Table, node: string): int {
    var available := MAX_PORT - USER_MIN_PORT + 1 - CountOn(table, node);
    if available < 0 then 0 else available
  }

  predicate Within(lo: int, hi: int, p: int) {
    lo <= p < hi
  }

  function Range(lo: int, hi: int): set<int> {
    set p | lo <= p < hi && Within(lo, hi, p)
  }

  lemma {:induction false} RangeSize(lo: int, hi: int)
    requires lo <= hi
    ensures |Range(lo, hi)| == hi - lo
    decreases hi - lo
  {
    if lo < hi {
      RangeSize(lo, hi - 1);
      assert forall p :: Within(lo, hi, p) <==> Within(lo, hi - 1, p) || p == hi - 1;
      assert Range(lo, hi) == Range(lo, hi - 1) + {hi - 1};
    }
  }

  function FreePorts(table: Table, node: string): set<int> {
    Range(USER_MIN_PORT, MAX_PORT + 1) - PortsOn(table, node)
  }

  lemma {:induction false} CountIsCardinality(table: Table, node: string)
    requires TableOk(table)
    ensures CountOn(table, node) == |PortsOn(table, node)|
  {
    if table != [] {
      var head, tail := table[0], table[1..];
      CountIsCardinality(tail, node);
      assert table == [head] + tail;
      PortsOnConcat([head], tail, node);
      PortsOnOne(head, node);
      if head.node == node {
        assert PortsOn(table, node) == {head.port} + PortsOn(tail, node);
      }
    }
  }

  lemma {:induction false} PortsInRange(table: Table, node: string)
    requires TableOk(table)
    ensures PortsOn(table, node) <= Range(USER_MIN_PORT, MAX_PORT + 1)
  {
    if table != [] {
      PortsInRange(table[1..], node);
      assert table == [table[0]] + table[1..];
      PortsOnConcat([table[0]], table[1..], node);
      PortsOnOne(table[0], node);
    }
  }

  lemma RestOfRange(taken: set<int>, all: set<int>)
    requires taken <= all
    ensures |all - taken| == |all| - |taken|
  {
  }

  lemma SearchFindsFree(taken: set<int>, from: int)
    requires from <= MAX_PORT + 1
    ensures FirstFree(taken, from) <= MAX_PORT <==> exists p :: from <= p <= MAX_PORT && p !in taken
  {
  }

  /** The reported availability is exactly the number of free ports, never clamped, and is
      positive exactly when the search would find one. */
  lemma AvailableIsExact(table: Table, node: string)
    requires TableOk(table)
    ensures AvailableCount(table, node) == |FreePorts(table, node)|
    ensures AvailableCount(table, node) + CountOn(table, node) == 9900
    ensures AvailableCount(table, node) > 0 <==> FirstFree(PortsOn(table, node), USER_MIN_PORT) <= MAX_PORT
  {
    var lo, hi := USER_MIN_PORT, MAX_PORT + 1;
    var taken, all := PortsOn(table, node), Range(lo, hi);
    CountIsCardinality(table, node);
    PortsInRange(table, node);
    RestOfRange(taken, all);
    RangeSize(lo, hi);
    SearchFindsFree(taken, lo);
    forall p | lo <= p <= MAX_PORT && p !in taken ensures p in all - taken {
      assert Within(lo, hi, p);
    }
  }

  // ----- The retry loop, with others at work in between -----

  /** What happens around one attempt: steps of others before the query and before the
      insert, and the text of a database failure of either, if there is one. */
  datatype Turn = Turn(before: seq<Step>, queryError: Option<string>, between: seq<Step>, insertError: Option<string>)

  predicate NotBy(steps: seq<Step>, id: nat) {
    forall i :: 0 <= i < |steps| ==> steps[i].Deallocate? || steps[i].id != id
  }

  lemma {:induction false} RunFromConcat(s: System, a: seq<Step>, b: seq<Step>)
    ensures RunFrom(s, a + b) == RunFrom(RunFrom(s, a), b)
  {
    if b == [] {
      assert a + b == a;
    } else {
      RunFromConcat(s, a, b[..|b| - 1]);
      assert (a + b)[..|a + b| - 1] == a + b[..|b| - 1];
    }
  }

  lemma {:induction false} OthersLeaveCall(s: System, steps: seq<Step>, id: nat)
    requires NotBy(steps, id) && id in s.calls
    ensures id in RunFrom(s, steps).calls && RunFrom(s, steps).calls[id] == s.calls[id]
  {
    if steps != [] {
      OthersLeaveCall(s, steps[..|steps| - 1], id);
    }
  }

  datatype Result = Port(port: int) | Error(reason: Failure)

  function PhaseOf(r: Result): Phase {
    match r
    case Port(port) => Done(port)
    case Error(reason) => Failed(reason)
  }

  /** How one attempt ends: with a port, or with an error. */
  datatype Attempt = Got(port: int) | Full | Fault(text: string)

  /** The call's phase after an attempt, given the number of earlier ones. */
  function PhaseAfter(a: Attempt, attempt: nat): Phase {
    match a
    case Got(port) => Done(port)
    case Full => Failed(NoPorts)
    case Fault(text) =>
      if !IsConflict(text) then Failed(Database)
      else if attempt + 1 >= MAX_ATTEMPTS then Failed(TooManyRetries) else Ready
  }

  /** The steps of one attempt: the caller's own, with those of others in between.  A full
      node ends it after the query. */
  function AttemptSteps(id: nat, turn: Turn, full: bool): seq<Step> {
    if turn.queryError.Some? then turn.before + [QueryFails(id, turn.queryError.value)]
    else if full then turn.before + [Query(id)]
    else turn.before + [Query(id)] + InsertSteps(id, turn)
  }

  function InsertSteps(id: nat, turn: Turn): seq<Step> {
    turn.between + [if turn.insertError.Some? then InsertFails(id, turn.insertError.value) else Insert(id)]
  }

  method TryOnce(s0: System, id: nat, turn: Turn) returns (a: Attempt, s: System)
    requires id in s0.calls && s0.calls[id].phase.Ready?
    requires NotBy(turn.before, id) && NotBy(turn.between, id)
    ensures s == RunFrom(s0, AttemptSteps(id, turn, a.Full?))
    ensures id in s.calls && s.calls[id].node == s0.calls[id].node
    ensures s.calls[id].phase == PhaseAfter(a, s0.calls[id].attempt)
    ensures s.calls[id].attempt == s0.calls[id].attempt + if a.Fault? && IsConflict(a.text) then 1 else 0
  {
    var node := s0.calls[id].node;
    s := Wait(s0, turn.before, id);
    if turn.queryError.Some? {
      RunFromAppend(s0, turn.before, QueryFails(id, turn.queryError.value));
      s := Next(s, QueryFails(id, turn.queryError.value));
      return Fault(Wrapped(QUERY_FAILED, turn.queryError.value)), s;
    }
    var taken := QueryPorts(s.table, node);
    var port := FindPort(taken);
    RunFromAppend(s0, turn.before, Query(id));
    s := Next(s, Query(id));
    if port > MAX_PORT {
      return Full, s;
    }
    a, s := TryInsert(s, id, port, turn);
    RunFromConcat(s0, turn.before + [Query(id)], InsertSteps(id, turn));
  }

  /** The second half of an attempt, with a port chosen. */
  method TryInsert(s0: System, id: nat, port: int, turn: Turn) returns (a: Attempt, s: System)
    requires id in s0.calls && s0.calls[id].phase == Chosen(port) && NotBy(turn.between, id)
    ensures s == RunFrom(s0, InsertSteps(id, turn)) && !a.Full?
    ensures id in s.calls && s.calls[id].node == s0.calls[id].node
    ensures s.calls[id].phase == PhaseAfter(a, s0.calls[id].attempt)
    ensures s.calls[id].attempt == s0.calls[id].attempt + if a.Fault? && IsConflict(a.text) then 1 else 0
  {
    var node := s0.calls[id].node;
    s := Wait(s0, turn.between, id);
    if turn.insertError.Some? {
      RunFromAppend(s0, turn.between, InsertFails(id, turn.insertError.value));
      s := Next(s, InsertFails(id, turn.insertError.value));
      return Fault(Wrapped(INSERT_FAILED, turn.insertError.value)), s;
    }
    var free := port !in PortsOn(s.table, node);
    RunFromAppend(s0, turn.between, Insert(id));
    s := Next(s, Insert(id));
    UniqueViolationIsConflict();
    a := if free then Got(port) else Fault(Wrapped(INSERT_FAILED, UNIQUE_VIOLATION));
  }

  /** What happens up to the end of `n` attempts that are all retried. */
  function RetriedSteps(begin: Step, id: nat, turns: seq<Turn>, n: nat): seq<Step>
    requires n <= |turns|
  {
    if n == 0 then [begin]
    else RetriedSteps(begin, id, turns, n - 1) + AttemptSteps(id, turns[n - 1], false)
  }

  ghost predicate NobodyIs(turns: seq<Turn>, id: nat) {
    forall i :: 0 <= i < |turns| ==> NotBy(turns[i].before, id) && NotBy(turns[i].between, id)
  }

  /** The state of the machine after `n` attempts. */
  function After(start: System, begin: Step, id: nat, turns: seq<Turn>, n: nat): System
    requires n <= |turns|
  {
    if n == 0 then Next(start, begin)
    else RunFrom(After(start, begin, id, turns, n - 1), AttemptSteps(id, turns[n - 1], false))
  }

  /** ... and when the `n`th attempt is the last; a full node ends it after the query. */
  function AfterLast(start: System, begin: Step, id: nat, turns: seq<Turn>, n: nat, full: bool): System
    requires 1 <= n <= |turns|
  {
    RunFrom(After(start, begin, id, turns, n - 1), AttemptSteps(id, turns[n - 1], full))
  }

  lemma RunFromThen(s: System, a: seq<Step>, b: seq<Step>, mid: System)
    requires mid == RunFrom(s, a)
    ensures RunFrom(s, a + b) == RunFrom(mid, b)
  {
    RunFromConcat(s, a, b);
  }

  /** It is a path of the step machine. */
  lemma {:induction false} AfterIsRun(start: System, begin: Step, id: nat, turns: seq<Turn>, n: nat)
    returns (steps: seq<Step>)
    requires n <= |turns|
    ensures After(start, begin, id, turns, n) == RunFrom(start, steps)
    ensures steps == RetriedSteps(begin, id, turns, n)
  {
    if n == 0 {
      RunFromOne(start, begin);
      steps := [begin];
    } else {
      var before := AfterIsRun(start, begin, id, turns, n - 1);
      RunFromThen(start, before, AttemptSteps(id, turns[n - 1], false), After(start, begin, id, turns, n - 1));
      steps := before + AttemptSteps(id, turns[n - 1], false);
    }
  }

  lemma CallIsRun(start: System, begin: Step, id: nat, turns: seq<Turn>, n: nat, full: bool)
    returns (steps: seq<Step>)
    requires 1 <= n <= |turns|
    ensures AfterLast(start, begin, id, turns, n, full) == RunFrom(start, steps)
    ensures steps == RetriedSteps(begin, id, turns, n - 1) + AttemptSteps(id, turns[n - 1], full)
  {
    var before := AfterIsRun(start, begin, id, turns, n - 1);
    RunFromThen(start, before, AttemptSteps(id, turns[n - 1], full), After(start, begin, id, turns, n - 1));
    steps := before + AttemptSteps(id, turns[n - 1], full);
  }

  /** Attempt until the port is inserted, an error is not a conflict, or ten attempts are
      used up.  Whatever others do in between, the call is the path of the step machine made of
      its own steps and theirs, and returns the outcome the machine reaches, so what holds of
      every run holds of it. */
  method AllocatePort(start: System, id: nat, node: string, deployment: string, turns: seq<Turn>)
    returns (r: Result, s: System, attempts: nat)
    requires id !in start.calls && |turns| == MAX_ATTEMPTS && NobodyIs(turns, id)
    ensures 1 <= attempts <= 10 && (r == Error(TooManyRetries) ==> attempts == 10)
    ensures s == AfterLast(start, Begin(id, node, deployment), id, turns, attempts, r == Error(NoPorts))
    ensures id in s.calls && s.calls[id].node == node && s.calls[id].phase == PhaseOf(r)
    ensures s.calls[id].attempt == if r == Error(TooManyRetries) then 10 else attempts - 1
  {
    var begin := Begin(id, node, deployment);
    s := Next(start, begin);
    attempts := 0;
    while attempts < MAX_ATTEMPTS
      invariant attempts <= MAX_ATTEMPTS
      invariant s == After(start, begin, id, turns, attempts)
      invariant id in s.calls && s.calls[id].node == node && s.calls[id].attempt == attempts
      invariant s.calls[id].phase == if attempts < MAX_ATTEMPTS then Ready else Failed(TooManyRetries)
    {
      var a;
      a, s := TryOnce(s, id, turns[attempts]);
      attempts := attempts + 1;
      if a.Got? {
        return Port(a.port), s, attempts;
      }
      if a.Full? || !IsConflict(a.text) {
        return Error(if a.Full? then NoPorts else Database), s, attempts;
      }
    }
    r := Error(TooManyRetries);
  }

  /** What the database says in this turn, if it fails. */
  function ErrorIn(turn: Turn): Option<string> {
    if turn.queryError.Some? then Some("failed to query allocated ports: " + turn.queryError.value)
    else if turn.insertError.Some? then Some("failed to insert port allocation: " + turn.insertError.value)
    else None
  }

  predicate Over(s: System, id: nat) {
    id in s.calls && (s.calls[id].phase.Failed? || s.calls[id].phase.Done?)
  }

  lemma {:induction false} OverStays(s: System, id: nat, steps: seq<Step>)
    requires Over(s, id)
    ensures Over(RunFrom(s, steps), id) && RunFrom(s, steps).calls[id] == s.calls[id]
  {
    if steps != [] {
      OverStays(s, id, steps[..|steps| - 1]);
    }
  }

  /** An attempt that leaves the call going has been counted; one that ends it has not, unless it
      was the tenth. */
  predicate Counted(c: Call, after: Call) {
    || (after.phase.Ready? && after.attempt == c.attempt + 1)
    || ((after.phase.Failed? || after.phase.Done?) && after.attempt == c.attempt)
    || (after.phase == Failed(TooManyRetries) && after.attempt == c.attempt + 1 >= MAX_ATTEMPTS)
  }

  lemma InsertCounts(s: System, id: nat, turn: Turn)
    requires id in s.calls && s.calls[id].phase.Chosen? && NotBy(turn.between, id)
    ensures var after := RunFrom(s, InsertSteps(id, turn));
            && id in after.calls && Counted(s.calls[id], after.calls[id])
            && (turn.insertError.Some?
                && !ReadsLikeConflict("failed to insert port allocation: " + turn.insertError.value) ==>
                  after.calls[id].phase == Failed(Database))
  {
    OthersLeaveCall(s, turn.between, id);
    if turn.insertError.Some? {
      RunFromAppend(s, turn.between, InsertFails(id, turn.insertError.value));
      WordingDecidesRetry(RunFrom(s, turn.between), id, turn.insertError.value, false);
    } else {
      RunFromAppend(s, turn.between, Insert(id));
    }
  }

  lemma AttemptCounts(s: System, id: nat, turn: Turn)
    requires id in s.calls && s.calls[id].phase.Ready? && NotBy(turn.before, id) && NotBy(turn.between, id)
    ensures var after := RunFrom(s, AttemptSteps(id, turn, false));
            && id in after.calls && Counted(s.calls[id], after.calls[id])
            && (ErrorIn(turn).Some? && !ReadsLikeConflict(ErrorIn(turn).value) ==>
                  || after.calls[id].phase == Failed(Database)
                  || (after.calls[id].phase == Failed(NoPorts) && turn.queryError.None?))
  {
    var before := RunFrom(s, turn.before);
    OthersLeaveCall(s, turn.before, id);
    if turn.queryError.Some? {
      RunFromAppend(s, turn.before, QueryFails(id, turn.queryError.value));
      WordingDecidesRetry(before, id, turn.queryError.value, true);
    } else {
      var queried := Next(before, Query(id));
      RunFromAppend(s, turn.before, Query(id));
      RunFromConcat(s, turn.before + [Query(id)], InsertSteps(id, turn));
      if Over(queried, id) {
        OverStays(queried, id, InsertSteps(id, turn));
      } else {
        InsertCounts(queried, id, turn);
      }
    }
  }

  /** A call that is still going has counted every attempt; one that is over, fewer. */
  ghost predicate CountsAttempts(s: System, id: nat, n: nat) {
    && id in s.calls && !s.calls[id].phase.Chosen?
    && (s.calls[id].phase.Ready? ==> s.calls[id].attempt == n)
    && (Over(s, id) ==> s.calls[id].attempt < n || s.calls[id].attempt >= MAX_ATTEMPTS)
    && s.calls[id].attempt <= n
  }

  lemma AttemptKeepsCount(s: System, id: nat, turn: Turn, n: nat)
    requires CountsAttempts(s, id, n) && NotBy(turn.before, id) && NotBy(turn.between, id)
    ensures CountsAttempts(RunFrom(s, AttemptSteps(id, turn, false)), id, n + 1)
  {
    if Over(s, id) {
      OverStays(s, id, AttemptSteps(id, turn, false));
    } else {
      AttemptCounts(s, id, turn);
    }
  }

  lemma {:induction false} AttemptsAreCounted(start: System, begin: Step, id: nat, turns: seq<Turn>, n: nat)
    requires id !in start.calls && begin.Begin? && begin.id == id && NobodyIs(turns, id) && n <= |turns|
    ensures CountsAttempts(After(start, begin, id, turns, n), id, n)
  {
    if n > 0 {
      AttemptsAreCounted(start, begin, id, turns, n - 1);
      AttemptKeepsCount(After(start, begin, id, turns, n - 1), id, turns[n - 1], n - 1);
    }
  }

  /** What the caller is left with when the database fails in this turn and the failure does not
      read like a conflict; the node may have been full already. */
  predicate EndsWithError(phase: Phase, turn: Turn) {
    phase == Failed(Database) || (phase == Failed(NoPorts) && turn.queryError.None?)
  }

  /** The call was over before its attempt `n`, or that attempt ended it with the error. */
  predicate EndedAt(s: System, id: nat, n: nat, turn: Turn) {
    Over(s, id) && (s.calls[id].attempt < n || (s.calls[id].attempt == n && EndsWithError(s.calls[id].phase, turn)))
  }

  /** This turn ends the call whatever the state it is met in. */
  ghost predicate AlwaysEnds(id: nat, turn: Turn) {
    forall s, n: nat :: CountsAttempts(s, id, n) && n < MAX_ATTEMPTS ==>
      EndedAt(RunFrom(s, AttemptSteps(id, turn, false)), id, n, turn)
  }

  lemma UnretriedErrorAlwaysEnds(id: nat, turn: Turn)
    requires NotBy(turn.before, id) && NotBy(turn.between, id)
    requires ErrorIn(turn).Some? && !ReadsLikeConflict(ErrorIn(turn).value)
    ensures AlwaysEnds(id, turn)
  {
    forall s, n: nat | CountsAttempts(s, id, n) && n < MAX_ATTEMPTS
      ensures EndedAt(RunFrom(s, AttemptSteps(id, turn, false)), id, n, turn)
    {
      if Over(s, id) {
        OverStays(s, id, AttemptSteps(id, turn, false));
      } else {
        AttemptCounts(s, id, turn);
      }
    }
  }

  lemma {:induction false} EndedByTurn(start: System, begin: Step, id: nat, turns: seq<Turn>, i: nat, n: nat)
    requires id !in start.calls && begin.Begin? && begin.id == id && NobodyIs(turns, id)
    requires i < n <= |turns| <= MAX_ATTEMPTS && AlwaysEnds(id, turns[i])
    ensures EndedAt(After(start, begin, id, turns, n), id, i, turns[i])
  {
    if i < n - 1 {
      EndedByTurn(start, begin, id, turns, i, n - 1);
      OverStays(After(start, begin, id, turns, n - 1), id, AttemptSteps(id, turns[n - 1], false));
    } else {
      AttemptsAreCounted(start, begin, id, turns, i);
    }
  }

  /** A full node ends an attempt after the query; the rest of it would change nothing. */
  lemma FullEndsAttempt(s: System, id: nat, turn: Turn)
    requires Over(RunFrom(s, AttemptSteps(id, turn, true)), id)
    ensures id in RunFrom(s, AttemptSteps(id, turn, false)).calls
    ensures RunFrom(s, AttemptSteps(id, turn, false)).calls[id] == RunFrom(s, AttemptSteps(id, turn, true)).calls[id]
  {
    if turn.queryError.None? {
      RunFromConcat(s, turn.before + [Query(id)], InsertSteps(id, turn));
      OverStays(RunFrom(s, turn.before + [Query(id)]), id, InsertSteps(id, turn));
    }
  }

  lemma LastAttempt(s: System, id: nat, turn: Turn, full: bool)
    requires Over(RunFrom(s, AttemptSteps(id, turn, full)), id)
    ensures id in RunFrom(s, AttemptSteps(id, turn, false)).calls
    ensures RunFrom(s, AttemptSteps(id, turn, false)).calls[id] == RunFrom(s, AttemptSteps(id, turn, full)).calls[id]
  {
    if full {
      FullEndsAttempt(s, id, turn);
    }
  }

  /** Of an allocation, as its contract describes it: if the database fails in some attempt and
      the text has none of the three words in it, that attempt is the last, and the failure is
      what the caller gets, unless the node was full already. */
  lemma UnretriedErrorEndsCall(start: System, begin: Step, id: nat, turns: seq<Turn>, attempts: nat, full: bool,
                               s: System, i: nat)
    requires id !in start.calls && begin.Begin? && begin.id == id && NobodyIs(turns, id)
    requires i < attempts <= |turns| <= MAX_ATTEMPTS
    requires s == AfterLast(start, begin, id, turns, attempts, full)
    requires Over(s, id) && s.calls[id].attempt >= attempts - 1
    requires ErrorIn(turns[i]).Some? && !ReadsLikeConflict(ErrorIn(turns[i]).value)
    ensures attempts == i + 1 && EndsWithError(s.calls[id].phase, turns[i])
  {
    UnretriedErrorAlwaysEnds(id, turns[i]);
    LastAttempt(After(start, begin, id, turns, attempts - 1), id, turns[attempts - 1], full);
    EndedByTurn(start, begin, id, turns, i, attempts);
  }

  method Wait(s: System, steps: seq<Step>, id: nat) returns (after: System)
    requires NotBy(steps, id) && id in s.calls
    ensures after == RunFrom(s, steps)
    ensures id in after.calls && after.calls[id] == s.calls[id]
  {
    OthersLeaveCall(s, steps, id);
    after := RunFrom(s, steps);
  }

  lemma {:induction false} OthersSurvive(table: Table, row: Row)
    requires forall r :: r in table ==> r.deployment != row.deployment
    ensures RowsExcept(table + [row], row.deployment) == table
  {
    if table != [] {
      assert (table + [row])[1..] == table[1..] + [row];
      OthersSurvive(table[1..], row);
    }
  }

  /** Ports are released by deployment.  Releasing what was just allocated restores the table if
      and only if the deployment held no port before, on whatever node. */
  lemma DeallocateUndoesIff(table: Table, row: Row)
    ensures RowsExcept(table + [row], row.deployment) == table
            <==> forall r :: r in table ==> r.deployment != row.deployment
  {
    if forall r :: r in table ==> r.deployment != row.deployment {
      OthersSurvive(table, row);
    }
  }
}
