/**
 The per-target circuit breaker.  `Breaker` is its state as a value; the class keeps
 the same three fields in place.  Every answer and every state is then shown to be a
 function of the calls made, whatever the clock does.
 */
module CircuitBreaking {
  import opened Sequences

  datatype Phase = Closed | Open | HalfOpen

  const FAILURE_THRESHOLD: nat := 5
  const OPEN_SECONDS := 30.0

  datatype Breaker = Breaker(phase: Phase, failures: nat, lastFailure: real)

  const NEW_BREAKER := Breaker(Closed, 0, 0.0)

  predicate Lets(b: Breaker, now: real) {
    b.phase.Closed? || (b.phase.Open? && now - b.lastFailure >= OPEN_SECONDS)
  }

  function AfterAllow(b: Breaker, now: real): Breaker {
    if b.phase.Open? && Lets(b, now) then b.(phase := HalfOpen) else b
  }

  function AfterSuccess(b: Breaker): Breaker {
    b.(phase := Closed, failures := 0)
  }

  function AfterFailure(b: Breaker, now: real): Breaker {
    Breaker(if b.failures + 1 >= FAILURE_THRESHOLD then Open else b.phase, b.failures + 1, now)
  }

  class CircuitBreaker {
    var phase: Phase
    var failures: nat
    var lastFailure: real

    function View(): Breaker
      reads this
    {
      Breaker(phase, failures, lastFailure)
    }

    constructor ()
      ensures View() == NEW_BREAKER
    {
      phase, failures, lastFailure := Closed, 0, 0.0;
    }

    method Allow(now: real) returns (ok: bool)
      modifies this
      ensures ok == old(Lets(View(), now))
      ensures View() == old(AfterAllow(View(), now))
    {
      match phase
      case Closed =>
        return true;
      case Open =>
        if now - lastFailure >= OPEN_SECONDS {
          phase := HalfOpen;
          return true;
        }
        return false;
      case HalfOpen =>
        return false;
    }

    method RecordSuccess()
      modifies this
      ensures View() == old(AfterSuccess(View()))
    {
      failures := 0;
      phase := Closed;
    }

    method RecordFailure(now: real)
      modifies this
      ensures View() == old(AfterFailure(View(), now))
    {
      failures := failures + 1;
      lastFailure := now;
      if failures >= FAILURE_THRESHOLD {
        phase := Open;
      }
    }
  }

  // ----- Histories -----

  datatype Call = Allow(at: real) | Success | Failure(at: real)

  function AfterCall(b: Breaker, c: Call): Breaker {
    match c
    case Allow(at) => AfterAllow(b, at)
    case Success => AfterSuccess(b)
    case Failure(at) => AfterFailure(b, at)
  }

  function Replay(h: seq<Call>): Breaker {
    if h == [] then NEW_BREAKER else
    AfterCall(Replay(h[..|h| - 1]), h[|h| - 1])
  }

  /** Call `i` was an `Allow` that returned true. */
  predicate Granted(h: seq<Call>, i: nat)
    requires i < |h|
  {
    h[i].Allow? && Lets(Replay(h[..i]), h[i].at)
  }

  /** The calls after the last recorded success. */
  function SinceSuccess(h: seq<Call>): seq<Call> {
    if h == [] || h[|h| - 1].Success? then [] else SinceSuccess(h[..|h| - 1]) + [h[|h| - 1]]
  }

  function FailuresIn(h: seq<Call>): nat {
    if h == [] then 0 else FailuresIn(h[..|h| - 1]) + if h[|h| - 1].Failure? then 1 else 0
  }

  predicate Tripped(h: seq<Call>) {
    FailuresIn(SinceSuccess(h)) >= FAILURE_THRESHOLD
  }

  /** No outcome was recorded from call `i` on. */
  predicate OnlyAllowsFrom(h: seq<Call>, i: nat) {
    forall j :: i <= j < |h| ==> h[j].Allow?
  }

  ghost predicate GrantedSinceRecord(h: seq<Call>) {
    exists i :: 0 <= i < |h| && OnlyAllowsFrom(h, i) && Granted(h, i)
  }

  /** `at` is the time of the latest recorded failure. */
  ghost predicate LatestFailure(h: seq<Call>, at: real) {
    exists i :: 0 <= i < |h| && h[i] == Failure(at) && forall j :: i < j < |h| ==> !h[j].Failure?
  }

  lemma GrantedExtends(h: seq<Call>, c: Call)
    ensures var g := h + [c];
            (GrantedSinceRecord(g) <==> c.Allow? && (GrantedSinceRecord(h) || Granted(g, |h|)))
    ensures c.Failure? ==> LatestFailure(h + [c], c.at)
    ensures forall at :: !c.Failure? && LatestFailure(h, at) ==> LatestFailure(h + [c], at)
  {
    var g := h + [c];
    assert forall i :: 0 <= i < |h| ==> g[i] == h[i] && g[..i] == h[..i];
    if i :| 0 <= i < |g| && OnlyAllowsFrom(g, i) && Granted(g, i) {
      assert g[|h|].Allow?;
      assert i < |h| ==> OnlyAllowsFrom(h, i) && Granted(h, i);
    }
    if c.Allow? {
      if i :| 0 <= i < |h| && OnlyAllowsFrom(h, i) && Granted(h, i) {
        assert OnlyAllowsFrom(g, i) && Granted(g, i);
      }
      assert OnlyAllowsFrom(g, |h|);
    }
    if c.Failure? {
      assert g[|h|] == Failure(c.at);
    }
    forall at | !c.Failure? && LatestFailure(h, at) ensures LatestFailure(g, at) {
      var i :| 0 <= i < |h| && h[i] == Failure(at) && forall j :: i < j < |h| ==> !h[j].Failure?;
      assert g[i] == Failure(at);
    }
  }

  /** The whole state is determined by the calls made: the counter is the failures since
      the last success, the circuit is closed exactly below the threshold, and it is half
      open exactly when tripped with a request let through since the last recorded outcome. */
  lemma {:induction false} StateIsHistory(h: seq<Call>)
    ensures Replay(h).failures == FailuresIn(SinceSuccess(h))
    ensures Replay(h).phase.Closed? <==> !Tripped(h)
    ensures Tripped(h) <==> FailuresIn(SinceSuccess(h)) >= 5
    ensures Replay(h).phase.HalfOpen? <==> Tripped(h) && GrantedSinceRecord(h)
    ensures Tripped(h) ==> LatestFailure(h, Replay(h).lastFailure)
  {
    if h != [] {
      var g, c := h[..|h| - 1], h[|h| - 1];
      assert h == g + [c];
      StateIsHistory(g);
      GrantedExtends(g, c);
      if !c.Success? {
        assert SinceSuccess(h)[..|SinceSuccess(h)| - 1] == SinceSuccess(g);
      }
      assert h[..|g|] == g;
    }
  }

  lemma LatestFailureUnique(h: seq<Call>, a: real, b: real)
    requires LatestFailure(h, a) && LatestFailure(h, b)
    ensures a == b
  {
  }

  /** Hence so is every answer: while tripped, only a request made at least the open duration
      after the latest failure gets through, and only the first since the last outcome. */
  lemma AnswerIsHistory(h: seq<Call>, now: real, failed: real)
    requires Tripped(h) ==> LatestFailure(h, failed)
    ensures Lets(Replay(h), now) <==>
              !Tripped(h) || (!GrantedSinceRecord(h) && now - failed >= 30.0)
  {
    StateIsHistory(h);
    if Tripped(h) {
      LatestFailureUnique(h, failed, Replay(h).lastFailure);
    }
  }

  /** Once tripped, at most one request gets through between recorded outcomes. */
  lemma OneProbePerRecord(h: seq<Call>, i: nat, j: nat)
    requires i < j < |h| && Tripped(h[..i])
    requires forall k :: i <= k <= j ==> h[k].Allow?
    ensures !(Granted(h, i) && Granted(h, j))
  {
    if Granted(h, i) && Granted(h, j) {
      var g := h[..j];
      assert OnlyAllowsFrom(g, i) && g[..i] == h[..i] && Granted(g, i);
      StateIsHistory(g);
      TrippedThroughAllows(h, i, j);
    }
  }

  lemma {:induction false} TrippedThroughAllows(h: seq<Call>, i: nat, j: nat)
    requires i <= j <= |h| && forall k :: i <= k < j ==> h[k].Allow?
    ensures Tripped(h[..i]) == Tripped(h[..j])
    decreases j
  {
    if i < j {
      TrippedThroughAllows(h, i, j - 1);
      assert h[..j][..j - 1] == h[..j - 1];
      var s := SinceSuccess(h[..j]);
      assert s[..|s| - 1] == SinceSuccess(h[..j - 1]);
    }
  }

  /** A probe whose outcome is never recorded leaves the target refused for good: from half
      open, no number of further requests, at any times, is let through. */
  lemma {:induction false} LostProbeRefusesForever(h: seq<Call>, more: seq<Call>, now: real)
    requires Replay(h).phase.HalfOpen? && OnlyAllowsFrom(more, 0)
    ensures Replay(h + more) == Replay(h) && !Lets(Replay(h + more), now)
  {
    if more == [] {
      assert h + more == h;
    } else {
      var g := more[..|more| - 1];
      LostProbeRefusesForever(h, g, more[|more| - 1].at);
      assert (h + more)[..|h + more| - 1] == h + g;
    }
  }

  /** Any failure recorded in half open reopens the circuit and restarts the wait; any
      success closes it. */
  lemma HalfOpenLeavesOnRecord(h: seq<Call>, at: real, now: real)
    requires Replay(h).phase.HalfOpen?
    ensures Lets(Replay(h + [Failure(at)]), now) <==> now - at >= OPEN_SECONDS
    ensures Lets(Replay(h + [Success]), now)
  {
    StateIsHistory(h);
    ReplayAppend(h, Failure(at));
    ReplayAppend(h, Success);
  }

  lemma ReplayAppend(h: seq<Call>, c: Call)
    ensures Replay(h + [c]) == AfterCall(Replay(h), c)
  {
  }

  // ----- Requests in flight -----

  /** A request asks once; if it is let through, it may report its outcome once. */
  datatype Event = Ask(id: nat, at: real) | Report(id: nat, ok: bool, at: real)

  function CallOf(e: Event): Call {
    match e
    case Ask(_, at) => Allow(at)
    case Report(_, ok, at) => if ok then Success else Failure(at)
  }

  function Calls(h: seq<Event>): seq<Call> {
    if h == [] then [] else Calls(h[..|h| - 1]) + [CallOf(h[|h| - 1])]
  }

  function Asked(h: seq<Event>): set<nat> {
    if h == [] then {} else
    var earlier := Asked(h[..|h| - 1]);
    if h[|h| - 1].Ask? then earlier + {h[|h| - 1].id} else earlier
  }

  /** The requests let through that have not reported. */
  function Outstanding(h: seq<Event>): set<nat> {
    if h == [] then {} else
    var earlier, before := Outstanding(h[..|h| - 1]), Calls(h[..|h| - 1]);
    match h[|h| - 1]
    case Ask(id, at) => if Lets(Replay(before), at) then earlier + {id} else earlier
    case Report(id, _, _) => earlier - {id}
  }

  /** The probes in flight: let through while tripped and not reported. */
  function Probes(h: seq<Event>): set<nat> {
    if h == [] then {} else
    var earlier, before := Probes(h[..|h| - 1]), Calls(h[..|h| - 1]);
    match h[|h| - 1]
    case Ask(id, at) => if Tripped(before) && Lets(Replay(before), at) then earlier + {id} else earlier
    case Report(id, _, _) => earlier - {id}
  }

  /** Ids are not reused, and only a request in flight reports. */
  predicate Legal(h: seq<Event>) {
    h != [] ==>
      var g, e := h[..|h| - 1], h[|h| - 1];
      Legal(g) && if e.Ask? then e.id !in Asked(g) else e.id in Outstanding(g)
  }

  lemma EventAppended(h: seq<Event>, e: Event)
    ensures (h + [e])[..|h + [e]| - 1] == h
    ensures Calls(h + [e]) == Calls(h) + [CallOf(e)]
    ensures Replay(Calls(h + [e])) == AfterCall(Replay(Calls(h)), CallOf(e))
  {
    assert (h + [e])[..|h + [e]| - 1] == h;
    ReplayAppend(Calls(h), CallOf(e));
  }

  lemma AskAppended(h: seq<Event>, id: nat, at: real)
    ensures var g, b := h + [Ask(id, at)], Replay(Calls(h));
            && Replay(Calls(g)) == AfterAllow(b, at)
            && Asked(g) == Asked(h) + {id}
            && Outstanding(g) == (if Lets(b, at) then Outstanding(h) + {id} else Outstanding(h))
            && Probes(g) == (if b.failures >= FAILURE_THRESHOLD && Lets(b, at) then Probes(h) + {id} else Probes(h))
            && Legal(g) == (Legal(h) && id !in Asked(h))
  {
    EventAppended(h, Ask(id, at));
    StateIsHistory(Calls(h));
  }

  lemma ReportAppended(h: seq<Event>, id: nat, ok: bool, at: real)
    ensures var g, b := h + [Report(id, ok, at)], Replay(Calls(h));
            && Replay(Calls(g)) == (if ok then AfterSuccess(b) else AfterFailure(b, at))
            && Asked(g) == Asked(h)
            && Outstanding(g) == Outstanding(h) - {id}
            && Probes(g) == Probes(h) - {id}
            && Legal(g) == (Legal(h) && id in Outstanding(h))
  {
    EventAppended(h, Report(id, ok, at));
  }

  lemma {:induction false} InFlightIsAsked(h: seq<Event>)
    requires Legal(h)
    ensures Probes(h) <= Outstanding(h) <= Asked(h)
  {
    if h != [] {
      InFlightIsAsked(h[..|h| - 1]);
    }
  }

  /** None of these requests reports. */
  predicate Silent(g: seq<Event>, ids: set<nat>) {
    forall i :: 0 <= i < |g| && g[i].Report? ==> g[i].id !in ids
  }

  /** From the moment request `probe` is let through and until it reports, it is the only
      probe in flight, whatever else happens.  The requests in `mute` never report, as those
      that became WebSocket connections do not. */
  ghost predicate StaysOnly(h: seq<Event>, probe: nat, at: real, mute: set<nat>) {
    forall g :: Legal(h + [Ask(probe, at)] + g) && Silent(g, mute + {probe}) ==>
      Probes(h + [Ask(probe, at)] + g) == {probe}
  }

  /** A probe about to go out: the circuit is tripped and lets this new request through. */
  predicate SendsProbe(h: seq<Event>, probe: nat, at: real) {
    Legal(h + [Ask(probe, at)]) && Tripped(Calls(h)) && Lets(Replay(Calls(h)), at)
  }

  /** A probe that goes out while nothing else in flight can report shuts everyone out. */
  lemma {:induction false} LoneProbeBlocks(h: seq<Event>, probe: nat, at: real, mute: set<nat>, g: seq<Event>)
    requires SendsProbe(h, probe, at) && Outstanding(h) <= mute
    requires Legal(h + [Ask(probe, at)] + g) && Silent(g, mute + {probe})
    ensures var run := h + [Ask(probe, at)] + g;
            && Replay(Calls(run)).phase.HalfOpen?
            && Outstanding(run) == Outstanding(h) + {probe} && Probes(run) == Probes(h) + {probe}
  {
    var base := h + [Ask(probe, at)];
    if g == [] {
      AskAppended(h, probe, at);
      StateIsHistory(Calls(h));
      assert base + g == base;
    } else {
      var init, e := g[..|g| - 1], g[|g| - 1];
      assert base + g == base + init + [e];
      EventAppended(base + init, e);
      LoneProbeBlocks(h, probe, at, mute, init);
    }
  }

  /** An older request still in flight can report a failure while the probe is out; once the
      wait is over a second probe joins the first. */
  lemma OlderRequestReleasesSecondProbe(h: seq<Event>, probe: nat, at: real, older: nat, late: real, second: nat)
    requires SendsProbe(h, probe, at) && older in Outstanding(h)
    requires second !in Asked(h) + {probe}
    ensures var run := h + [Ask(probe, at)] + [Report(older, false, late), Ask(second, late + OPEN_SECONDS)];
            Legal(run) && {probe, second} <= Probes(run)
  {
    var sent := h + [Ask(probe, at)];
    var reported := sent + [Report(older, false, late)];
    var run := reported + [Ask(second, late + OPEN_SECONDS)];
    StateIsHistory(Calls(h));
    AskAppended(h, probe, at);
    InFlightIsAsked(h);
    ReportAppended(sent, older, false, late);
    AskAppended(reported, second, late + OPEN_SECONDS);
    assert run == sent + [Report(older, false, late), Ask(second, late + OPEN_SECONDS)];
  }

  lemma OlderRequestEndsIt(h: seq<Event>, probe: nat, at: real, mute: set<nat>, older: nat)
    requires SendsProbe(h, probe, at) && older in Outstanding(h) && older !in mute
    ensures !StaysOnly(h, probe, at, mute)
  {
    var second := FreshId(Asked(h) + {probe});
    OlderRequestReleasesSecondProbe(h, probe, at, older, at, second);
    EventAppended(h, Ask(probe, at));
    InFlightIsAsked(h);
    var g := [Report(older, false, at), Ask(second, at + OPEN_SECONDS)];
    assert Silent(g, mute + {probe}) && second in Probes(h + [Ask(probe, at)] + g);
  }

  lemma OtherProbeEndsIt(h: seq<Event>, probe: nat, at: real, mute: set<nat>)
    requires SendsProbe(h, probe, at) && Probes(h) != {}
    ensures !StaysOnly(h, probe, at, mute)
  {
    var base := h + [Ask(probe, at)];
    AskAppended(h, probe, at);
    InFlightIsAsked(h);
    StateIsHistory(Calls(h));
    assert base + [] == base && Silent([], mute + {probe}) && Probes(base) == Probes(h) + {probe};
  }

  /** "One probe at a time" holds for a probe, until it reports, if and only if, when it went
      out, no other probe was in flight and no other request in flight could ever report. */
  lemma OneProbeIff(h: seq<Event>, probe: nat, at: real, mute: set<nat>)
    requires SendsProbe(h, probe, at)
    ensures StaysOnly(h, probe, at, mute) <==> Outstanding(h) <= mute && Probes(h) == {}
  {
    if older :| older in Outstanding(h) && older !in mute {
      OlderRequestEndsIt(h, probe, at, mute, older);
    } else if Probes(h) != {} {
      OtherProbeEndsIt(h, probe, at, mute);
    } else {
      var base := h + [Ask(probe, at)];
      forall g | Legal(base + g) && Silent(g, mute + {probe}) ensures Probes(base + g) == {probe} {
        LoneProbeBlocks(h, probe, at, mute, g);
      }
    }
  }

  /** Request 0 is let through and stays in flight while requests 1 to `n` fail. */
  function Failing(n: nat): seq<Event> {
    if n == 0 then [Ask(0, 0.0)] else Failing(n - 1) + [Ask(n, 0.0)] + [Report(n, false, 0.0)]
  }

  ghost predicate OneLeftOfMany(h: seq<Event>, n: nat) {
    && Legal(h) && Outstanding(h) == {0} && Probes(h) == {} && (forall id :: id in Asked(h) ==> id <= n)
    && Replay(Calls(h)) == Breaker(if n < FAILURE_THRESHOLD then Closed else Open, n, 0.0)
  }

  lemma OneAsks()
    ensures OneLeftOfMany([Ask(0, 0.0)], 0)
  {
    AskAppended([], 0, 0.0);
    assert [] + [Ask(0, 0.0)] == [Ask(0, 0.0)];
  }

  lemma OneMoreFails(h: seq<Event>, n: nat, g: seq<Event>)
    requires OneLeftOfMany(h, n) && n < FAILURE_THRESHOLD
    requires g == h + [Ask(n + 1, 0.0)] + [Report(n + 1, false, 0.0)]
    ensures OneLeftOfMany(g, n + 1)
  {
    AskAppended(h, n + 1, 0.0);
    ReportAppended(h + [Ask(n + 1, 0.0)], n + 1, false, 0.0);
  }

  lemma {:induction false} FailingTrips(n: nat)
    requires n <= FAILURE_THRESHOLD
    ensures OneLeftOfMany(Failing(n), n)
  {
    if n == 0 {
      OneAsks();
    } else {
      FailingTrips(n - 1);
      OneMoreFails(Failing(n - 1), n - 1, Failing(n));
    }
  }

  /** A run with two probes in flight: five failures, a probe, the late failure of request 0,
      and 30 s later another probe. */
  lemma TwoProbesInFlight()
    ensures var run := Failing(5) + [Ask(6, 30.0)] + [Report(0, false, 30.0), Ask(7, 60.0)];
            Legal(run) && {6, 7} <= Probes(run)
  {
    ProbeAfterFailures();
    OlderRequestReleasesSecondProbe(Failing(5), 6, 30.0, 0, 30.0, 7);
  }

  lemma ProbeAfterFailures()
    ensures OneLeftOfMany(Failing(5), 5) && SendsProbe(Failing(5), 6, 30.0)
  {
    FailingTrips(5);
    StateIsHistory(Calls(Failing(5)));
    AskAppended(Failing(5), 6, 30.0);
  }

  /** Had request 0 become a WebSocket connection, the probe would stay the only one. */
  lemma MuteRequestKeepsProbeAlone()
    ensures StaysOnly(Failing(5), 6, 30.0, {0})
  {
    ProbeAfterFailures();
    OneProbeIff(Failing(5), 6, 30.0, {0});
  }
}
