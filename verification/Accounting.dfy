/** Metrics: every request is counted once, and every upstream failure once, although
    the counting is spread over the request half, the transport and the response half. */
module Accounting {
  import opened Common
  import opened Http
  import opened CacheSpec
  import opened HandlerSpec
  import SerialRuns

  function CountRequested(events: seq<Event>): nat {
    if events == [] then 0 else (if events[0].Requested? then 1 else 0) + CountRequested(events[1..])
  }

  function CountUpstreamErrors(events: seq<Event>): nat {
    if events == [] then 0 else (if events[0].UpstreamError? then 1 else 0) + CountUpstreamErrors(events[1..])
  }

  lemma {:induction false} CountsAdd(a: seq<Event>, b: seq<Event>)
    ensures CountRequested(a + b) == CountRequested(a) + CountRequested(b)
    ensures CountUpstreamErrors(a + b) == CountUpstreamErrors(a) + CountUpstreamErrors(b)
    decreases |a|
  {
    if a == [] {
      assert a + b == b;
    } else {
      assert (a + b)[1..] == a[1..] + b;
      CountsAdd(a[1..], b);
    }
  }

  lemma CountsOfOne(e: Event)
    ensures CountRequested([e]) == if e.Requested? then 1 else 0
    ensures CountUpstreamErrors([e]) == if e.UpstreamError? then 1 else 0
  {
    assert [e][1..] == [];
  }

  lemma CountsOfTwo(e: Event, f: Event)
    ensures CountRequested([e, f]) == (if e.Requested? then 1 else 0) + if f.Requested? then 1 else 0
    ensures CountUpstreamErrors([e, f]) == (if e.UpstreamError? then 1 else 0) + if f.UpstreamError? then 1 else 0
  {
    assert [e, f] == [e] + [f];
    CountsAdd([e], [f]);
    CountsOfOne(e);
    CountsOfOne(f);
  }

  /** The request half counts the request unless an exchange is left open for it, and
      never counts an upstream error. */
  lemma RequestHalfCounts(cfg: Config, req: Request, found: GetOutcome, now: nat)
    ensures var r := OnRequest(cfg, req, found, now);
            && CountRequested(r.events) ==
                 (if req.parsed && !(r.decision.Forward? && r.decision.state.Some?) then 1 else 0)
            && CountUpstreamErrors(r.events) == 0
  {
    var r := OnRequest(cfg, req, found, now);
    if |r.events| == 1 {
      assert r.events == [r.events[0]];
      CountsOfOne(r.events[0]);
    } else if |r.events| == 2 {
      assert r.events == [r.events[0], r.events[1]];
      CountsOfTwo(r.events[0], r.events[1]);
    }
  }

  /** The events of an exchange that ends: what was logged before, perhaps a digest
      mismatch, and then the request. */
  predicate EndsWithRequest(events: seq<Event>, before: seq<Event>) {
    var n := |before|;
    && (|events| == n + 1 || (|events| == n + 2 && events[n].DigestMismatch?))
    && events[..n] == before && events[|events| - 1].Requested?
  }

  lemma OneMoreEnds(before: seq<Event>, e: Event)
    requires e.Requested?
    ensures EndsWithRequest(before + [e], before)
  {
  }

  lemma TwoMoreEnd(before: seq<Event>, m: Event, e: Event)
    requires m.DigestMismatch? && e.Requested?
    ensures EndsWithRequest(before + [m, e], before)
  {
  }

  lemma BodyEndsWithRequest(cfg: Config, req: Request, resp: Response, outcome: CacheOutcome, now: nat, before: seq<Event>)
    ensures EndsWithRequest(OnBody(cfg, req, resp, outcome, now, before).events, before)
  {
    var events := OnBody(cfg, req, resp, outcome, now, before).events;
    var last := events[|events| - 1];
    if IsVerified(cfg, req) && !BodyMatches(cfg, req, resp.body) {
      TwoMoreEnd(before, DigestMismatch(false), last);
    } else {
      OneMoreEnds(before, last);
    }
  }

  lemma AnswerEndsWithRequest(cfg: Config, req: Request, state: ReqState, resp: Response, now: nat, before: seq<Event>)
    ensures EndsWithRequest(OnAnswer(cfg, req, state, resp, now, before).events, before)
  {
    BodyEndsWithRequest(cfg, req, resp, HandlerSpec.OutcomeOf(cfg), now, before);
    var events := OnAnswer(cfg, req, state, resp, now, before).events;
    if !(IsCacheable(resp.status) && !resp.truncated && (state.fallback.Some? ==> IsSuccess(resp.status))) {
      OneMoreEnds(before, events[|events| - 1]);
    }
  }

  lemma ResponseEndsWithRequest(cfg: Config, req: Request, state: ReqState, answer: Response, now: nat)
    ensures EndsWithRequest(OnResponse(cfg, req, Some(state), Some(answer), now).events,
                            if answer.status >= 500 && !IsMarked(answer) then [UpstreamError] else [])
  {
    var resp := if IsMarked(answer) then answer.(header := HeaderDel(answer.header, MARKER)) else answer;
    var before := if answer.status >= 500 && !IsMarked(answer) then [UpstreamError] else [];
    AnswerEndsWithRequest(cfg, req, state, resp, now, before);
    assert OnResponse(cfg, req, Some(state), Some(answer), now) == OnAnswer(cfg, req, state, resp, now, before);
  }

  lemma CountsOfEnd(events: seq<Event>, before: seq<Event>)
    requires EndsWithRequest(events, before)
    ensures CountRequested(events) == CountRequested(before) + 1
    ensures CountUpstreamErrors(events) == CountUpstreamErrors(before)
  {
    var n, last := |before|, events[|events| - 1];
    if |events| == n + 1 {
      assert events == before + [last];
      CountsAdd(before, [last]);
      CountsOfOne(last);
    } else {
      assert events == before + [events[n], last];
      CountsAdd(before, [events[n], last]);
      CountsOfTwo(events[n], last);
    }
  }

  /** The response half counts its request once, and an upstream error when the answer
      is a 5xx that does not carry the transport's marker. */
  lemma ResponseHalfCounts(cfg: Config, req: Request, state: ReqState, answer: Response, now: nat)
    ensures var events := OnResponse(cfg, req, Some(state), Some(answer), now).events;
            && CountRequested(events) == 1
            && CountUpstreamErrors(events) == if answer.status >= 500 && !IsMarked(answer) then 1 else 0
  {
    var events := OnResponse(cfg, req, Some(state), Some(answer), now).events;
    var errors := if answer.status >= 500 && !IsMarked(answer) then [UpstreamError] else [];
    ResponseEndsWithRequest(cfg, req, state, answer, now);
    CountsOfEnd(events, errors);
    CountsOfOne(UpstreamError);
  }

  // ---- one exchange ----

  /** The transport failed or upstream answered 5xx. */
  predicate IsFailure(up: Upstream) {
    up.Fails? || up.resp.status >= 500
  }

  /** Upstream itself sent a 5xx that carries the proxy's private marker header. */
  predicate IsMasquerade(up: Upstream) {
    up.Answers? && up.resp.status >= 500 && IsMarked(up.resp)
  }

  lemma FailurePageIsMarked(message: string)
    ensures IsMarked(RoundTrip(Fails(message)).0) && RoundTrip(Fails(message)).0.status == BAD_GATEWAY
  {
  }

  /** The events of the second half of an exchange: transport, then response. */
  function AnswerEvents(cfg: Config, req: Request, state: ReqState, up: Upstream, now: nat): seq<Event> {
    RoundTrip(up).1 + OnResponse(cfg, req, Some(state), Some(RoundTrip(up).0), now).events
  }

  /** A failure of an exchange that consulted the cache is counted exactly once across
      transport and handler, and no success is, precisely when upstream did not put the
      marker on a 5xx of its own. */
  lemma FailureCountedOnceIff(cfg: Config, req: Request, state: ReqState, up: Upstream, now: nat)
    ensures CountRequested(AnswerEvents(cfg, req, state, up, now)) == 1
    ensures CountUpstreamErrors(AnswerEvents(cfg, req, state, up, now)) == if IsFailure(up) && !IsMasquerade(up) then 1 else 0
    ensures CountUpstreamErrors(AnswerEvents(cfg, req, state, up, now)) == (if IsFailure(up) then 1 else 0)
            <==> !IsMasquerade(up)
  {
    var trip := RoundTrip(up);
    CountsAdd(trip.1, OnResponse(cfg, req, Some(state), Some(trip.0), now).events);
    ResponseHalfCounts(cfg, req, state, trip.0, now);
    CountsOfOne(UpstreamError);
    if up.Fails? {
      FailurePageIsMarked(up.message);
    }
  }

  // ---- runs ----

  /** Traffic in full: any number of exchanges open at once, several for one key or for one
      URL among them, while storage changes in any way between the turns. */
  datatype Traffic = Traffic(objects: Objects, open: seq<SerialRuns.Open>)

  datatype Turn =
    | Arrives(req: Request, now: nat, f: Faults)            // HandleRequest
    | Returns(i: nat, up: Upstream, now: nat, f: Faults)    // the i-th open exchange ends
    | Elsewhere(objects: Objects)                           // whatever else moves storage

  function AnsweredBy(cfg: Config, open: SerialRuns.Open, up: Upstream, now: nat): Handling {
    OnResponse(cfg, open.req, Some(open.state), Some(RoundTrip(up).0), now)
  }

  function Next(cfg: Config, t: Traffic, turn: Turn): Traffic {
    match turn
    case Arrives(req, now, f) =>
      var r := Rule(cfg, t.objects, req, now, f);
      Traffic(AfterRuling(t.objects, KeyOf(cfg, req), r, f),
              if r.decision.Forward? && r.decision.state.Some? then t.open + [SerialRuns.Open(req, r.decision.state.value)] else t.open)
    case Returns(i, up, now, f) =>
      if i >= |t.open| then t
      else
        Traffic(AfterEffect(cfg, t.objects, KeyOf(cfg, t.open[i].req), AnsweredBy(cfg, t.open[i], up, now).effect, f),
                t.open[..i] + t.open[i + 1..])
    case Elsewhere(objects) => t.(objects := objects)
  }

  function Run(cfg: Config, t: Traffic, turns: seq<Turn>): Traffic
    decreases |turns|
  {
    if turns == [] then t else Run(cfg, Next(cfg, t, turns[0]), turns[1..])
  }

  /** The events a turn logs. */
  function EventsOf(cfg: Config, t: Traffic, turn: Turn): seq<Event> {
    match turn
    case Arrives(req, now, f) => Rule(cfg, t.objects, req, now, f).events
    case Returns(i, up, now, f) =>
      if i >= |t.open| then [] else AnswerEvents(cfg, t.open[i].req, t.open[i].state, up, now)
    case Elsewhere(_) => []
  }

  function LogOf(cfg: Config, t: Traffic, turns: seq<Turn>): seq<Event>
    decreases |turns|
  {
    if turns == [] then [] else EventsOf(cfg, t, turns[0]) + LogOf(cfg, Next(cfg, t, turns[0]), turns[1..])
  }

  /** Every request with a parsed URL. */
  function CountArrived(turns: seq<Turn>): nat {
    if turns == [] then 0
    else (if turns[0].Arrives? && turns[0].req.parsed then 1 else 0) + CountArrived(turns[1..])
  }

  predicate EndsInFailure(t: Traffic, turn: Turn) {
    turn.Returns? && turn.i < |t.open| && IsFailure(turn.up)
  }

  /** Exchanges whose upstream failed. */
  function CountFailed(cfg: Config, t: Traffic, turns: seq<Turn>): nat
    decreases |turns|
  {
    if turns == [] then 0
    else (if EndsInFailure(t, turns[0]) then 1 else 0) + CountFailed(cfg, Next(cfg, t, turns[0]), turns[1..])
  }

  predicate EndsForged(t: Traffic, turn: Turn) {
    turn.Returns? && turn.i < |t.open| && IsMasquerade(turn.up)
  }

  /** Those among them whose upstream forged the marker. */
  function CountForged(cfg: Config, t: Traffic, turns: seq<Turn>): nat
    decreases |turns|
  {
    if turns == [] then 0
    else (if EndsForged(t, turns[0]) then 1 else 0) + CountForged(cfg, Next(cfg, t, turns[0]), turns[1..])
  }

  lemma TurnCounts(cfg: Config, t: Traffic, turn: Turn)
    ensures CountRequested(EventsOf(cfg, t, turn)) + |Next(cfg, t, turn).open| ==
            |t.open| + if turn.Arrives? && turn.req.parsed then 1 else 0
    ensures CountUpstreamErrors(EventsOf(cfg, t, turn)) + (if EndsForged(t, turn) then 1 else 0) ==
            if EndsInFailure(t, turn) then 1 else 0
  {
    match turn
    case Arrives(req, now, f) =>
      RequestHalfCounts(cfg, req, Lookup(cfg.codec, t.objects, KeyOf(cfg, req), f), now);
    case Returns(i, up, now, f) =>
      if i < |t.open| {
        FailureCountedOnceIff(cfg, t.open[i].req, t.open[i].state, up, now);
      }
    case Elsewhere(_) =>
  }

  /** Exactly-once accounting: over any run, with any exchanges overlapping, each request
      with a parsed URL has been counted once unless its exchange is still open. */
  lemma {:induction false} RequestsCountedOnce(cfg: Config, t: Traffic, turns: seq<Turn>)
    ensures CountRequested(LogOf(cfg, t, turns)) + |Run(cfg, t, turns).open| == |t.open| + CountArrived(turns)
    decreases |turns|
  {
    if turns != [] {
      var next := Next(cfg, t, turns[0]);
      TurnCounts(cfg, t, turns[0]);
      CountsAdd(EventsOf(cfg, t, turns[0]), LogOf(cfg, next, turns[1..]));
      RequestsCountedOnce(cfg, next, turns[1..]);
    }
  }

  /** Over any run the exchanges that failed are those counted as upstream errors, once
      each, and those whose upstream forged the marker; so the count is right exactly when
      none did. */
  lemma {:induction false} FailuresCountedOnce(cfg: Config, t: Traffic, turns: seq<Turn>)
    ensures CountUpstreamErrors(LogOf(cfg, t, turns)) + CountForged(cfg, t, turns) == CountFailed(cfg, t, turns)
    decreases |turns|
  {
    if turns != [] {
      var next := Next(cfg, t, turns[0]);
      TurnCounts(cfg, t, turns[0]);
      CountsAdd(EventsOf(cfg, t, turns[0]), LogOf(cfg, next, turns[1..]));
      FailuresCountedOnce(cfg, next, turns[1..]);
    }
  }
}
