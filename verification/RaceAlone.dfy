/** A request that runs alone: however its operations are scheduled over the tiers, with
    every backend working, it does exactly what the sequential handlers do to one map. */
module RaceAlone {
  import opened Common
  import opened Http
  import opened CacheSpec
  import opened HandlerSpec
  import opened TieredStorage
  import opened TierEntries
  import opened SerialRuns
  import opened DigestRace

  /** A race with a single thread. */
  function One(tiers: seq<Objects>, req: Request, place: Place): Race {
    Race(tiers, [Thread(req, place)])
  }

  /** An operation of the lone thread that does not fail. */
  predicate IsLone(a: Action) {
    a.Go? && a.thread == 0 && a.read.Reads? && a.write.Writes? && a.drop.Drops?
  }

  // ---- what the sequential handlers would do ----

  /** What the two halves of one exchange decide: the ruling on the request and the effect
      of the answer. */
  datatype Plan = Plan(ruling: Ruling, effect: Effect)

  predicate Forwards(p: Plan) {
    p.ruling.decision.Forward? && p.ruling.decision.state.Some?
  }

  /** The map between the two halves. */
  function Between(m: Objects, key: string, p: Plan): Objects {
    AfterRuling(m, key, p.ruling, NO_FAULTS)
  }

  /** The map after the exchange. */
  function Final(cfg: Config, m: Objects, key: string, p: Plan): Objects {
    if Forwards(p) then AfterEffect(cfg, Between(m, key, p), key, p.effect, NO_FAULTS) else Between(m, key, p)
  }

  /** The clock at the lookup, upstream's answer, and the clock when it arrived. */
  datatype Moments = Moments(now: nat, up: Upstream, later: nat)

  /** Upstream's answer has been taken. */
  predicate IsAnswered(place: Place, p: Plan) {
    || place.Writing? || (place.Checking? && place.resume.None?) || (place.Erasing? && place.resume.None?)
    || (place.Finished? && Forwards(p))
  }

  /** The plan is the sequential handlers' at these moments, as far as it is settled. */
  predicate IsPlanned(cfg: Config, m: Objects, req: Request, place: Place, p: Plan, w: Moments) {
    && (!IsLooking(place) ==> p.ruling == Rule(cfg, m, req, w.now, NO_FAULTS))
    && (IsAnswered(place, p) ==>
          Forwards(p) && p.effect == OnResponse(cfg, req, p.ruling.decision.state, Some(RoundTrip(w.up).0), w.later).effect)
  }

  /** The two turns of one exchange with nothing failing. */
  function Exchange(cfg: Config, req: Request, w: Moments): seq<Turn> {
    [Begin(req, w.now, NO_TIER_FAULTS), End(KeyOf(cfg, req), w.up, w.later, NO_TIER_FAULTS)]
  }

  lemma FinalIsSequential(cfg: Config, tiers: seq<Objects>, req: Request, p: Plan, w: Moments)
    requires tiers != [] && IsLookedUp(cfg, req) && IsPlanned(cfg, View(tiers), req, Finished, p, w)
    ensures Final(cfg, View(tiers), KeyOf(cfg, req), p) == View(Run(cfg, World(tiers, map[]), Exchange(cfg, req, w)).tiers)
  {
    var start, turns := World(tiers, map[]), Exchange(cfg, req, w);
    TwoTurns(cfg, start, turns[0], turns[1]);
    WorkingTurnIsMapTurn(cfg, start, turns[0]);
    var next := SerialRuns.Next(cfg, start, turns[0]);
    if Forwards(p) {
      WorkingTurnIsMapTurn(cfg, next, turns[1]);
    }
  }

  lemma TwoTurns(cfg: Config, w: World, a: Turn, b: Turn)
    ensures Run(cfg, w, [a, b]) == SerialRuns.Next(cfg, SerialRuns.Next(cfg, w, a), b)
  {
    assert [a, b][1..] == [b] && [b][1..] == [];
    var w' := SerialRuns.Next(cfg, w, a);
    assert Run(cfg, w', [b]) == Run(cfg, SerialRuns.Next(cfg, w', b), []);
  }

  // ---- where a lone thread may stand ----

  /** No tier before the i-th holds the name. */
  predicate Unseen(tiers: seq<Objects>, name: Name, i: nat) {
    forall j: nat :: j < i && j < |tiers| ==> name !in tiers[j]
  }

  /** The map the tiers stand for is `m` but for one name. */
  ghost predicate OthersAre(tiers: seq<Objects>, m: Objects, name: Name) {
    forall other :: other != name ==> SameAnswer(View(tiers), m, other)
  }

  ghost predicate Removing(tiers: seq<Objects>, m: Objects, name: Name, todo: set<nat>) {
    OthersAre(tiers, m, name) && forall j: nat :: j < |tiers| && j !in todo ==> name !in tiers[j]
  }

  ghost predicate Placing(tiers: seq<Objects>, m: Objects, name: Name, data: Bytes, todo: set<nat>) {
    OthersAre(tiers, m, name) &&
    forall j: nat :: j < |tiers| && j !in todo ==> name in tiers[j] && tiers[j][name] == data
  }

  /** The meta half that led to the body. */
  predicate MetaRead(cfg: Config, m: Objects, key: string, meta: Bytes) {
    MetaName(key) in m && m[MetaName(key)] == meta && cfg.codec.decode(meta).Some?
  }

  /** A copy under way: `data` is the map's, and the tiers up to the one it came from either
      have it or are still to get it. */
  predicate CopyUnderWay(tiers: seq<Objects>, m: Objects, name: Name, next: nat, upTo: nat, data: Bytes) {
    && next <= upTo < |tiers| && name in m && m[name] == data
    && (forall j: nat :: j < next ==> name in tiers[j] && tiers[j][name] == data)
    && (forall j: nat :: next <= j < upTo ==> name !in tiers[j])
    && name in tiers[upTo] && tiers[upTo][name] == data
  }

  /** The map a deletion starts from: a mismatch on a hit deletes before the request goes
      upstream, a mismatching answer after it came back. */
  function EraseStart(m: Objects, key: string, p: Plan, resume: Option<ReqState>): Objects {
    if resume.Some? then m else Between(m, key, p)
  }

  predicate Evicts(p: Plan, resume: Option<ReqState>) {
    Forwards(p) &&
    if resume.Some? then p.ruling.evicts && p.ruling.decision.state == resume else p.effect == Evict
  }

  /** The thread and the tiers are on the way from `m` to the final map of the plan. */
  ghost predicate OnTrack(cfg: Config, m: Objects, tiers: seq<Objects>, key: string, place: Place, p: Plan) {
    match place
    case Probing(half, i, meta) =>
      View(tiers) == m && i <= |tiers| && Unseen(tiers, NameOf(half, key), i) &&
      (half.BodyHalf? ==> MetaRead(cfg, m, key, meta))
    case Copying(half, next, upTo, data, meta) =>
      View(tiers) == m && CopyUnderWay(tiers, m, NameOf(half, key), next, upTo, data) &&
      (half.BodyHalf? ==> MetaRead(cfg, m, key, meta))
    case Checking(i, resume) =>
      View(tiers) == EraseStart(m, key, p, resume) && i <= |tiers| && Unseen(tiers, MetaName(key), i) && Evicts(p, resume)
    case Erasing(half, todo, failed, resume) =>
      var start := EraseStart(m, key, p, resume);
      !failed && Evicts(p, resume) && MetaName(key) in start &&
      Removing(tiers, if half.MetaHalf? then start else start - {MetaName(key)}, NameOf(half, key), todo)
    case Waiting(state) =>
      Forwards(p) && p.ruling.decision.state == Some(state) && View(tiers) == Between(m, key, p)
    case Writing(half, todo, failed, entry, body) =>
      var between, encoded := Between(m, key, p), cfg.codec.encode(entry);
      !failed && Forwards(p) && p.effect == Store(entry, body) &&
      (if half.MetaHalf? then Placing(tiers, between, MetaName(key), encoded, todo)
       else Placing(tiers, between[MetaName(key) := encoded], BodyName(key), body, todo))
    case Finished => View(tiers) == Final(cfg, m, key, p)
  }

  // ---- fan-outs, one tier at a time ----

  /** Changing one name in one tier changes no other answer. */
  lemma OneTierChanged(tiers: seq<Objects>, tiers': seq<Objects>, i: nat, name: Name)
    requires i < |tiers| == |tiers'|
    requires forall other :: other != name ==> SameAnswer(tiers[i], tiers'[i], other)
    requires forall t: nat :: t < |tiers| && t != i ==> tiers'[t] == tiers[t]
    ensures forall other :: other != name ==> SameAnswer(View(tiers), View(tiers'), other)
  {
    forall other | other != name
      ensures SameAnswer(View(tiers), View(tiers'), other)
    {
      forall t: nat | t < |tiers|
        ensures SameAnswer(tiers[t], tiers'[t], other)
      {
        if t == i { assert SameAnswer(tiers[i], tiers'[i], other); }
      }
      SameTiersSameView(tiers, tiers', other);
    }
  }

  lemma OthersStay(tiers: seq<Objects>, tiers': seq<Objects>, m: Objects, name: Name)
    requires OthersAre(tiers, m, name)
    requires forall other :: other != name ==> SameAnswer(View(tiers), View(tiers'), other)
    ensures OthersAre(tiers', m, name)
  {
    forall other | other != name
      ensures SameAnswer(View(tiers'), m, other)
    {
      assert SameAnswer(View(tiers), m, other) && SameAnswer(View(tiers), View(tiers'), other);
    }
  }

  lemma RemoveOneMore(tiers: seq<Objects>, m: Objects, name: Name, todo: set<nat>, i: nat)
    requires Removing(tiers, m, name, todo)
    ensures Removing(Removed(tiers, i, name, Drops), m, name, todo - {i})
  {
    if i < |tiers| {
      var tiers' := Removed(tiers, i, name, Drops);
      OneTierChanged(tiers, tiers', i, name);
      OthersStay(tiers, tiers', m, name);
    }
  }

  lemma RemovedEverywhere(tiers: seq<Objects>, m: Objects, name: Name)
    requires Removing(tiers, m, name, {})
    ensures View(tiers) == m - {name}
  {
    ViewMisses(tiers, name);
    forall other
      ensures SameAnswer(View(tiers), m - {name}, other)
    {
      if other != name { assert SameAnswer(View(tiers), m, other); }
    }
    SameMap(View(tiers), m - {name});
  }

  lemma PlaceOneMore(tiers: seq<Objects>, m: Objects, name: Name, data: Bytes, todo: set<nat>, i: nat)
    requires Placing(tiers, m, name, data, todo)
    ensures Placing(Update(tiers, i, name, data, Writes), m, name, data, todo - {i})
  {
    if i < |tiers| {
      var tiers' := Update(tiers, i, name, data, Writes);
      OneTierChanged(tiers, tiers', i, name);
      OthersStay(tiers, tiers', m, name);
    }
  }

  lemma PlacedEverywhere(tiers: seq<Objects>, m: Objects, name: Name, data: Bytes)
    requires tiers != [] && Placing(tiers, m, name, data, {})
    ensures View(tiers) == m[name := data]
  {
    var placed := m[name := data];
    ViewIsFirst(tiers, 0, name);
    forall other
      ensures SameAnswer(View(tiers), placed, other)
    {
      if other != name { assert SameAnswer(View(tiers), m, other); }
    }
    SameMap(View(tiers), placed);
  }

  /** A fan-out starts from tiers that stand for the map. */
  lemma FanOutStarts(tiers: seq<Objects>, m: Objects, name: Name, data: Bytes)
    requires View(tiers) == m
    ensures Removing(tiers, m, name, AllTiers(|tiers|)) && Placing(tiers, m, name, data, AllTiers(|tiers|))
  {
  }

  // ---- each kind of step ----

  /** Where a ruling sends the thread. */
  function AfterRulingOf(r: Ruling): Place {
    if r.decision.Reply? || r.decision.state.None? then Finished
    else if r.evicts then Checking(0, r.decision.state) else Waiting(r.decision.state.value)
  }

  /** Where an effect sends it. */
  function AfterEffectOf(n: nat, e: Effect): Place {
    match e
    case Leave => Finished
    case Evict => Checking(0, None)
    case Store(meta, body) => Writing(MetaHalf, AllTiers(n), false, meta, body)
  }

  lemma LookupIsRuling(cfg: Config, m: Objects, n: nat, req: Request, found: GetOutcome, now: nat)
    requires IsLookedUp(cfg, req) && found == Lookup(cfg.codec, m, KeyOf(cfg, req), NO_FAULTS)
    ensures var r := Rule(cfg, m, req, now, NO_FAULTS);
            AfterLookup(cfg, n, req, found, now) == AfterRulingOf(r) && (r.evicts ==> r.decision.Forward? && r.decision.state.Some?)
  {
  }

  lemma RulingOnTrack(cfg: Config, m: Objects, tiers: seq<Objects>, key: string, p: Plan)
    requires View(tiers) == m && (p.ruling.evicts ==> Forwards(p))
    ensures OnTrack(cfg, m, tiers, key, AfterRulingOf(p.ruling), p) && !IsAnswered(AfterRulingOf(p.ruling), p)
  {
  }

  lemma EffectOnTrack(cfg: Config, m: Objects, tiers: seq<Objects>, key: string, p: Plan)
    requires Forwards(p) && View(tiers) == Between(m, key, p)
    ensures OnTrack(cfg, m, tiers, key, AfterEffectOf(|tiers|, p.effect), p)
  {
    if p.effect.Store? {
      FanOutStarts(tiers, Between(m, key, p), MetaName(key), cfg.codec.encode(p.effect.meta));
    }
  }

  /** The lookup is over: the thread goes where the sequential lookup of the map sends it. */
  lemma LookupOnTrack(cfg: Config, m: Objects, tiers: seq<Objects>, req: Request, p: Plan, found: GetOutcome, now: nat)
    requires IsLookedUp(cfg, req) && View(tiers) == m && p.ruling == Rule(cfg, m, req, now, NO_FAULTS)
    requires found == Lookup(cfg.codec, m, KeyOf(cfg, req), NO_FAULTS)
    ensures OnTrack(cfg, m, tiers, KeyOf(cfg, req), AfterLookup(cfg, |tiers|, req, found, now), p)
    ensures !IsAnswered(AfterLookup(cfg, |tiers|, req, found, now), p)
  {
    LookupIsRuling(cfg, m, |tiers|, req, found, now);
    RulingOnTrack(cfg, m, tiers, KeyOf(cfg, req), p);
  }

  lemma ProbeOnTrack(cfg: Config, m: Objects, tiers: seq<Objects>, req: Request, place: Place, p: Plan, a: Action)
    requires IsLookedUp(cfg, req) && IsLone(a) && place.Probing? && p.ruling == Rule(cfg, m, req, a.now, NO_FAULTS)
    requires OnTrack(cfg, m, tiers, KeyOf(cfg, req), place, p)
    ensures OnTrack(cfg, m, Advance(cfg, tiers, Thread(req, place), a).0, KeyOf(cfg, req),
                    Advance(cfg, tiers, Thread(req, place), a).1, p)
    ensures !IsAnswered(Advance(cfg, tiers, Thread(req, place), a).1, p)
  {
    var i, name := place.tier, NameOf(place.half, KeyOf(cfg, req));
    if i == |tiers| {
      ViewMisses(tiers, name);
      LookupOnTrack(cfg, m, tiers, req, p, Absent, a.now);
    } else if name in tiers[i] {
      ViewIsFirst(tiers, i, name);
    }
  }

  lemma CopyOnTrack(cfg: Config, m: Objects, tiers: seq<Objects>, req: Request, place: Place, p: Plan, a: Action)
    requires IsLookedUp(cfg, req) && IsLone(a) && place.Copying? && p.ruling == Rule(cfg, m, req, a.now, NO_FAULTS)
    requires OnTrack(cfg, m, tiers, KeyOf(cfg, req), place, p)
    ensures OnTrack(cfg, m, Advance(cfg, tiers, Thread(req, place), a).0, KeyOf(cfg, req),
                    Advance(cfg, tiers, Thread(req, place), a).1, p)
    ensures !IsAnswered(Advance(cfg, tiers, Thread(req, place), a).1, p)
  {
    var name := NameOf(place.half, KeyOf(cfg, req));
    if place.next < place.upTo {
      CopyOneMore(tiers, m, name, place.next, place.upTo, place.data);
    } else {
      var found := ReadLeadsTo(cfg, m, |tiers|, req, place.half, place.data, place.meta, a.now);
      if found.Some? {
        LookupOnTrack(cfg, m, tiers, req, p, found.value, a.now);
      } else {
        assert OnTrack(cfg, m, tiers, KeyOf(cfg, req), Probing(BodyHalf, 0, place.data), p);
      }
    }
  }

  /** One more tier holds what the map holds anyway. */
  lemma CopyOneMore(tiers: seq<Objects>, m: Objects, name: Name, next: nat, upTo: nat, data: Bytes)
    requires View(tiers) == m && CopyUnderWay(tiers, m, name, next, upTo, data) && next < upTo
    ensures var tiers' := Update(tiers, next, name, data, Writes);
            View(tiers') == m && CopyUnderWay(tiers', m, name, next + 1, upTo, data)
  {
    var tiers' := Update(tiers, next, name, data, Writes);
    OneTierChanged(tiers, tiers', next, name);
    ViewIsFirst(tiers', 0, name);
    forall other
      ensures SameAnswer(View(tiers'), m, other)
    {
      if other != name { assert SameAnswer(View(tiers), View(tiers'), other); }
    }
    SameMap(View(tiers'), m);
  }

  /** Reading the halves one after the other is the lookup. */
  lemma HalvesAreLookup(cfg: Config, m: Objects, key: string, half: Half, data: Bytes, meta: Bytes)
    requires NameOf(half, key) in m && m[NameOf(half, key)] == data
    requires half.BodyHalf? ==> MetaRead(cfg, m, key, meta)
    ensures var decoded := cfg.codec.decode(if half.MetaHalf? then data else meta);
            && (decoded.None? ==> Lookup(cfg.codec, m, key, NO_FAULTS) == Broken)
            && (decoded.Some? && half.MetaHalf? ==> MetaRead(cfg, m, key, data))
            && (decoded.Some? && half.BodyHalf? ==> Lookup(cfg.codec, m, key, NO_FAULTS) == Hit(decoded.value, data))
  {
  }

  /** Where the thread goes after reading a half: to the body, or to the decision. */
  lemma ReadLeadsTo(cfg: Config, m: Objects, n: nat, req: Request, half: Half, data: Bytes, meta: Bytes, now: nat)
    returns (found: Option<GetOutcome>)
    requires NameOf(half, KeyOf(cfg, req)) in m && m[NameOf(half, KeyOf(cfg, req))] == data
    requires half.BodyHalf? ==> MetaRead(cfg, m, KeyOf(cfg, req), meta)
    ensures found.None? ==>
              half.MetaHalf? && MetaRead(cfg, m, KeyOf(cfg, req), data) &&
              AfterRead(cfg, n, req, half, data, meta, now) == Probing(BodyHalf, 0, data)
    ensures found.Some? ==>
              found.value == Lookup(cfg.codec, m, KeyOf(cfg, req), NO_FAULTS) &&
              AfterRead(cfg, n, req, half, data, meta, now) == AfterLookup(cfg, n, req, found.value, now)
  {
    HalvesAreLookup(cfg, m, KeyOf(cfg, req), half, data, meta);
    var decoded := cfg.codec.decode(if half.MetaHalf? then data else meta);
    found := if decoded.None? then Some(Broken) else if half.MetaHalf? then None else Some(Hit(decoded.value, data));
  }

  /** A deletion that is over, or had nothing to delete. */
  lemma EraseEnds(cfg: Config, m: Objects, tiers: seq<Objects>, key: string, resume: Option<ReqState>, p: Plan)
    requires Evicts(p, resume) && View(tiers) == Erased(EraseStart(m, key, p, resume), key, NO_FAULTS)
    ensures OnTrack(cfg, m, tiers, key, AfterErase(resume), p)
  {
  }

  lemma CheckOnTrack(cfg: Config, m: Objects, tiers: seq<Objects>, req: Request, place: Place, p: Plan, a: Action)
    requires IsLone(a) && place.Checking?
    requires OnTrack(cfg, m, tiers, KeyOf(cfg, req), place, p)
    ensures OnTrack(cfg, m, Advance(cfg, tiers, Thread(req, place), a).0, KeyOf(cfg, req),
                    Advance(cfg, tiers, Thread(req, place), a).1, p)
  {
    var i, key := place.tier, KeyOf(cfg, req);
    ViewMisses(tiers, MetaName(key));
    if i == |tiers| {
      EraseEnds(cfg, m, tiers, key, place.resume, p);
    } else if MetaName(key) in tiers[i] {
      FanOutStarts(tiers, EraseStart(m, key, p, place.resume), MetaName(key), []);
    }
  }

  lemma EraseOnTrack(cfg: Config, m: Objects, tiers: seq<Objects>, req: Request, place: Place, p: Plan, a: Action)
    requires IsLone(a) && place.Erasing?
    requires OnTrack(cfg, m, tiers, KeyOf(cfg, req), place, p)
    ensures OnTrack(cfg, m, Advance(cfg, tiers, Thread(req, place), a).0, KeyOf(cfg, req),
                    Advance(cfg, tiers, Thread(req, place), a).1, p)
  {
    var key := KeyOf(cfg, req);
    var start, name := EraseStart(m, key, p, place.resume), NameOf(place.half, key);
    var base := if place.half.MetaHalf? then start else start - {MetaName(key)};
    if a.tier in place.todo {
      RemoveOneMore(tiers, base, name, place.todo, a.tier);
    } else if place.todo == {} {
      RemovedEverywhere(tiers, base, name);
      if place.half.MetaHalf? {
        FanOutStarts(tiers, start - {MetaName(key)}, BodyName(key), []);
      } else {
        assert start - {MetaName(key)} - {BodyName(key)} == start - {MetaName(key), BodyName(key)};
        EraseEnds(cfg, m, tiers, key, place.resume, p);
      }
    }
  }

  lemma AnswerOnTrack(cfg: Config, m: Objects, tiers: seq<Objects>, req: Request, place: Place, p: Plan, a: Action)
    requires IsLone(a) && place.Waiting?
    requires p.effect == OnResponse(cfg, req, Some(place.state), Some(RoundTrip(a.up).0), a.now).effect
    requires OnTrack(cfg, m, tiers, KeyOf(cfg, req), place, p)
    ensures OnTrack(cfg, m, Advance(cfg, tiers, Thread(req, place), a).0, KeyOf(cfg, req),
                    Advance(cfg, tiers, Thread(req, place), a).1, p)
  {
    EffectOnTrack(cfg, m, tiers, KeyOf(cfg, req), p);
  }

  lemma WriteOnTrack(cfg: Config, m: Objects, tiers: seq<Objects>, req: Request, place: Place, p: Plan, a: Action)
    requires tiers != [] && IsLone(a) && place.Writing?
    requires OnTrack(cfg, m, tiers, KeyOf(cfg, req), place, p)
    ensures OnTrack(cfg, m, Advance(cfg, tiers, Thread(req, place), a).0, KeyOf(cfg, req),
                    Advance(cfg, tiers, Thread(req, place), a).1, p)
  {
    var key := KeyOf(cfg, req);
    var between, encoded := Between(m, key, p), cfg.codec.encode(place.entry);
    var base := if place.half.MetaHalf? then between else between[MetaName(key) := encoded];
    var data := if place.half.MetaHalf? then encoded else place.body;
    var name := NameOf(place.half, key);
    if a.tier in place.todo {
      PlaceOneMore(tiers, base, name, data, place.todo, a.tier);
    } else if place.todo == {} {
      PlacedEverywhere(tiers, base, name, data);
      if place.half.MetaHalf? {
        FanOutStarts(tiers, between[MetaName(key) := encoded], BodyName(key), place.body);
      }
    }
  }

  // ---- every lone run ----

  /** The lookup is not decided yet. */
  predicate IsLooking(place: Place) {
    place.Probing? || place.Copying?
  }

  /** The plan as a step settles it: the lookup reads the clock when it is decided, and the
      answer and its clock come with the step that takes them. */
  function Settled(cfg: Config, m: Objects, req: Request, place: Place, p: Plan, a: Action): Plan
    requires a.Go?
  {
    if IsLooking(place) then p.(ruling := Rule(cfg, m, req, a.now, NO_FAULTS))
    else if place.Waiting? then
      p.(effect := OnResponse(cfg, req, Some(place.state), Some(RoundTrip(a.up).0), a.now).effect)
    else p
  }

  function SettledAt(place: Place, w: Moments, a: Action): Moments
    requires a.Go?
  {
    if IsLooking(place) then w.(now := a.now) else if place.Waiting? then w.(up := a.up, later := a.now) else w
  }

  /** What is not settled yet does not matter. */
  lemma SameWhileOpen(cfg: Config, m: Objects, tiers: seq<Objects>, req: Request, place: Place, p: Plan, a: Action)
    requires a.Go? && OnTrack(cfg, m, tiers, KeyOf(cfg, req), place, p)
    ensures OnTrack(cfg, m, tiers, KeyOf(cfg, req), place, Settled(cfg, m, req, place, p, a))
  {
  }

  lemma StepOnTrack(cfg: Config, m: Objects, tiers: seq<Objects>, req: Request, place: Place, p: Plan, a: Action)
    requires tiers != [] && IsLookedUp(cfg, req) && IsLone(a)
    requires OnTrack(cfg, m, tiers, KeyOf(cfg, req), place, p)
    ensures OnTrack(cfg, m, Advance(cfg, tiers, Thread(req, place), a).0, KeyOf(cfg, req),
                    Advance(cfg, tiers, Thread(req, place), a).1, Settled(cfg, m, req, place, p, a))
    ensures IsLooking(place) ==> !IsAnswered(Advance(cfg, tiers, Thread(req, place), a).1, Settled(cfg, m, req, place, p, a))
    ensures |Advance(cfg, tiers, Thread(req, place), a).0| == |tiers|
  {
    var p' := Settled(cfg, m, req, place, p, a);
    SameWhileOpen(cfg, m, tiers, req, place, p, a);
    match place
    case Probing(_, _, _) => ProbeOnTrack(cfg, m, tiers, req, place, p', a);
    case Copying(_, _, _, _, _) => CopyOnTrack(cfg, m, tiers, req, place, p', a);
    case Checking(_, _) => CheckOnTrack(cfg, m, tiers, req, place, p', a);
    case Erasing(_, _, _, _) => EraseOnTrack(cfg, m, tiers, req, place, p', a);
    case Waiting(_) => AnswerOnTrack(cfg, m, tiers, req, place, p', a);
    case Writing(_, _, _, _, _) => WriteOnTrack(cfg, m, tiers, req, place, p', a);
    case Finished =>
  }

  /** The step settles the plan by the handlers themselves. */
  lemma StepStaysPlanned(cfg: Config, m: Objects, tiers: seq<Objects>, req: Request, place: Place, p: Plan, w: Moments, a: Action)
    requires IsLone(a) && OnTrack(cfg, m, tiers, KeyOf(cfg, req), place, p) && IsPlanned(cfg, m, req, place, p, w)
    requires var place' := Advance(cfg, tiers, Thread(req, place), a).1;
             IsLooking(place) ==> !IsAnswered(place', Settled(cfg, m, req, place, p, a))
    ensures IsPlanned(cfg, m, req, Advance(cfg, tiers, Thread(req, place), a).1, Settled(cfg, m, req, place, p, a),
                      SettledAt(place, w, a))
  {
    if !IsLooking(place) {
      NeverLooksAgain(cfg, tiers, req, place, a);
    }
  }

  /** Only the step that takes upstream's answer answers. */
  lemma StepAnswers(cfg: Config, m: Objects, tiers: seq<Objects>, req: Request, place: Place, p: Plan, a: Action)
    requires IsLone(a) && OnTrack(cfg, m, tiers, KeyOf(cfg, req), place, p)
    requires var place' := Advance(cfg, tiers, Thread(req, place), a).1;
             IsLooking(place) ==> !IsAnswered(place', Settled(cfg, m, req, place, p, a))
    ensures var place' := Advance(cfg, tiers, Thread(req, place), a).1;
            !IsAnswered(place, p) && IsAnswered(place', Settled(cfg, m, req, place, p, a)) ==> place.Waiting?
  {
  }

  lemma NeverLooksAgain(cfg: Config, tiers: seq<Objects>, req: Request, place: Place, a: Action)
    requires a.Go? && !IsLooking(place)
    ensures !IsLooking(Advance(cfg, tiers, Thread(req, place), a).1)
  {
  }

  lemma {:induction false} LoneRunOnTrack(cfg: Config, m: Objects, tiers: seq<Objects>, req: Request, place: Place, p: Plan,
                                          w: Moments, actions: seq<Action>)
    returns (after: seq<Objects>, last: Place, p': Plan, w': Moments)
    requires tiers != [] && IsLookedUp(cfg, req) && forall a <- actions :: IsLone(a)
    requires OnTrack(cfg, m, tiers, KeyOf(cfg, req), place, p) && IsPlanned(cfg, m, req, place, p, w)
    ensures RunRace(cfg, One(tiers, req, place), actions) == One(after, req, last)
    ensures OnTrack(cfg, m, after, KeyOf(cfg, req), last, p') && IsPlanned(cfg, m, req, last, p', w')
    ensures w'.now == w.now || exists a <- actions :: a.Go? && a.now == w'.now
    ensures (w'.up == w.up && w'.later == w.later) || exists a <- actions :: a.Go? && a.up == w'.up && a.now == w'.later
    ensures IsLooking(place) && actions != [] ==> exists a <- actions :: a.Go? && a.now == w'.now
    ensures !IsAnswered(place, p) && IsAnswered(last, p') ==> exists a <- actions :: a.Go? && a.up == w'.up && a.now == w'.later
    decreases |actions|
  {
    if actions == [] {
      after, last, p', w' := tiers, place, p, w;
    } else {
      var a := actions[0];
      assert a in actions;
      var (tiers', place') := Advance(cfg, tiers, Thread(req, place), a);
      StepOnTrack(cfg, m, tiers, req, place, p, a);
      StepStaysPlanned(cfg, m, tiers, req, place, p, w, a);
      StepAnswers(cfg, m, tiers, req, place, p, a);
      assert Step(cfg, One(tiers, req, place), a) == One(tiers', req, place');
      after, last, p', w' := LoneRunOnTrack(cfg, m, tiers', req, place', Settled(cfg, m, req, place, p, a),
                                            SettledAt(place, w, a), actions[1..]);
      assert forall b <- actions[1..] :: b in actions;
    }
  }

  /** One request at a time, the concurrent machine over tiers is the sequential proxy over
      the map the tiers stand for: every lone run of working operations that finishes,
      whatever order its fan-outs take, leaves the map the two sequential halves leave at
      the moments of the run: the clock of one of its steps for the lookup and, if the request
      goes upstream, the answer and clock of one of its steps. */
  lemma AloneIsSequential(cfg: Config, tiers: seq<Objects>, req: Request, actions: seq<Action>)
    returns (w': Moments)
    requires tiers != [] && IsLookedUp(cfg, req) && forall a <- actions :: IsLone(a)
    requires var end := RunRace(cfg, Race(tiers, []), [Arrive(req)] + actions);
             end == One(end.tiers, req, Finished)
    ensures View(RunRace(cfg, Race(tiers, []), [Arrive(req)] + actions).tiers) ==
            View(Run(cfg, World(tiers, map[]), Exchange(cfg, req, w')).tiers)
    ensures exists a <- actions :: a.Go? && a.now == w'.now
    ensures SerialRuns.Next(cfg, World(tiers, map[]), Exchange(cfg, req, w')[0]).pending != map[] ==>
              exists a <- actions :: a.Go? && a.up == w'.up && a.now == w'.later
  {
    var start, p := Probing(MetaHalf, 0, []), Plan(Ruling(Forward(None), false, []), Leave);
    assert ([Arrive(req)] + actions)[1..] == actions;
    assert Step(cfg, Race(tiers, []), Arrive(req)) == One(tiers, req, start);
    var after, last, p';
    after, last, p', w' := LoneRunOnTrack(cfg, View(tiers), tiers, req, start, p, Moments(0, Fails(""), 0), actions);
    FinalIsSequential(cfg, tiers, req, p', w');
    WorkingTurnIsMapTurn(cfg, World(tiers, map[]), Exchange(cfg, req, w')[0]);
  }

  // ---- such runs exist ----

  /** How far the thread is from its end: the phase it is in, and the steps left in it. */
  function Phase(place: Place): nat {
    match place
    case Probing(half, _, _) => if half.MetaHalf? then 13 else 11
    case Copying(half, _, _, _, _) => if half.MetaHalf? then 12 else 10
    case Checking(_, resume) => if resume.Some? then 9 else 3
    case Erasing(half, _, _, resume) => (if resume.Some? then 7 else 1) + (if half.MetaHalf? then 1 else 0)
    case Waiting(_) => 6
    case Writing(half, _, _, _, _) => if half.MetaHalf? then 5 else 4
    case Finished => 0
  }

  function StepsLeft(n: nat, place: Place): int {
    match place
    case Probing(_, i, _) => n - i
    case Copying(_, next, upTo, _, _) => upTo - next
    case Checking(i, _) => n - i
    case Erasing(_, todo, _, _) => |todo|
    case Writing(_, todo, _, _, _) => |todo|
    case _ => 0
  }

  predicate InBounds(n: nat, place: Place) {
    StepsLeft(n, place) >= 0 && (place.Copying? ==> place.upTo < n)
  }

  ghost function NextTier(place: Place): (i: nat)
    ensures place.Erasing? && place.todo != {} ==> i in place.todo
    ensures place.Writing? && place.todo != {} ==> i in place.todo
  {
    var todo := if place.Erasing? || place.Writing? then place.todo else {};
    if todo == {} then 0 else var i :| i in todo; i
  }

  lemma StepComesCloser(cfg: Config, tiers: seq<Objects>, req: Request, place: Place, now: nat, up: Upstream)
    requires InBounds(|tiers|, place) && !place.Finished?
    ensures var a := Go(0, NextTier(place), Reads, Writes, Drops, now, up);
            var (tiers', place') := Advance(cfg, tiers, Thread(req, place), a);
            && |tiers'| == |tiers| && InBounds(|tiers|, place')
            && (Phase(place') < Phase(place) || (Phase(place') == Phase(place) && StepsLeft(|tiers|, place') < StepsLeft(|tiers|, place)))
  {
  }

  /** From anywhere a lone thread can run to its end, and never runs in circles: each step
      that does not name a tier already visited brings it closer. */
  lemma {:induction false} LoneRunCanFinish(cfg: Config, tiers: seq<Objects>, req: Request, place: Place, now: nat, up: Upstream)
    returns (script: seq<Action>)
    requires InBounds(|tiers|, place)
    ensures forall a <- script :: IsLone(a) && a.now == now && a.up == up
    ensures var end := RunRace(cfg, One(tiers, req, place), script);
            end == One(end.tiers, req, Finished)
    decreases Phase(place), StepsLeft(|tiers|, place)
  {
    if place.Finished? {
      script := [];
    } else {
      var a := Go(0, NextTier(place), Reads, Writes, Drops, now, up);
      var (tiers', place') := Advance(cfg, tiers, Thread(req, place), a);
      StepComesCloser(cfg, tiers, req, place, now, up);
      var rest := LoneRunCanFinish(cfg, tiers', req, place', now, up);
      script := [a] + rest;
      assert script[1..] == rest;
      assert Step(cfg, One(tiers, req, place), a) == One(tiers', req, place');
    }
  }
}
