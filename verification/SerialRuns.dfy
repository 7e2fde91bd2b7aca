/** Runs of the proxy over tiered storage in which at most one exchange per cache key is open
    at a time. Exchanges on different keys interleave freely at the boundary between the
    request half and the response half, and any call may fail in any tier. */
module SerialRuns {
  import opened Common
  import opened Http
  import opened CacheSpec
  import opened TieredStorage
  import opened TierEntries
  import opened HandlerSpec
  import CacheKey

  datatype Open = Open(req: Request, state: ReqState)

  datatype World = World(tiers: seq<Objects>, pending: map<string, Open>)

  datatype Turn =
    | Begin(req: Request, now: nat, f: TierFaults)                 // HandleRequest
    | End(key: string, up: Upstream, now: nat, f: TierFaults)      // transport and HandleResponse

  /** `n` empty tiers. */
  function Empty(n: nat): World {
    World(seq(n, _ => map[]), map[])
  }

  /** Whether the turn can happen: a key's exchanges do not overlap. */
  predicate Enabled(cfg: Config, w: World, turn: Turn) {
    match turn
    case Begin(req, _, _) => KeyOf(cfg, req) !in w.pending
    case End(key, _, _, _) => key in w.pending
  }

  /** HandleRequest against tiers. */
  function RuleOver(cfg: Config, tiers: seq<Objects>, req: Request, now: nat, f: TierFaults): Ruling {
    OnRequest(cfg, req, LookupOver(cfg.codec, tiers, KeyOf(cfg, req), f), now)
  }

  /** The tiers after the lookup of a request, if it makes one. */
  function Consulted(cfg: Config, tiers: seq<Objects>, req: Request, f: TierFaults): seq<Objects> {
    if IsLookedUp(cfg, req) then LookedUpOver(cfg.codec, tiers, KeyOf(cfg, req), f) else tiers
  }

  function EffectOver(cfg: Config, tiers: seq<Objects>, key: string, effect: Effect, f: TierFaults): seq<Objects> {
    match effect
    case Leave => tiers
    case Evict => ErasedOver(tiers, key, f)
    case Store(meta, body) => StoredOver(cfg.codec, tiers, key, meta, body, f)
  }

  function Handle(cfg: Config, w: World, turn: Turn): Handling
    requires turn.End? && turn.key in w.pending
  {
    var open := w.pending[turn.key];
    OnResponse(cfg, open.req, Some(open.state), Some(RoundTrip(turn.up).0), turn.now)
  }

  function Next(cfg: Config, w: World, turn: Turn): (next: World)
    ensures |next.tiers| == |w.tiers|
  {
    if !Enabled(cfg, w, turn) then w
    else
      match turn
      case Begin(req, now, f) =>
        var key, r, consulted := KeyOf(cfg, req), RuleOver(cfg, w.tiers, req, now, f), Consulted(cfg, w.tiers, req, f);
        World(if r.evicts then ErasedOver(consulted, key, f) else consulted,
              if r.decision.Forward? && r.decision.state.Some?
              then w.pending[key := Open(req, r.decision.state.value)] else w.pending)
      case End(key, up, now, f) =>
        World(EffectOver(cfg, w.tiers, key, Handle(cfg, w, turn).effect, f), w.pending - {key})
  }

  function Run(cfg: Config, w: World, turns: seq<Turn>): (end: World)
    ensures |end.tiers| == |w.tiers|
    decreases |turns|
  {
    if turns == [] then w else Run(cfg, Next(cfg, w, turns[0]), turns[1..])
  }

  /** With nothing failing, a turn does to the map what the handlers do to one map. */
  lemma WorkingTurnIsMapTurn(cfg: Config, w: World, turn: Turn)
    requires w.tiers != [] && Enabled(cfg, w, turn) && turn.f == NO_TIER_FAULTS
    ensures turn.Begin? && IsLookedUp(cfg, turn.req) ==>
              var r := Rule(cfg, View(w.tiers), turn.req, turn.now, NO_FAULTS);
              && RuleOver(cfg, w.tiers, turn.req, turn.now, turn.f) == r
              && View(Next(cfg, w, turn).tiers) == AfterRuling(View(w.tiers), KeyOf(cfg, turn.req), r, NO_FAULTS)
    ensures turn.End? ==>
              View(Next(cfg, w, turn).tiers) ==
              AfterEffect(cfg, View(w.tiers), turn.key, Handle(cfg, w, turn).effect, NO_FAULTS)
  {
    match turn
    case Begin(req, now, f) =>
      var key := KeyOf(cfg, req);
      LookupOverIsLookup(cfg.codec, w.tiers, key, f);
      WorkingErase(LookedUpOver(cfg.codec, w.tiers, key, f), key);
    case End(key, up, now, f) =>
      WorkingErase(w.tiers, key);
      var effect := Handle(cfg, w, turn).effect;
      if effect.Store? {
        WorkingStore(cfg.codec, w.tiers, key, effect.meta, effect.body);
      }
  }

  // ---- bounded staleness ----

  /** A response fetched from upstream and stored: its entry and when it arrived. */
  datatype Fetch = Fetch(key: string, meta: EntryMeta, body: Bytes, at: nat)

  function FetchedBy(cfg: Config, w: World, turn: Turn): seq<Fetch> {
    if turn.End? && turn.key in w.pending && Handle(cfg, w, turn).effect.Store? then
      var stored := Handle(cfg, w, turn).effect;
      [Fetch(turn.key, stored.meta, stored.body, turn.now)]
    else []
  }

  function History(cfg: Config, w: World, turns: seq<Turn>): seq<Fetch>
    decreases |turns|
  {
    if turns == [] then [] else FetchedBy(cfg, w, turns[0]) + History(cfg, Next(cfg, w, turns[0]), turns[1..])
  }

  /** The two halves are those of one fetch, stamped with the time it arrived. */
  predicate IsEntryOf(cfg: Config, key: string, m: Bytes, b: Bytes, fetch: Fetch) {
    && fetch.key == key && cfg.codec.decode(m) == Some(fetch.meta)
    && b == fetch.body && fetch.meta.cachedAt == fetch.at
  }

  /** Whatever two halves readers may see under a key, if the meta decodes, are those of one
      fetch. */
  ghost predicate Backed(cfg: Config, r: Reading, tiers: seq<Objects>, history: seq<Fetch>) {
    forall key, m, b :: Shows(r, tiers, MetaName(key), m) && Shows(r, tiers, BodyName(key), b) && cfg.codec.decode(m).Some? ==>
      exists fetch <- history :: IsEntryOf(cfg, key, m, b, fetch)
  }

  /** The condition on a turn. If reads may fail, only its puts matter: backfills are not cut
      short and a store stays whole tier by tier. If reads are to work, they do, a store stays
      whole in what they see, and a deletion brings back no other meta. */
  ghost predicate StaysWhole(cfg: Config, r: Reading, w: World, turn: Turn) {
    match turn
    case Begin(req, now, f) =>
      && ReadsAre(r, |w.tiers|, f)
      && (RuleOver(cfg, w.tiers, req, now, f).evicts ==> ErasesWhole(r, cfg.codec, Consulted(cfg, w.tiers, req, f), KeyOf(cfg, req), f))
    case End(key, _, _, f) =>
      key in w.pending ==>
        match Handle(cfg, w, turn).effect
        case Leave => true
        case Evict => ErasesWhole(r, cfg.codec, w.tiers, key, f)
        case Store(meta, body) => WritesWhole(r, cfg.codec, w.tiers, key, meta, body, f)
  }

  ghost predicate RunStaysWhole(cfg: Config, r: Reading, w: World, turns: seq<Turn>)
    decreases |turns|
  {
    turns == [] || (StaysWhole(cfg, r, w, turns[0]) && RunStaysWhole(cfg, r, Next(cfg, w, turns[0]), turns[1..]))
  }

  lemma EraseKeepsBacked(cfg: Config, r: Reading, tiers: seq<Objects>, history: seq<Fetch>, key: string, f: TierFaults)
    requires Backed(cfg, r, tiers, history) && ErasesWhole(r, cfg.codec, tiers, key, f)
    ensures Backed(cfg, r, ErasedOver(tiers, key, f), history)
  {
    var after := ErasedOver(tiers, key, f);
    forall other, m, b | Shows(r, after, MetaName(other), m) && Shows(r, after, BodyName(other), b) && cfg.codec.decode(m).Some?
      ensures exists fetch <- history :: IsEntryOf(cfg, other, m, b, fetch)
    {
      EraseShows(r, cfg.codec, tiers, key, f, other, m, b);
    }
  }

  lemma LookupKeepsBacked(cfg: Config, r: Reading, tiers: seq<Objects>, history: seq<Fetch>, key: string, f: TierFaults)
    requires Backed(cfg, r, tiers, history) && ReadsAre(r, |tiers|, f)
    ensures Backed(cfg, r, LookedUpOver(cfg.codec, tiers, key, f), history)
  {
    var after := LookedUpOver(cfg.codec, tiers, key, f);
    forall other, m, b | Shows(r, after, MetaName(other), m) && Shows(r, after, BodyName(other), b) && cfg.codec.decode(m).Some?
      ensures exists fetch <- history :: IsEntryOf(cfg, other, m, b, fetch)
    {
      LookupShows(r, cfg.codec, tiers, key, f, MetaName(other), m);
      LookupShows(r, cfg.codec, tiers, key, f, BodyName(other), b);
    }
  }

  lemma StoreKeepsBacked(cfg: Config, r: Reading, tiers: seq<Objects>, history: seq<Fetch>, key: string,
                         meta: EntryMeta, body: Bytes, at: nat, f: TierFaults)
    requires cfg.codec.RoundTrips() && cfg.codec.TellsCuts() && tiers != [] && meta.cachedAt == at
    requires Backed(cfg, r, tiers, history) && WritesWhole(r, cfg.codec, tiers, key, meta, body, f)
    ensures Backed(cfg, r, StoredOver(cfg.codec, tiers, key, meta, body, f), history + [Fetch(key, meta, body, at)])
  {
    var after := StoredOver(cfg.codec, tiers, key, meta, body, f);
    var now := Fetch(key, meta, body, at);
    assert cfg.codec.decode(cfg.codec.encode(meta)) == Some(meta);
    forall other, m, b | Shows(r, after, MetaName(other), m) && Shows(r, after, BodyName(other), b) && cfg.codec.decode(m).Some?
      ensures exists fetch <- history + [now] :: IsEntryOf(cfg, other, m, b, fetch)
    {
      if other == key {
        StoreShows(r, cfg.codec, tiers, key, meta, body, f, m, b);
      } else {
        StoreShowsOthers(r, cfg.codec, tiers, key, meta, body, f, MetaName(other), m);
        StoreShowsOthers(r, cfg.codec, tiers, key, meta, body, f, BodyName(other), b);
      }
      if Shows(r, tiers, MetaName(other), m) && Shows(r, tiers, BodyName(other), b) {
        var fetch :| fetch in history && IsEntryOf(cfg, other, m, b, fetch);
        assert fetch in history + [now];
      } else {
        assert (history + [now])[|history|] == now && IsEntryOf(cfg, other, m, b, now);
      }
    }
  }

  lemma TurnKeepsBacked(cfg: Config, r: Reading, w: World, history: seq<Fetch>, turn: Turn)
    requires cfg.codec.RoundTrips() && cfg.codec.TellsCuts() && w.tiers != []
    requires StaysWhole(cfg, r, w, turn) && Backed(cfg, r, w.tiers, history)
    ensures Backed(cfg, r, Next(cfg, w, turn).tiers, history + FetchedBy(cfg, w, turn))
  {
    assert history + [] == history;
    if Enabled(cfg, w, turn) {
      match turn
      case Begin(req, now, f) =>
        var consulted := Consulted(cfg, w.tiers, req, f);
        assert Backed(cfg, r, consulted, history) by {
          LookupKeepsBacked(cfg, r, w.tiers, history, KeyOf(cfg, req), f);
        }
        if RuleOver(cfg, w.tiers, req, now, f).evicts {
          EraseKeepsBacked(cfg, r, consulted, history, KeyOf(cfg, req), f);
        }
      case End(key, up, now, f) =>
        var effect := Handle(cfg, w, turn).effect;
        match effect
        case Leave =>
        case Evict => EraseKeepsBacked(cfg, r, w.tiers, history, key, f);
        case Store(meta, body) => StoreKeepsBacked(cfg, r, w.tiers, history, key, meta, body, now, f);
    }
  }

  /** Over any run whose turns meet the condition, with reads that work or with reads that
      fail anywhere, whatever readers may see is one fetch of the run with its time. */
  lemma {:induction false} RunKeepsBacked(cfg: Config, r: Reading, w: World, history: seq<Fetch>, turns: seq<Turn>)
    requires cfg.codec.RoundTrips() && cfg.codec.TellsCuts() && w.tiers != []
    requires Backed(cfg, r, w.tiers, history) && RunStaysWhole(cfg, r, w, turns)
    ensures Backed(cfg, r, Run(cfg, w, turns).tiers, history + History(cfg, w, turns))
    decreases |turns|
  {
    if turns == [] {
      assert history + [] == history;
    } else {
      var next, now := Next(cfg, w, turns[0]), FetchedBy(cfg, w, turns[0]);
      TurnKeepsBacked(cfg, r, w, history, turns[0]);
      RunKeepsBacked(cfg, r, next, history + now, turns[1..]);
      HistoryStep(cfg, w, history, turns, now, History(cfg, next, turns[1..]));
    }
  }

  lemma HistoryStep(cfg: Config, w: World, history: seq<Fetch>, turns: seq<Turn>, now: seq<Fetch>, later: seq<Fetch>)
    requires turns != []
    requires now == FetchedBy(cfg, w, turns[0]) && later == History(cfg, Next(cfg, w, turns[0]), turns[1..])
    ensures history + History(cfg, w, turns) == (history + now) + later
  {
    var all := History(cfg, w, turns);
    assert all == now + later;
  }

  lemma RunFromEmptyBacked(cfg: Config, r: Reading, n: nat, turns: seq<Turn>)
    requires cfg.codec.RoundTrips() && cfg.codec.TellsCuts() && n > 0 && RunStaysWhole(cfg, r, Empty(n), turns)
    ensures Backed(cfg, r, Run(cfg, Empty(n), turns).tiers, History(cfg, Empty(n), turns))
  {
    EmptyShowsNothing(r, n);
    RunKeepsBacked(cfg, r, Empty(n), [], turns);
    assert [] + History(cfg, Empty(n), turns) == History(cfg, Empty(n), turns);
  }

  lemma EmptyShowsNothing(r: Reading, n: nat)
    ensures forall name, data :: !Shows(r, Empty(n).tiers, name, data)
  {
    forall name
      ensures name !in View(Empty(n).tiers)
    {
      ViewMisses(Empty(n).tiers, name);
    }
  }

  /** Nothing was fetched later than the last turn's clock. */
  lemma {:induction false} FetchesAreInTime(cfg: Config, w: World, turns: seq<Turn>, clock: nat, fetch: Fetch)
    requires forall turn <- turns :: turn.now <= clock
    requires fetch in History(cfg, w, turns)
    ensures fetch.at <= clock
    decreases |turns|
  {
    if fetch in FetchedBy(cfg, w, turns[0]) {
      assert turns[0] in turns;
    } else {
      FetchesAreInTime(cfg, Next(cfg, w, turns[0]), turns[1..], clock, fetch);
    }
  }

  /** The request is answered straight from the cache. */
  predicate IsDirectHit(cfg: Config, tiers: seq<Objects>, req: Request, now: nat, f: TierFaults) {
    && IsLookedUp(cfg, req) && LookupOver(cfg.codec, tiers, KeyOf(cfg, req), f).Hit?
    && RuleOver(cfg, tiers, req, now, f).decision.Reply?
  }

  /** Bounded staleness: after any run whose turns meet the condition, a direct hit on a
      revalidated URL serves the bytes its read hands out of a fetch younger than the
      interval, all of them unless the first tier's stream breaks off. */
  lemma DirectHitsAreFresh(cfg: Config, r: Reading, n: nat, turns: seq<Turn>, req: Request, now: nat, f: TierFaults)
    requires cfg.codec.RoundTrips() && cfg.codec.TellsCuts() && !cfg.mode.Offline? && n > 0
    requires cfg.interval > 0 && AnyMatch(cfg.revalidates, RenderUrl(req.url))
    requires RunStaysWhole(cfg, r, Empty(n), turns) && forall turn <- turns :: turn.now <= now
    requires ReadsAre(r, n, f) && IsDirectHit(cfg, Run(cfg, Empty(n), turns).tiers, req, now, f)
    ensures var tiers := Run(cfg, Empty(n), turns).tiers;
            var reply := RuleOver(cfg, tiers, req, now, f).decision.resp;
            exists fetch <- History(cfg, Empty(n), turns) ::
              && fetch.key == KeyOf(cfg, req) && reply.status == fetch.meta.statusCode
              && reply.body <= fetch.body
              && (reply.body == fetch.body <==> !StreamBreaks(tiers, BodyName(KeyOf(cfg, req)), f.body))
              && 0 <= now - fetch.at < cfg.interval
  {
    var tiers, key := Run(cfg, Empty(n), turns).tiers, KeyOf(cfg, req);
    RunFromEmptyBacked(cfg, r, n, turns);
    var m, b := HitIsShown(r, cfg.codec, tiers, key, f);
    var fetch :| fetch in History(cfg, Empty(n), turns) && IsEntryOf(cfg, key, m, b, fetch);
    FetchesAreInTime(cfg, Empty(n), turns, now, fetch);
    DirectHitServes(cfg, tiers, req, now, f);
  }

  lemma DirectHitServes(cfg: Config, tiers: seq<Objects>, req: Request, now: nat, f: TierFaults)
    requires IsDirectHit(cfg, tiers, req, now, f)
    ensures var found := LookupOver(cfg.codec, tiers, KeyOf(cfg, req), f);
            var reply := RuleOver(cfg, tiers, req, now, f).decision.resp;
            && reply.status == found.meta.statusCode && reply.body == found.body
            && (cfg.mode.Offline? || !NeedsRevalidation(cfg, RenderUrl(req.url), found.meta, now))
  {
  }

  // ---- the stale fallback ----

  /** Upstream answered with a whole response in the 200s. */
  predicate IsFreshAnswer(answer: Option<Response>) {
    answer.Some? && IsSuccess(answer.value.status) && !answer.value.truncated
  }

  /** The client gets the armed copy with a truthful length, and the entry is left alone. */
  predicate ServesStale(req: Request, fallback: Fallback, h: Handling) {
    h.effect == Leave && h.reply == Some(BuildResponse(req, fallback.meta, fallback.body))
  }

  /** The client gets the fresh answer's status and body (a HEAD has none). */
  predicate ServesFresh(req: Request, answer: Option<Response>, h: Handling) {
    && answer.Some? && h.reply.Some?
    && h.reply.value.status == answer.value.status
    && h.reply.value.body == if req.verb == HEAD then [] else answer.value.body
  }

  /** With a stale copy armed, whatever upstream does: a refresh that fails serves the
      stale copy untouched, one that succeeds serves the fresh answer, and the client
      sees a status in 200..399 unless a verified body was rejected with an error. */
  lemma ArmedFallbackAnswers(cfg: Config, req: Request, state: ReqState, answer: Option<Response>, now: nat)
    requires state.fallback.Some? && IsCacheable(state.fallback.value.meta.statusCode)
    ensures var h := OnResponse(cfg, req, Some(state), answer, now);
            var rejected := IsFreshAnswer(answer) && IsVerified(cfg, req) && !BodyMatches(cfg, req, answer.value.body);
            && h.reply.Some?
            && (!IsFreshAnswer(answer) ==> ServesStale(req, state.fallback.value, h))
            && (IsFreshAnswer(answer) && !rejected ==> ServesFresh(req, answer, h))
            && (rejected ==> h.effect == Evict)
            && (IsCacheable(h.reply.value.status) <==> !(rejected && !cfg.passthrough))
  {
  }

  /** Every meta in any tier is an encoded meta with a status in 200..399, or part of one. */
  ghost predicate StoredStatusesCacheable(cfg: Config, tiers: seq<Objects>) {
    forall key, m :: Holds(tiers, MetaName(key), m) ==> IsPartOfCacheable(cfg.codec, m)
  }

  ghost predicate IsPartOfCacheable(codec: Codec, m: Bytes) {
    exists meta: EntryMeta :: IsCacheable(meta.statusCode) && m <= codec.encode(meta)
  }

  lemma CutDoesNotDecode(codec: Codec, meta: EntryMeta, m: Bytes)
    requires codec.TellsCuts() && m <= codec.encode(meta) && |m| < |codec.encode(meta)|
    ensures codec.decode(m) == None
  {
    assert m == FirstBytes(codec.encode(meta), |m|);
  }

  /** So a meta that decodes has such a status. */
  lemma DecodedIsCacheable(codec: Codec, m: Bytes)
    requires codec.RoundTrips() && codec.TellsCuts() && IsPartOfCacheable(codec, m) && codec.decode(m).Some?
    ensures IsCacheable(codec.decode(m).value.statusCode)
  {
    var meta: EntryMeta :| IsCacheable(meta.statusCode) && m <= codec.encode(meta);
    if |m| < |codec.encode(meta)| { CutDoesNotDecode(codec, meta, m); } else { assert m == codec.encode(meta); }
  }

  ghost predicate ArmedStatusesCacheable(pending: map<string, Open>) {
    forall key <- pending :: pending[key].state.fallback.Some? ==>
      IsCacheable(pending[key].state.fallback.value.meta.statusCode)
  }

  /** Everything stored or armed has a status in 200..399. */
  ghost predicate StatusesCacheable(cfg: Config, w: World) {
    StoredStatusesCacheable(cfg, w.tiers) && ArmedStatusesCacheable(w.pending)
  }

  /** What a request arms is what its lookup hit. */
  lemma ArmsHit(cfg: Config, tiers: seq<Objects>, req: Request, now: nat, f: TierFaults)
    requires var r := RuleOver(cfg, tiers, req, now, f);
             r.decision.Forward? && r.decision.state.Some? && r.decision.state.value.fallback.Some?
    ensures var armed := RuleOver(cfg, tiers, req, now, f).decision.state.value.fallback.value;
            IsLookedUp(cfg, req) && LookupOver(cfg.codec, tiers, KeyOf(cfg, req), f) == Hit(armed.meta, armed.body)
  {
  }

  lemma ErasedStatuses(cfg: Config, tiers: seq<Objects>, key: string, f: TierFaults)
    requires StoredStatusesCacheable(cfg, tiers)
    ensures StoredStatusesCacheable(cfg, ErasedOver(tiers, key, f))
  {
    forall other, m | Holds(ErasedOver(tiers, key, f), MetaName(other), m)
      ensures Holds(tiers, MetaName(other), m)
    {
      EraseHolds(tiers, key, f, MetaName(other), m);
    }
  }

  lemma ConsultedStatuses(cfg: Config, tiers: seq<Objects>, req: Request, f: TierFaults)
    requires StoredStatusesCacheable(cfg, tiers)
    ensures StoredStatusesCacheable(cfg, Consulted(cfg, tiers, req, f))
  {
    forall other, m | Holds(Consulted(cfg, tiers, req, f), MetaName(other), m)
      ensures IsPartOfCacheable(cfg.codec, m)
    {
      if IsLookedUp(cfg, req) {
        var whole := LookupHoldsParts(cfg.codec, tiers, KeyOf(cfg, req), f, MetaName(other), m);
        assert IsPartOfCacheable(cfg.codec, whole);
        var meta: EntryMeta :| IsCacheable(meta.statusCode) && whole <= cfg.codec.encode(meta);
        assert m <= cfg.codec.encode(meta);
      } else {
        assert Holds(tiers, MetaName(other), m);
      }
    }
  }

  lemma BeginKeepsStatuses(cfg: Config, w: World, turn: Turn)
    requires cfg.codec.RoundTrips() && cfg.codec.TellsCuts() && turn.Begin? && StatusesCacheable(cfg, w)
    ensures StatusesCacheable(cfg, Next(cfg, w, turn))
  {
    var r := RuleOver(cfg, w.tiers, turn.req, turn.now, turn.f);
    ConsultedStatuses(cfg, w.tiers, turn.req, turn.f);
    ErasedStatuses(cfg, Consulted(cfg, w.tiers, turn.req, turn.f), KeyOf(cfg, turn.req), turn.f);
    if r.decision.Forward? && r.decision.state.Some? && r.decision.state.value.fallback.Some? {
      ArmsHit(cfg, w.tiers, turn.req, turn.now, turn.f);
      var m := AnswerIsShown(Faulty, w.tiers, MetaName(KeyOf(cfg, turn.req)), turn.f.meta);
      DecodedIsCacheable(cfg.codec, m);
    }
  }

  /** Only responses in 200..399 are stored. */
  lemma StoredIsCacheable(cfg: Config, req: Request, state: Option<ReqState>, answer: Option<Response>, now: nat)
    ensures var effect := OnResponse(cfg, req, state, answer, now).effect;
            effect.Store? ==> IsCacheable(effect.meta.statusCode)
  {
  }

  lemma EffectKeepsStatuses(cfg: Config, tiers: seq<Objects>, key: string, effect: Effect, f: TierFaults)
    requires cfg.codec.RoundTrips() && StoredStatusesCacheable(cfg, tiers)
    requires effect.Store? ==> IsCacheable(effect.meta.statusCode)
    ensures StoredStatusesCacheable(cfg, EffectOver(cfg, tiers, key, effect, f))
  {
    match effect
    case Leave =>
    case Evict => ErasedStatuses(cfg, tiers, key, f);
    case Store(meta, body) =>
      forall other, m | Holds(StoredOver(cfg.codec, tiers, key, meta, body, f), MetaName(other), m)
        ensures IsPartOfCacheable(cfg.codec, m)
      {
        StoreHolds(cfg.codec, tiers, key, meta, body, f, MetaName(other), m);
        assert m <= cfg.codec.encode(meta) || Holds(tiers, MetaName(other), m);
      }
  }

  lemma EndKeepsStatuses(cfg: Config, w: World, turn: Turn)
    requires turn.End? && cfg.codec.RoundTrips() && StatusesCacheable(cfg, w)
    ensures StatusesCacheable(cfg, Next(cfg, w, turn))
  {
    if turn.key in w.pending {
      var open := w.pending[turn.key];
      StoredIsCacheable(cfg, open.req, Some(open.state), Some(RoundTrip(turn.up).0), turn.now);
      EffectKeepsStatuses(cfg, w.tiers, turn.key, Handle(cfg, w, turn).effect, turn.f);
    }
  }

  lemma {:induction false} StatusesOverRun(cfg: Config, w: World, turns: seq<Turn>)
    requires cfg.codec.RoundTrips() && cfg.codec.TellsCuts() && StatusesCacheable(cfg, w)
    ensures StatusesCacheable(cfg, Run(cfg, w, turns))
    decreases |turns|
  {
    if turns != [] {
      if turns[0].Begin? {
        BeginKeepsStatuses(cfg, w, turns[0]);
      } else {
        EndKeepsStatuses(cfg, w, turns[0]);
      }
      StatusesOverRun(cfg, Next(cfg, w, turns[0]), turns[1..]);
    }
  }

  /** In any run, whatever fails in whichever tier, every armed exchange on a URL that is not
      verified is answered in 200..399 with the fresh answer or all of the armed copy, and a
      failed refresh leaves every tier as it was. */
  lemma ArmedExchangesAnswer(cfg: Config, w: World, turns: seq<Turn>, key: string, up: Upstream, now: nat, f: TierFaults)
    requires cfg.codec.RoundTrips() && cfg.codec.TellsCuts() && StatusesCacheable(cfg, w)
    requires var end := Run(cfg, w, turns);
             key in end.pending && end.pending[key].state.fallback.Some? && !IsVerified(cfg, end.pending[key].req)
    ensures var end := Run(cfg, w, turns);
            var turn := End(key, up, now, f);
            var h := Handle(cfg, end, turn);
            var open := end.pending[key];
            && h.reply.Some? && IsCacheable(h.reply.value.status)
            && (ServesFresh(open.req, Some(RoundTrip(up).0), h) || ServesStale(open.req, open.state.fallback.value, h))
            && (!IsFreshAnswer(Some(RoundTrip(up).0)) ==> Next(cfg, end, turn).tiers == end.tiers)
  {
    StatusesOverRun(cfg, w, turns);
    var open := Run(cfg, w, turns).pending[key];
    ArmedFallbackAnswers(cfg, open.req, open.state, Some(RoundTrip(up).0), now);
  }

  /** What a request arms is an entry that readers could see, and all of it exactly when the
      first tier's stream does not break off: the handler takes the bytes it got for the
      whole body. */
  lemma ArmsWholeEntryIff(cfg: Config, r: Reading, tiers: seq<Objects>, req: Request, now: nat, f: TierFaults)
    returns (m: Bytes, b: Bytes)
    requires ReadsAre(r, |tiers|, f)
    requires var ruling := RuleOver(cfg, tiers, req, now, f);
             ruling.decision.Forward? && ruling.decision.state.Some? && ruling.decision.state.value.fallback.Some?
    ensures var key, armed := KeyOf(cfg, req), RuleOver(cfg, tiers, req, now, f).decision.state.value.fallback.value;
            && Shows(r, tiers, MetaName(key), m) && Shows(r, tiers, BodyName(key), b)
            && cfg.codec.decode(m) == Some(armed.meta) && armed.body <= b
            && (armed.body == b <==> !StreamBreaks(tiers, BodyName(key), f.body))
  {
    ArmsHit(cfg, tiers, req, now, f);
    m, b := HitIsShown(r, cfg.codec, tiers, KeyOf(cfg, req), f);
  }

  /** Every armed copy is one whole fetch. */
  ghost predicate ArmedBacked(pending: map<string, Open>, history: seq<Fetch>) {
    forall key <- pending :: pending[key].state.fallback.Some? ==>
      exists fetch <- history :: IsCopyOf(key, pending[key].state.fallback.value, fetch)
  }

  predicate IsCopyOf(key: string, fallback: Fallback, fetch: Fetch) {
    fetch.key == key && fetch.meta == fallback.meta && fetch.body == fallback.body
  }

  /** The stream of the body a turn reads does not break off in the first tier. */
  predicate ReadsWhole(turn: Turn) {
    turn.Begin? ==> !turn.f.body(0).ReadFails?
  }

  lemma ArmedStaysBacked(pending: map<string, Open>, history: seq<Fetch>, more: seq<Fetch>)
    requires ArmedBacked(pending, history)
    ensures ArmedBacked(pending, history + more)
  {
    forall key | key in pending && pending[key].state.fallback.Some?
      ensures exists fetch <- history + more :: IsCopyOf(key, pending[key].state.fallback.value, fetch)
    {
      var fetch :| fetch in history && IsCopyOf(key, pending[key].state.fallback.value, fetch);
      assert fetch in history + more;
    }
  }

  lemma BeginArmsFetch(cfg: Config, r: Reading, w: World, history: seq<Fetch>, turn: Turn)
    requires turn.Begin? && ReadsWhole(turn) && ReadsAre(r, |w.tiers|, turn.f)
    requires Backed(cfg, r, w.tiers, history) && ArmedBacked(w.pending, history)
    ensures ArmedBacked(Next(cfg, w, turn).pending, history)
  {
    var ruling, key := RuleOver(cfg, w.tiers, turn.req, turn.now, turn.f), KeyOf(cfg, turn.req);
    if Enabled(cfg, w, turn) && ruling.decision.Forward? && ruling.decision.state.Some? && ruling.decision.state.value.fallback.Some? {
      var m, b := ArmsWholeEntryIff(cfg, r, w.tiers, turn.req, turn.now, turn.f);
      var fetch :| fetch in history && IsEntryOf(cfg, key, m, b, fetch);
      assert IsCopyOf(key, ruling.decision.state.value.fallback.value, fetch);
    }
  }

  lemma TurnArmsFetch(cfg: Config, r: Reading, w: World, history: seq<Fetch>, turn: Turn)
    requires StaysWhole(cfg, r, w, turn) && ReadsWhole(turn)
    requires Backed(cfg, r, w.tiers, history) && ArmedBacked(w.pending, history)
    ensures ArmedBacked(Next(cfg, w, turn).pending, history + FetchedBy(cfg, w, turn))
  {
    if turn.Begin? {
      BeginArmsFetch(cfg, r, w, history, turn);
    }
    ArmedStaysBacked(Next(cfg, w, turn).pending, history, FetchedBy(cfg, w, turn));
  }

  lemma {:induction false} RunArmsFetches(cfg: Config, r: Reading, w: World, history: seq<Fetch>, turns: seq<Turn>)
    requires cfg.codec.RoundTrips() && cfg.codec.TellsCuts() && w.tiers != []
    requires Backed(cfg, r, w.tiers, history) && ArmedBacked(w.pending, history)
    requires RunStaysWhole(cfg, r, w, turns) && forall turn <- turns :: ReadsWhole(turn)
    ensures ArmedBacked(Run(cfg, w, turns).pending, history + History(cfg, w, turns))
    decreases |turns|
  {
    if turns == [] {
      assert history + [] == history;
    } else {
      var next, now := Next(cfg, w, turns[0]), FetchedBy(cfg, w, turns[0]);
      TurnKeepsBacked(cfg, r, w, history, turns[0]);
      TurnArmsFetch(cfg, r, w, history, turns[0]);
      RunArmsFetches(cfg, r, next, history + now, turns[1..]);
      HistoryStep(cfg, w, history, turns, now, History(cfg, next, turns[1..]));
    }
  }

  /** So after any run whose turns meet the condition and whose body streams do not break
      off, a refresh that fails is answered with the whole body of an earlier fetch. */
  lemma FailedRefreshServesWholeFetch(cfg: Config, r: Reading, n: nat, turns: seq<Turn>, key: string, up: Upstream, now: nat)
    requires cfg.codec.RoundTrips() && cfg.codec.TellsCuts() && n > 0
    requires RunStaysWhole(cfg, r, Empty(n), turns) && forall turn <- turns :: ReadsWhole(turn)
    requires var w := Run(cfg, Empty(n), turns);
             key in w.pending && w.pending[key].state.fallback.Some? && !IsFreshAnswer(Some(RoundTrip(up).0))
    ensures var reply := Handle(cfg, Run(cfg, Empty(n), turns), End(key, up, now, NO_TIER_FAULTS)).reply;
            exists fetch <- History(cfg, Empty(n), turns) ::
              fetch.key == key && reply.Some? && reply.value.body == fetch.body && reply.value.status == fetch.meta.statusCode
  {
    var w := Run(cfg, Empty(n), turns);
    EmptyShowsNothing(r, n);
    EmptyShowsNothing(Faulty, n);
    RunArmsFetches(cfg, r, Empty(n), [], turns);
    assert [] + History(cfg, Empty(n), turns) == History(cfg, Empty(n), turns);
    var open := w.pending[key];
    var fetch :| fetch in History(cfg, Empty(n), turns) && IsCopyOf(key, open.state.fallback.value, fetch);
    StatusesOverRun(cfg, Empty(n), turns);
    ArmedFallbackAnswers(cfg, open.req, open.state, Some(RoundTrip(up).0), now);
  }

  // ---- replay stability ----

  /** The storage reads of the turn work, and no backfill is cut short. */
  ghost predicate ReadsWork(f: TierFaults) {
    forall i: nat :: f.meta(i).Reads? && f.body(i).Reads? && !f.copyMeta(i).Cuts? && !f.copyBody(i).Cuts?
  }

  /** A request of the run with this request's key has its method and URL, and its reads
      work. Nothing is asked of requests with other keys. */
  ghost predicate SameTargetFor(cfg: Config, req: Request, turn: Turn) {
    turn.Begin? && KeyOf(cfg, turn.req) == KeyOf(cfg, req) ==>
      turn.req.verb == req.verb && turn.req.url == req.url && ReadsWork(turn.f)
  }

  /** The request's entry is in place and will be served as it is. */
  ghost predicate Settled(cfg: Config, w: World, req: Request, meta: EntryMeta, body: Bytes) {
    && w.tiers != [] && IsLookedUp(cfg, req)
    && KeyOf(cfg, req) !in w.pending
    && Lookup(cfg.codec, View(w.tiers), KeyOf(cfg, req), NO_FAULTS) == Hit(meta, body)
    && (IsVerified(cfg, req) ==> BodyMatches(cfg, req, body))
    && !(cfg.interval > 0 && AnyMatch(cfg.revalidates, RenderUrl(req.url)))
  }

  /** A settled entry answers every identical request, with no upstream exchange. */
  lemma SettledAnswers(cfg: Config, w: World, req: Request, meta: EntryMeta, body: Bytes, again: Request, now: nat, f: TierFaults)
    requires Settled(cfg, w, req, meta, body) && ReadsWork(f)
    requires again.parsed && KeyOf(cfg, again) == KeyOf(cfg, req) && again.verb == req.verb && again.url == req.url
    ensures RuleOver(cfg, w.tiers, again, now, f).decision == Reply(BuildResponse(again, meta, body))
    ensures !RuleOver(cfg, w.tiers, again, now, f).evicts
  {
    assert BypassOf(cfg, again) == BypassOf(cfg, req);
    LookupOverIsLookup(cfg.codec, w.tiers, KeyOf(cfg, req), f);
  }

  lemma EffectLeaves(cfg: Config, tiers: seq<Objects>, key: string, effect: Effect, f: TierFaults, other: string)
    requires tiers != [] && other != key
    ensures SameEntry(View(tiers), View(EffectOver(cfg, tiers, key, effect, f)), other)
  {
    match effect
    case Leave =>
    case Evict => OthersUntouchedOver(cfg.codec, tiers, key, EntryMeta("", "", 0, map[], 0), [], f, other);
    case Store(meta, body) => OthersUntouchedOver(cfg.codec, tiers, key, meta, body, f, other);
  }

  lemma ConsultLeaves(cfg: Config, tiers: seq<Objects>, req: Request, f: TierFaults, other: string)
    requires tiers != [] && other != KeyOf(cfg, req)
    ensures SameEntry(View(tiers), View(Consulted(cfg, tiers, req, f)), other)
  {
    OthersUntouchedOver(cfg.codec, tiers, KeyOf(cfg, req), EntryMeta("", "", 0, map[], 0), [], f, other);
  }

  /** A turn on one key leaves the entry that readers see under another. */
  lemma OtherTurnsLeave(cfg: Config, w: World, turn: Turn, key: string)
    requires w.tiers != []
    requires match turn case Begin(req, _, _) => KeyOf(cfg, req) != key case End(other, _, _, _) => other != key
    ensures SameEntry(View(w.tiers), View(Next(cfg, w, turn).tiers), key)
  {
    match turn
    case Begin(req, now, f) =>
      var consulted := Consulted(cfg, w.tiers, req, f);
      ConsultLeaves(cfg, w.tiers, req, f, key);
      EffectLeaves(cfg, consulted, KeyOf(cfg, req), Evict, f, key);
      assert Next(cfg, w, turn).tiers in [w.tiers, consulted, EffectOver(cfg, consulted, KeyOf(cfg, req), Evict, f)];
    case End(other, up, now, f) =>
      if other in w.pending {
        EffectLeaves(cfg, w.tiers, other, Handle(cfg, w, turn).effect, f, key);
      }
  }

  lemma SettledStays(cfg: Config, w: World, req: Request, meta: EntryMeta, body: Bytes, turn: Turn)
    requires Settled(cfg, w, req, meta, body) && SameTargetFor(cfg, req, turn)
    ensures Settled(cfg, Next(cfg, w, turn), req, meta, body)
  {
    var key := KeyOf(cfg, req);
    if turn.Begin? && KeyOf(cfg, turn.req) == key {
      LookupOverIsLookup(cfg.codec, w.tiers, key, turn.f);
      if turn.req.parsed {
        SettledAnswers(cfg, w, req, meta, body, turn.req, turn.now, turn.f);
      }
    } else if turn.Begin? || turn.key != key {
      OtherTurnsLeave(cfg, w, turn, key);
      SameEntrySameLookup(cfg.codec, View(w.tiers), View(Next(cfg, w, turn).tiers), key);
    }
  }

  lemma {:induction false} SettledForever(cfg: Config, w: World, req: Request, meta: EntryMeta, body: Bytes, turns: seq<Turn>)
    requires Settled(cfg, w, req, meta, body)
    requires forall turn <- turns :: SameTargetFor(cfg, req, turn)
    ensures Settled(cfg, Run(cfg, w, turns), req, meta, body)
    decreases |turns|
  {
    if turns != [] {
      SettledStays(cfg, w, req, meta, body, turns[0]);
      SettledForever(cfg, Next(cfg, w, turns[0]), req, meta, body, turns[1..]);
    }
  }

  /** The exchange open on `key` was begun by a request with that key that consults the cache. */
  ghost predicate PendingConsult(cfg: Config, w: World) {
    forall key <- w.pending :: IsLookedUp(cfg, w.pending[key].req) && KeyOf(cfg, w.pending[key].req) == key
  }

  lemma {:induction false} PendingAlwaysConsult(cfg: Config, w: World, turns: seq<Turn>)
    requires PendingConsult(cfg, w)
    ensures PendingConsult(cfg, Run(cfg, w, turns))
    decreases |turns|
  {
    if turns != [] {
      TurnKeepsConsulting(cfg, w, turns[0]);
      PendingAlwaysConsult(cfg, Next(cfg, w, turns[0]), turns[1..]);
    }
  }

  lemma TurnKeepsConsulting(cfg: Config, w: World, turn: Turn)
    requires PendingConsult(cfg, w)
    ensures PendingConsult(cfg, Next(cfg, w, turn))
  {
  }

  /** The store ends with the new entry in sight: every tier takes its meta, and the tier
      that then answers for the body has taken all of it. */
  predicate StoreShowsEntry(tiers: seq<Objects>, key: string, body: Bytes, f: TierFaults) {
    AllWrite(|tiers|, f.putMeta) && Sight(tiers, BodyName(key), body, f.putBody) == Some(body)
  }

  lemma StoreThenLookup(codec: Codec, tiers: seq<Objects>, key: string, meta: EntryMeta, body: Bytes, f: TierFaults)
    requires codec.RoundTrips() && tiers != [] && StoreShowsEntry(tiers, key, body, f)
    ensures Lookup(codec, View(StoredOver(codec, tiers, key, meta, body, f)), key, NO_FAULTS) == Hit(meta, body)
  {
    var begun := AfterPut(tiers, MetaName(key), codec.encode(meta), f.putMeta);
    PutForName(tiers, MetaName(key), codec.encode(meta), f.putMeta);
    PutForName(begun, BodyName(key), body, f.putBody);
    PutIsWritten(begun, BodyName(key), body, f.putBody);
    assert Answering(begun, BodyName(key), f.putBody, 0) == Answering(tiers, BodyName(key), f.putBody, 0);
    assert codec.decode(codec.encode(meta)) == Some(meta);
  }

  /** Storing a response settles its entry. */
  lemma StoreSettles(cfg: Config, w: World, key: string, resp: Response, now: nat, f: TierFaults)
    requires cfg.codec.RoundTrips() && PendingConsult(cfg, w) && key in w.pending
    requires w.tiers != [] && StoreShowsEntry(w.tiers, key, resp.body, f)
    requires var turn := End(key, Answers(resp), now, f);
             Handle(cfg, w, turn).effect.Store?
    requires !(cfg.interval > 0 && AnyMatch(cfg.revalidates, RenderUrl(w.pending[key].req.url)))
    ensures var turn := End(key, Answers(resp), now, f);
            var meta := Handle(cfg, w, turn).effect.meta;
            && Settled(cfg, Next(cfg, w, turn), w.pending[key].req, meta, resp.body)
            && meta.statusCode == resp.status
            && HeaderGet(meta.header, CONTENT_LENGTH) == HeaderGet(resp.header, CONTENT_LENGTH)
            && (w.pending[key].req.verb == HEAD ==> HasPositiveLength(resp.header))
  {
    var turn := End(key, Answers(resp), now, f);
    var effect := Handle(cfg, w, turn).effect;
    assert w.tiers != [] && Next(cfg, w, turn).tiers == StoredOver(cfg.codec, w.tiers, key, effect.meta, effect.body, f);
    MarkerIsNotLength(resp.header);
    StoreThenLookup(cfg.codec, w.tiers, key, effect.meta, effect.body, f);
  }

  lemma MarkerIsNotLength(header: Header)
    ensures HeaderGet(HeaderDel(header, MARKER), CONTENT_LENGTH) == HeaderGet(header, CONTENT_LENGTH)
  {
    assert Canonical(MARKER)[0] != Canonical(CONTENT_LENGTH)[0];
  }

  /** Replay stability: once a response is stored for a URL that is not revalidated,
      every later identical request in any per-key serial run gets its status and body
      with no upstream exchange, and a HEAD gets the positive length the origin sent. */
  lemma ReplayIsStable(cfg: Config, n: nat, before: seq<Turn>, key: string, resp: Response, now: nat, f: TierFaults,
                       turns: seq<Turn>, again: Request, later: nat, g: TierFaults)
    requires cfg.codec.RoundTrips() && n > 0 && ReadsWork(g)
    requires var w := Run(cfg, Empty(n), before);
             && key in w.pending && Handle(cfg, w, End(key, Answers(resp), now, f)).effect.Store?
             && StoreShowsEntry(w.tiers, key, resp.body, f)
             && !(cfg.interval > 0 && AnyMatch(cfg.revalidates, RenderUrl(w.pending[key].req.url)))
             && (forall turn <- turns :: SameTargetFor(cfg, w.pending[key].req, turn))
             && again.parsed && KeyOf(cfg, again) == key
             && again.verb == w.pending[key].req.verb && again.url == w.pending[key].req.url
    ensures var w := Next(cfg, Run(cfg, Empty(n), before), End(key, Answers(resp), now, f));
            var ruling := RuleOver(cfg, Run(cfg, w, turns).tiers, again, later, g);
            && ruling.decision.Reply?
            && ruling.decision.resp.status == resp.status && ruling.decision.resp.body == resp.body
            && (again.verb == HEAD ==>
                  ruling.decision.resp.contentLength > 0 &&
                  ParseInt64(HeaderGet(resp.header, CONTENT_LENGTH)) == Some(ruling.decision.resp.contentLength))
  {
    var w := Run(cfg, Empty(n), before);
    var turn := End(key, Answers(resp), now, f);
    PendingAlwaysConsult(cfg, Empty(n), before);
    StoreSettles(cfg, w, key, resp, now, f);
    var req, meta := w.pending[key].req, Handle(cfg, w, turn).effect.meta;
    SettledForever(cfg, Next(cfg, w, turn), req, meta, resp.body, turns);
    SettledAnswers(cfg, Run(cfg, Next(cfg, w, turn), turns), req, meta, resp.body, again, later, g);
  }

  /** Where the no-clash condition comes from: clean requests whose key texts do not
      collide under the key hash. */
  lemma CleanRequestsDoNotClash(cfg: Config, a: Request, b: Request)
    requires CacheKey.IsClean(a, cfg.keyHeaders) && CacheKey.IsClean(b, cfg.keyHeaders)
    requires WellFormedUrl(a.url) && WellFormedUrl(b.url)
    requires KeyOf(cfg, a) == KeyOf(cfg, b) ==>
               CacheKey.KeyText(cfg.bodySum, a, cfg.keyHeaders) == CacheKey.KeyText(cfg.bodySum, b, cfg.keyHeaders)
    ensures KeyOf(cfg, a) == KeyOf(cfg, b) ==> a.verb == b.verb && a.url == b.url
  {
    if KeyOf(cfg, a) == KeyOf(cfg, b) {
      CacheKey.EqualKeysSameTarget(cfg.keyHash, cfg.bodySum, a, b, cfg.keyHeaders);
    }
  }
}
