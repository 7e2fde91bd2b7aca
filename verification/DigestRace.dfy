/** Concurrent requests over tiered storage, one object operation at a time. Threads run
    the request and response halves; their probes, backfills, writes and deletions of
    single objects in single tiers interleave in any order and may fail one by one, a write
    may be seen half done or stay that way, and objects may be removed behind their backs. */
module DigestRace {
  import opened Common
  import opened Http
  import opened CacheSpec
  import opened HandlerSpec
  import opened TieredStorage
  import opened SerialRuns
  import CacheKey

  datatype Half = MetaHalf | BodyHalf

  function NameOf(half: Half, key: string): Name {
    if half.MetaHalf? then MetaName(key) else BodyName(key)
  }

  /** Where a thread stands. `meta` is the raw meta object already read. */
  datatype Place =
    | Probing(half: Half, tier: nat, meta: Bytes)                    // about to open the object in this tier
    | Copying(half: Half, next: nat, upTo: nat, data: Bytes, meta: Bytes)  // backfilling the tiers before
    | Checking(tier: nat, resume: Option<ReqState>)                  // does this tier hold the meta to be deleted?
    | Erasing(half: Half, todo: set<nat>, failed: bool, resume: Option<ReqState>)
    | Waiting(state: ReqState)                                       // forwarded upstream
    | Writing(half: Half, todo: set<nat>, failed: bool, entry: EntryMeta, body: Bytes)
    | Finished

  datatype Thread = Thread(req: Request, place: Place)

  datatype Race = Race(tiers: seq<Objects>, threads: seq<Thread>)

  datatype Action =
    | Arrive(req: Request)
    | Go(thread: nat, tier: nat, read: ReadFault, write: WriteFault, drop: DropFault, now: nat, up: Upstream)
    | Vanish(tier: nat, name: Name)     // an operator, an eviction or another process deletes an object

  function AllTiers(n: nat): (all: set<nat>)
    ensures forall i: nat :: i in all <==> i < n
  {
    if n == 0 then {} else AllTiers(n - 1) + {n - 1}
  }

  /** What the thread does once the lookup is complete; `n` is the number of tiers. */
  function AfterLookup(cfg: Config, n: nat, req: Request, found: GetOutcome, now: nat): Place {
    var r := OnRequest(cfg, req, found, now);
    if r.decision.Reply? || r.decision.state.None? then Finished
    else if r.evicts then Checking(0, r.decision.state)
    else Waiting(r.decision.state.value)
  }

  /** A half was read and copied: the meta leads to the body, the body to the decision. */
  function AfterRead(cfg: Config, n: nat, req: Request, half: Half, data: Bytes, meta: Bytes, now: nat): Place {
    match cfg.codec.decode(if half.MetaHalf? then data else meta)
    case None => AfterLookup(cfg, n, req, Broken, now)
    case Some(m) =>
      if half.MetaHalf? then Probing(BodyHalf, 0, data)
      else AfterLookup(cfg, n, req, Hit(m, data), now)
  }

  function AfterErase(resume: Option<ReqState>): Place {
    if resume.Some? then Waiting(resume.value) else Finished
  }

  function AfterAnswer(cfg: Config, n: nat, req: Request, state: ReqState, up: Upstream, now: nat): Place {
    match OnResponse(cfg, req, Some(state), Some(RoundTrip(up).0), now).effect
    case Leave => Finished
    case Evict => Checking(0, None)
    case Store(meta, body) => Writing(MetaHalf, AllTiers(n), false, meta, body)
  }

  function Update(tiers: seq<Objects>, i: nat, name: Name, data: Bytes, write: WriteFault): seq<Objects> {
    if i >= |tiers| then tiers else tiers[i := TierAfterWrite(tiers[i], name, data, write)]
  }

  function Removed(tiers: seq<Objects>, i: nat, name: Name, drop: DropFault): seq<Objects> {
    if drop.Keeps? || i >= |tiers| then tiers else tiers[i := tiers[i] - {name}]
  }

  /** One object operation, or one local decision, of a thread. A first tier's body that
      breaks off is taken for what it handed out. A write that is cut leaves part of its
      object to be seen, and then comes to its end or fails with a later action. The tiers of
      a fan-out write or deletion are visited in any order; a fan-out that failed anywhere
      stops before the body half, and a deletion starts only once some tier shows the meta. */
  function Advance(cfg: Config, tiers: seq<Objects>, t: Thread, a: Action): (seq<Objects>, Place)
    requires a.Go?
  {
    var key := KeyOf(cfg, t.req);
    match t.place
    case Probing(half, i, meta) =>
      if i >= |tiers| then (tiers, AfterLookup(cfg, |tiers|, t.req, Absent, a.now))
      else if NameOf(half, key) !in tiers[i] || a.read.OpenFails? then (tiers, Probing(half, i + 1, meta))
      else if a.read.ReadFails? then
        (tiers, if i == 0 && half.BodyHalf?
                then AfterRead(cfg, |tiers|, t.req, half, FirstBytes(tiers[0][BodyName(key)], a.read.after), meta, a.now)
                else AfterLookup(cfg, |tiers|, t.req, Broken, a.now))
      else (tiers, Copying(half, 0, i, tiers[i][NameOf(half, key)], meta))
    case Copying(half, next, upTo, data, meta) =>
      if next < upTo then
        (Update(tiers, next, NameOf(half, key), data, a.write), if a.write.Cuts? then t.place else Copying(half, next + 1, upTo, data, meta))
      else (tiers, AfterRead(cfg, |tiers|, t.req, half, data, meta, a.now))
    case Checking(i, resume) =>
      if i >= |tiers| then (tiers, AfterErase(resume))
      else if MetaName(key) in tiers[i] && a.read.Reads? then (tiers, Erasing(MetaHalf, AllTiers(|tiers|), false, resume))
      else (tiers, Checking(i + 1, resume))
    case Erasing(half, todo, failed, resume) =>
      if a.tier in todo then
        (Removed(tiers, a.tier, NameOf(half, key), a.drop), Erasing(half, todo - {a.tier}, failed || !a.drop.Drops?, resume))
      else if todo == {} && half.MetaHalf? && !failed then (tiers, Erasing(BodyHalf, AllTiers(|tiers|), false, resume))
      else if todo == {} then (tiers, AfterErase(resume))
      else (tiers, t.place)
    case Waiting(state) => (tiers, AfterAnswer(cfg, |tiers|, t.req, state, a.up, a.now))
    case Writing(half, todo, failed, entry, body) =>
      if a.tier in todo then
        (Update(tiers, a.tier, NameOf(half, key), if half.MetaHalf? then cfg.codec.encode(entry) else body, a.write),
         if a.write.Cuts? then t.place else Writing(half, todo - {a.tier}, failed || a.write.Refuses?, entry, body))
      else if todo == {} && half.MetaHalf? && !failed then (tiers, Writing(BodyHalf, AllTiers(|tiers|), false, entry, body))
      else if todo == {} then (tiers, Finished)
      else (tiers, t.place)
    case Finished => (tiers, Finished)
  }

  function Step(cfg: Config, s: Race, a: Action): Race {
    match a
    case Arrive(req) =>
      if req.parsed && BypassOf(cfg, req) == NoBypass
      then Race(s.tiers, s.threads + [Thread(req, Probing(MetaHalf, 0, []))]) else s
    case Go(i, _, _, _, _, _, _) =>
      if i >= |s.threads| then s
      else
        var (tiers, place) := Advance(cfg, s.tiers, s.threads[i], a);
        Race(tiers, s.threads[i := Thread(s.threads[i].req, place)])
    case Vanish(i, name) => Race(Removed(s.tiers, i, name, Drops), s.threads)
  }

  function RunRace(cfg: Config, s: Race, actions: seq<Action>): Race
    decreases |actions|
  {
    if actions == [] then s else RunRace(cfg, Step(cfg, s, actions[0]), actions[1..])
  }

  /** A clean start: empty tiers and no requests. */
  function Start(n: nat): Race {
    Race(seq(n, _ => map[]), [])
  }

  // ---- safety ----

  /** The requests a run may contain: line-break free, with parsed URLs, and no two of
      them with different key texts under one key. */
  ghost predicate IsUniverse(cfg: Config, requests: set<Request>) {
    && (forall r <- requests :: CacheKey.IsClean(r, cfg.keyHeaders) && WellFormedUrl(r.url))
    && (forall a, b :: a in requests && b in requests && KeyOf(cfg, a) == KeyOf(cfg, b) ==>
          CacheKey.KeyText(cfg.bodySum, a, cfg.keyHeaders) == CacheKey.KeyText(cfg.bodySum, b, cfg.keyHeaders))
  }

  /** A body is good for a key if it matches the digest of every verified request with
      that key; a meta is good if it decodes. */
  ghost predicate GoodObject(cfg: Config, requests: set<Request>, name: Name, data: Bytes) {
    match name
    case MetaName(_) => cfg.codec.decode(data).Some?
    case BodyName(key) =>
      forall r <- requests :: IsVerified(cfg, r) && KeyOf(cfg, r) == key ==> BodyMatches(cfg, r, data)
    case OtherName(_) => true
  }

  /** The bytes are good, or if writes may be cut, part of something good. */
  ghost predicate Stands(cfg: Config, requests: set<Request>, whole: bool, name: Name, data: Bytes) {
    if whole then GoodObject(cfg, requests, name, data)
    else exists full :: data <= full && GoodObject(cfg, requests, name, full)
  }

  lemma PartStands(cfg: Config, requests: set<Request>, name: Name, data: Bytes, part: Bytes)
    requires Stands(cfg, requests, false, name, data) && part <= data
    ensures Stands(cfg, requests, false, name, part)
  {
    var full :| data <= full && GoodObject(cfg, requests, name, full);
    assert part <= full;
  }

  lemma GoodStands(cfg: Config, requests: set<Request>, whole: bool, name: Name, data: Bytes)
    requires GoodObject(cfg, requests, name, data)
    ensures Stands(cfg, requests, whole, name, data)
  {
    assert data <= data;
  }

  ghost predicate GoodObjects(cfg: Config, requests: set<Request>, whole: bool, objects: Objects) {
    forall name <- objects :: Stands(cfg, requests, whole, name, objects[name])
  }

  ghost predicate GoodTiers(cfg: Config, requests: set<Request>, whole: bool, tiers: seq<Objects>) {
    forall i :: 0 <= i < |tiers| ==> GoodObjects(cfg, requests, whole, tiers[i])
  }

  /** What a thread carries and may yet write is good. */
  ghost predicate GoodThread(cfg: Config, requests: set<Request>, whole: bool, t: Thread) {
    t.req in requests &&
    match t.place
    case Copying(half, _, _, data, _) => Stands(cfg, requests, whole, NameOf(half, KeyOf(cfg, t.req)), data)
    case Writing(_, _, _, _, body) => Stands(cfg, requests, whole, BodyName(KeyOf(cfg, t.req)), body)
    case _ => true
  }

  ghost predicate Safe(cfg: Config, requests: set<Request>, whole: bool, s: Race) {
    GoodTiers(cfg, requests, whole, s.tiers) && forall i :: 0 <= i < |s.threads| ==> GoodThread(cfg, requests, whole, s.threads[i])
  }

  lemma UpdateKeepsGood(cfg: Config, requests: set<Request>, whole: bool, tiers: seq<Objects>, i: nat, name: Name, data: Bytes, write: WriteFault)
    requires GoodTiers(cfg, requests, whole, tiers) && Stands(cfg, requests, whole, name, data) && (whole ==> !write.Cuts?)
    ensures GoodTiers(cfg, requests, whole, Update(tiers, i, name, data, write))
  {
    if write.Cuts? { PartStands(cfg, requests, name, data, FirstBytes(data, write.taken)); }
  }

  lemma RemoveKeepsGood(cfg: Config, requests: set<Request>, whole: bool, tiers: seq<Objects>, i: nat, name: Name, drop: DropFault)
    requires GoodTiers(cfg, requests, whole, tiers)
    ensures GoodTiers(cfg, requests, whole, Removed(tiers, i, name, drop))
  {
  }

  /** A body the response half decides to store was verified if it had to be. */
  lemma StoredBodyIsVerified(cfg: Config, req: Request, state: ReqState, answer: Response, now: nat)
    requires OnResponse(cfg, req, Some(state), Some(answer), now).effect.Store?
    ensures IsVerified(cfg, req) ==>
              BodyMatches(cfg, req, OnResponse(cfg, req, Some(state), Some(answer), now).effect.body)
  {
  }

  /** So it is good for its key: whoever shares the key asks for the same URL. */
  lemma StoredBodyIsGood(cfg: Config, requests: set<Request>, req: Request, body: Bytes)
    requires IsUniverse(cfg, requests) && req in requests
    requires IsVerified(cfg, req) ==> BodyMatches(cfg, req, body)
    ensures GoodObject(cfg, requests, BodyName(KeyOf(cfg, req)), body)
  {
    forall r | r in requests && IsVerified(cfg, r) && KeyOf(cfg, r) == KeyOf(cfg, req)
      ensures BodyMatches(cfg, r, body)
    {
      CleanRequestsDoNotClash(cfg, r, req);
    }
  }

  /** Writes are seen whole or not at all. */
  predicate IsAtomic(a: Action) {
    a.Go? ==> !a.write.Cuts?
  }

  lemma AdvanceKeepsTiersGood(cfg: Config, requests: set<Request>, whole: bool, tiers: seq<Objects>, t: Thread, a: Action)
    requires a.Go? && cfg.codec.RoundTrips() && (whole ==> IsAtomic(a))
    requires GoodTiers(cfg, requests, whole, tiers) && GoodThread(cfg, requests, whole, t)
    ensures GoodTiers(cfg, requests, whole, Advance(cfg, tiers, t, a).0)
  {
    var key := KeyOf(cfg, t.req);
    match t.place
    case Copying(half, next, upTo, data, meta) =>
      UpdateKeepsGood(cfg, requests, whole, tiers, next, NameOf(half, key), data, a.write);
    case Erasing(half, todo, failed, resume) =>
      RemoveKeepsGood(cfg, requests, whole, tiers, a.tier, NameOf(half, key), a.drop);
    case Writing(half, todo, failed, entry, body) =>
      assert cfg.codec.decode(cfg.codec.encode(entry)) == Some(entry);
      GoodStands(cfg, requests, whole, MetaName(key), cfg.codec.encode(entry));
      UpdateKeepsGood(cfg, requests, whole, tiers, a.tier, NameOf(half, key),
                      if half.MetaHalf? then cfg.codec.encode(entry) else body, a.write);
    case _ =>
  }

  /** A thread that turns to writing carries a body that is good for its key. */
  lemma AnswerIsGood(cfg: Config, requests: set<Request>, whole: bool, n: nat, req: Request, state: ReqState, up: Upstream, now: nat)
    requires IsUniverse(cfg, requests) && req in requests
    ensures GoodThread(cfg, requests, whole, Thread(req, AfterAnswer(cfg, n, req, state, up, now)))
  {
    var answer := RoundTrip(up).0;
    var effect := OnResponse(cfg, req, Some(state), Some(answer), now).effect;
    if effect.Store? {
      StoredBodyIsVerified(cfg, req, state, answer, now);
      StoredBodyIsGood(cfg, requests, req, effect.body);
      GoodStands(cfg, requests, whole, BodyName(KeyOf(cfg, req)), effect.body);
    }
  }

  lemma LookupCarriesNothing(cfg: Config, requests: set<Request>, whole: bool, n: nat, req: Request, found: GetOutcome, now: nat)
    requires req in requests
    ensures GoodThread(cfg, requests, whole, Thread(req, AfterLookup(cfg, n, req, found, now)))
  {
  }

  lemma ReadCarriesNothing(cfg: Config, requests: set<Request>, whole: bool, n: nat, req: Request, half: Half,
                           data: Bytes, meta: Bytes, now: nat)
    requires req in requests
    ensures GoodThread(cfg, requests, whole, Thread(req, AfterRead(cfg, n, req, half, data, meta, now)))
  {
    match cfg.codec.decode(if half.MetaHalf? then data else meta)
    case None => LookupCarriesNothing(cfg, requests, whole, n, req, Broken, now);
    case Some(m) => LookupCarriesNothing(cfg, requests, whole, n, req, Hit(m, data), now);
  }

  /** An object opened in some tier is good, so a thread that copies it is. */
  lemma ProbeKeepsThreadGood(cfg: Config, requests: set<Request>, whole: bool, tiers: seq<Objects>, t: Thread, a: Action)
    requires a.Go? && t.place.Probing?
    requires GoodTiers(cfg, requests, whole, tiers) && t.req in requests
    ensures GoodThread(cfg, requests, whole, Thread(t.req, Advance(cfg, tiers, t, a).1))
  {
    LookupCarriesNothing(cfg, requests, whole, |tiers|, t.req, Absent, a.now);
    LookupCarriesNothing(cfg, requests, whole, |tiers|, t.req, Broken, a.now);
    var i := t.place.tier;
    assert i < |tiers| ==> GoodObjects(cfg, requests, whole, tiers[i]);
    if i == 0 < |tiers| && BodyName(KeyOf(cfg, t.req)) in tiers[0] && a.read.ReadFails? {
      var part := FirstBytes(tiers[0][BodyName(KeyOf(cfg, t.req))], a.read.after);
      ReadCarriesNothing(cfg, requests, whole, |tiers|, t.req, t.place.half, part, t.place.meta, a.now);
    }
  }

  lemma CopyKeepsThreadGood(cfg: Config, requests: set<Request>, whole: bool, tiers: seq<Objects>, t: Thread, a: Action)
    requires a.Go? && t.place.Copying? && GoodThread(cfg, requests, whole, t)
    ensures GoodThread(cfg, requests, whole, Thread(t.req, Advance(cfg, tiers, t, a).1))
  {
    ReadCarriesNothing(cfg, requests, whole, |tiers|, t.req, t.place.half, t.place.data, t.place.meta, a.now);
  }

  /** Checking, erasing and writing on read nothing, and carry on what they carried. */
  lemma RestKeepsThreadGood(cfg: Config, requests: set<Request>, whole: bool, tiers: seq<Objects>, t: Thread, a: Action)
    requires a.Go? && !t.place.Probing? && !t.place.Copying? && !t.place.Waiting? && GoodThread(cfg, requests, whole, t)
    ensures GoodThread(cfg, requests, whole, Thread(t.req, Advance(cfg, tiers, t, a).1))
  {
    var next := Advance(cfg, tiers, t, a).1;
    assert next.Writing? ==> t.place.Writing? && next.body == t.place.body;
    assert !next.Copying?;
  }

  lemma AdvanceKeepsThreadGood(cfg: Config, requests: set<Request>, whole: bool, tiers: seq<Objects>, t: Thread, a: Action)
    requires a.Go? && IsUniverse(cfg, requests)
    requires GoodTiers(cfg, requests, whole, tiers) && GoodThread(cfg, requests, whole, t)
    ensures GoodThread(cfg, requests, whole, Thread(t.req, Advance(cfg, tiers, t, a).1))
  {
    match t.place
    case Probing(half, i, meta) => ProbeKeepsThreadGood(cfg, requests, whole, tiers, t, a);
    case Copying(half, next, upTo, data, meta) => CopyKeepsThreadGood(cfg, requests, whole, tiers, t, a);
    case Waiting(state) => AnswerIsGood(cfg, requests, whole, |tiers|, t.req, state, a.up, a.now);
    case _ => RestKeepsThreadGood(cfg, requests, whole, tiers, t, a);
  }

  lemma StepKeepsSafe(cfg: Config, requests: set<Request>, whole: bool, s: Race, a: Action)
    requires cfg.codec.RoundTrips() && IsUniverse(cfg, requests) && Safe(cfg, requests, whole, s)
    requires (a.Arrive? ==> a.req in requests) && (whole ==> IsAtomic(a))
    ensures Safe(cfg, requests, whole, Step(cfg, s, a))
  {
    match a
    case Arrive(req) =>
    case Go(i, _, _, _, _, _, _) =>
      if i < |s.threads| {
        AdvanceKeepsTiersGood(cfg, requests, whole, s.tiers, s.threads[i], a);
        AdvanceKeepsThreadGood(cfg, requests, whole, s.tiers, s.threads[i], a);
      }
    case Vanish(i, name) => RemoveKeepsGood(cfg, requests, whole, s.tiers, i, name, Drops);
  }

  lemma {:induction false} RunKeepsSafe(cfg: Config, requests: set<Request>, whole: bool, s: Race, actions: seq<Action>)
    requires cfg.codec.RoundTrips() && IsUniverse(cfg, requests) && Safe(cfg, requests, whole, s)
    requires forall a <- actions :: (a.Arrive? ==> a.req in requests) && (whole ==> IsAtomic(a))
    ensures Safe(cfg, requests, whole, RunRace(cfg, s, actions))
    ensures |RunRace(cfg, s, actions).tiers| == |s.tiers|
    decreases |actions|
  {
    if actions != [] {
      StepKeepsSafe(cfg, requests, whole, s, actions[0]);
      RunKeepsSafe(cfg, requests, whole, Step(cfg, s, actions[0]), actions[1..]);
    }
  }

  /** Digest safety: from a clean start, after every interleaving of object operations,
      failures and removals, every body stored in any tier under the key of a verified
      request is part of a body that hashes to the digest in that request's path, and all of
      it if no write is seen in part. */
  lemma DigestSafety(cfg: Config, requests: set<Request>, n: nat, actions: seq<Action>, req: Request, tier: nat)
    requires cfg.codec.RoundTrips() && IsUniverse(cfg, requests) && req in requests && IsVerified(cfg, req)
    requires forall a <- actions :: a.Arrive? ==> a.req in requests
    requires var tiers := RunRace(cfg, Start(n), actions).tiers;
             tier < |tiers| && BodyName(KeyOf(cfg, req)) in tiers[tier]
    ensures var body := RunRace(cfg, Start(n), actions).tiers[tier][BodyName(KeyOf(cfg, req))];
            && (exists full :: body <= full && BodyMatches(cfg, req, full))
            && ((forall a <- actions :: IsAtomic(a)) ==> BodyMatches(cfg, req, body))
  {
    var whole := forall a <- actions :: IsAtomic(a);
    RunKeepsSafe(cfg, requests, whole, Start(n), actions);
    var tiers, name := RunRace(cfg, Start(n), actions).tiers, BodyName(KeyOf(cfg, req));
    assert GoodObjects(cfg, requests, whole, tiers[tier]);
    assert Stands(cfg, requests, whole, name, tiers[tier][name]);
    if whole {
      assert tiers[tier][name] <= tiers[tier][name];
    } else {
      var full :| tiers[tier][name] <= full && GoodObject(cfg, requests, name, full);
    }
  }

  lemma RunStep(cfg: Config, tiers: seq<Objects>, req: Request, place: Place, a: Action, rest: seq<Action>,
                tiers': seq<Objects>, place': Place)
    requires a.Go? && a.thread == 0 && Advance(cfg, tiers, Thread(req, place), a) == (tiers', place')
    ensures RunRace(cfg, Race(tiers, [Thread(req, place)]), [a] + rest) == RunRace(cfg, Race(tiers', [Thread(req, place')]), rest)
  {
    assert ([a] + rest)[1..] == rest;
    assert Step(cfg, Race(tiers, [Thread(req, place)]), a) == Race(tiers', [Thread(req, place')]);
  }

  /** Parts are all that can be promised: a request whose body write is cut leaves part of the
      body in storage. */
  lemma CutWriteIsStored(cfg: Config, req: Request, resp: Response, now: nat, taken: nat) returns (actions: seq<Action>)
    requires IsLookedUp(cfg, req) && !cfg.mode.Offline?
    requires OnResponse(cfg, req, Some(ReqState(KeyOf(cfg, req), None)), Some(resp), now).effect.Store?
    ensures forall a <- actions :: a.Arrive? ==> a.req == req
    ensures var body := OnResponse(cfg, req, Some(ReqState(KeyOf(cfg, req), None)), Some(resp), now).effect.body;
            var tiers := RunRace(cfg, Start(1), actions).tiers;
            |tiers| == 1 && BodyName(KeyOf(cfg, req)) in tiers[0] && tiers[0][BodyName(KeyOf(cfg, req))] == FirstBytes(body, taken)
  {
    var key, go := KeyOf(cfg, req), Go(0, 0, Reads, Writes, Drops, now, Answers(resp));
    var state, cut := ReqState(key, None), go.(write := Cuts(taken));
    var effect := OnResponse(cfg, req, Some(state), Some(resp), now).effect;
    var steps := [go] + ([go] + AnswerSteps(go, cut));
    actions := [Arrive(req)] + steps;
    OneRequest(req, go, cut);
    StoreIsWritten(cfg, req, state, resp, now);
    RequestArrives(cfg, req, steps);
    MissIsForwarded(cfg, req, go, AnswerSteps(go, cut));
    AnswerIsWritten(cfg, req, go, cut, effect.meta, effect.body);
  }

  lemma StoreIsWritten(cfg: Config, req: Request, state: ReqState, resp: Response, now: nat)
    requires OnResponse(cfg, req, Some(state), Some(resp), now).effect.Store?
    ensures var effect := OnResponse(cfg, req, Some(state), Some(resp), now).effect;
            AfterAnswer(cfg, 1, req, state, Answers(resp), now) == Writing(MetaHalf, {0}, false, effect.meta, effect.body)
  {
    assert AllTiers(1) == {0};
  }

  lemma RequestArrives(cfg: Config, req: Request, rest: seq<Action>)
    requires IsLookedUp(cfg, req)
    ensures RunRace(cfg, Start(1), [Arrive(req)] + rest) ==
            RunRace(cfg, Race([map[]], [Thread(req, Probing(MetaHalf, 0, []))]), rest)
  {
    assert ([Arrive(req)] + rest)[1..] == rest;
    assert Step(cfg, Start(1), Arrive(req)) == Race([map[]], [Thread(req, Probing(MetaHalf, 0, []))]);
  }

  /** On an empty tier the lookup misses and the request waits for upstream. */
  lemma MissIsForwarded(cfg: Config, req: Request, go: Action, rest: seq<Action>)
    requires IsLookedUp(cfg, req) && !cfg.mode.Offline?
    requires go.Go? && go.thread == 0
    ensures RunRace(cfg, Race([map[]], [Thread(req, Probing(MetaHalf, 0, []))]), [go] + ([go] + rest)) ==
            RunRace(cfg, Race([map[]], [Thread(req, Waiting(ReqState(KeyOf(cfg, req), None)))]), rest)
  {
    RunStep(cfg, [map[]], req, Probing(MetaHalf, 0, []), go, [go] + rest, [map[]], Probing(MetaHalf, 1, []));
    RunStep(cfg, [map[]], req, Probing(MetaHalf, 1, []), go, rest, [map[]], Waiting(ReqState(KeyOf(cfg, req), None)));
  }

  /** The answer is taken, its meta written, its body begun, and that write cut. */
  function AnswerSteps(go: Action, cut: Action): seq<Action> {
    [go] + ([go] + ([go] + ([cut] + [])))
  }

  lemma OneRequest(req: Request, go: Action, cut: Action)
    requires go.Go? && cut.Go?
    ensures forall a <- [Arrive(req)] + ([go] + ([go] + AnswerSteps(go, cut))) :: a.Arrive? ==> a.req == req
  {
  }

  /** The answer's meta is written, and part of its body. */
  lemma AnswerIsWritten(cfg: Config, req: Request, go: Action, cut: Action, entry: EntryMeta, body: Bytes)
    requires go.Go? && go.thread == 0 && go.tier == 0 && go.write.Writes?
    requires cut.Go? && cut == go.(write := cut.write) && cut.write.Cuts?
    requires AfterAnswer(cfg, 1, req, ReqState(KeyOf(cfg, req), None), go.up, go.now) == Writing(MetaHalf, {0}, false, entry, body)
    ensures var tiers := RunRace(cfg, Race([map[]], [Thread(req, Waiting(ReqState(KeyOf(cfg, req), None)))]),
                                 AnswerSteps(go, cut)).tiers;
            |tiers| == 1 && BodyName(KeyOf(cfg, req)) in tiers[0] &&
            tiers[0][BodyName(KeyOf(cfg, req))] == FirstBytes(body, cut.write.taken)
  {
    var key := KeyOf(cfg, req);
    var state := ReqState(key, None);
    var none, half: Objects := map[], map[MetaName(key) := cfg.codec.encode(entry)];
    var part := half[BodyName(key) := FirstBytes(body, cut.write.taken)];
    var first, done := Writing(MetaHalf, {0}, false, entry, body), Writing(MetaHalf, {}, false, entry, body);
    var second := Writing(BodyHalf, {0}, false, entry, body);
    assert AllTiers(1) == {0} && {0} - {0} == {};
    assert Update([none], 0, MetaName(key), cfg.codec.encode(entry), Writes) == [half];
    assert Update([half], 0, BodyName(key), body, cut.write) == [part];
    RunStep(cfg, [none], req, Waiting(state), go, [go] + ([go] + ([cut] + [])), [none], first);
    RunStep(cfg, [none], req, first, go, [go] + ([cut] + []), [half], done);
    RunStep(cfg, [half], req, done, go, [cut] + [], [half], second);
    RunStep(cfg, [half], req, second, cut, [], [part], second);
  }

  /** Seen as one map, the tiers are good as well. */
  lemma {:induction false} ViewIsGood(cfg: Config, requests: set<Request>, whole: bool, tiers: seq<Objects>)
    requires GoodTiers(cfg, requests, whole, tiers)
    ensures GoodObjects(cfg, requests, whole, View(tiers))
  {
    if tiers != [] {
      ViewIsGood(cfg, requests, whole, tiers[1..]);
    }
  }
}
