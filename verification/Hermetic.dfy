/** Recording concurrently, archiving, and replaying offline: exactly what goes upstream, and
    that every entry archived whole is served as it was recorded. */
module Hermetic {
  import opened Common
  import opened Http
  import opened SqlLike
  import opened CacheSpec
  import opened HandlerSpec
  import opened TieredStorage
  import opened ArchiveSpec
  import opened Replay
  import opened DigestRace
  import Digest

  /** Offline, a request is let through upstream in one situation only: a body found
      under a verified URL that does not match the URL's digest. */
  lemma OfflineForwardsIff(cfg: Config, objects: Objects, req: Request, now: nat, f: Faults)
    requires cfg.mode.Offline? && req.parsed
    ensures Rule(cfg, objects, req, now, f).decision.Forward? <==>
            && BypassOf(cfg, req) == NoBypass
            && IsVerified(cfg, req)
            && var found := Lookup(cfg.codec, objects, KeyOf(cfg, req), f);
               found.Hit? && !BodyMatches(cfg, req, found.body)
  {
  }

  /** What the tiers hold, as one map, when recording stops. */
  function Recording(cfg: Config, n: nat, actions: seq<Action>): Objects {
    View(RunRace(cfg, Start(n), actions).tiers)
  }

  /** What a finalize archives, as the storage the offline proxy reads. */
  function ArchiveOf(base: Objects, faults: string -> ItemFault, log: seq<string>): Objects {
    ArchiveObjects(LastWins(ItemsOf(base, faults, log, {})))
  }

  function AsOffline(cfg: Config): Config {
    cfg.(mode := Offline)
  }

  lemma RecordingIsGood(cfg: Config, requests: set<Request>, n: nat, actions: seq<Action>)
    requires cfg.codec.RoundTrips() && IsUniverse(cfg, requests)
    requires forall a <- actions :: (a.Arrive? ==> a.req in requests) && IsAtomic(a)
    ensures GoodObjects(cfg, requests, true, Recording(cfg, n, actions))
  {
    RunKeepsSafe(cfg, requests, true, Start(n), actions);
    ViewIsGood(cfg, requests, true, RunRace(cfg, Start(n), actions).tiers);
  }

  /** Bodies match the digests of the verified requests with their key. */
  ghost predicate GoodBodies(cfg: Config, requests: set<Request>, objects: Objects) {
    forall key :: BodyName(key) in objects ==> GoodObject(cfg, requests, BodyName(key), objects[BodyName(key)])
  }

  /** A finalize takes bodies whole, and metas as far as it could read them. */
  lemma ArchiveHalves(base: Objects, faults: string -> ItemFault, log: seq<string>, key: string)
    ensures var archive := ArchiveOf(base, faults, log);
            && (MetaName(key) in archive <==> key in ReadKeys(base, faults, log))
            && (BodyName(key) in archive <==> key in ReadKeys(base, faults, log))
            && (key in ReadKeys(base, faults, log) ==>
                  && HasBothHalves(base, key) && archive[BodyName(key)] == base[BodyName(key)]
                  && archive[MetaName(key)] == BytesRead(base[MetaName(key)], faults(key).cutMeta))
  {
    ArchiveIsWhatWasRead(base, faults, log);
  }

  lemma ArchiveIsGood(cfg: Config, requests: set<Request>, base: Objects, faults: string -> ItemFault, log: seq<string>)
    requires GoodObjects(cfg, requests, true, base)
    ensures GoodBodies(cfg, requests, ArchiveOf(base, faults, log))
  {
    var archive := ArchiveOf(base, faults, log);
    forall key | BodyName(key) in archive
      ensures GoodObject(cfg, requests, BodyName(key), archive[BodyName(key)])
    {
      ArchiveHalves(base, faults, log, key);
      assert GoodObject(cfg, requests, BodyName(key), base[BodyName(key)]);
    }
  }

  /** Both halves are there and the meta decodes. */
  predicate IsWhole(codec: Codec, objects: Objects, key: string) {
    HasBothHalves(objects, key) && codec.decode(objects[MetaName(key)]).Some?
  }

  predicate ReadsWell(f: Faults) {
    f.openMeta.AskWorks? && f.openBody.AskWorks? && f.cutBody.None?
  }

  /** The status and body are those of these two halves. */
  predicate AnswersWith(cfg: Config, r: Ruling, meta: EntryMeta, body: Bytes) {
    r.decision.Reply? && !r.evicts && r.decision.resp.status == meta.statusCode && r.decision.resp.body == body
  }

  predicate AnswersMiss(r: Ruling) {
    r.decision.Reply? && !r.evicts && r.decision.resp.status == BAD_GATEWAY
  }

  /** What lets a request through offline: both halves of a pinned entry open, and what the
      body then hands out does not match the digest. The handler takes those bytes for the
      whole body. */
  predicate SlipsThrough(cfg: Config, objects: Objects, req: Request, f: Faults) {
    var key := KeyOf(cfg, req);
    && IsLookedUp(cfg, req) && IsVerified(cfg, req) && IsWhole(cfg.codec, objects, key)
    && f.openMeta.AskWorks? && f.openBody.AskWorks?
    && !BodyMatches(cfg, req, BytesRead(objects[BodyName(key)], f.cutBody))
  }

  /** What the offline proxy owes any other request: with working reads a whole entry is
      answered as it is stored; whatever fails, any other key gets the miss page. */
  predicate AnswersAsStored(cfg: Config, objects: Objects, req: Request, r: Ruling, f: Faults) {
    var key := KeyOf(cfg, req);
    && (IsLookedUp(cfg, req) && IsWhole(cfg.codec, objects, key) && ReadsWell(f) && !SlipsThrough(cfg, objects, req, f) ==>
          AnswersWith(cfg, r, cfg.codec.decode(objects[MetaName(key)]).value, objects[BodyName(key)]))
    && (IsLookedUp(cfg, req) && !IsWhole(cfg.codec, objects, key) ==> AnswersMiss(r))
  }

  /** What that is in terms of the recording: a whole entry that the finalize read whole is
      answered as it was recorded, a key that it could not read gets the miss page. */
  predicate AnswersAsRecorded(cfg: Config, base: Objects, faults: string -> ItemFault, log: seq<string>,
                              req: Request, r: Ruling, f: Faults) {
    var key := KeyOf(cfg, req);
    && (IsLookedUp(cfg, req) && key in ReadKeys(base, faults, log) && IsWhole(cfg.codec, base, key) &&
        !BreaksOff(base[MetaName(key)], faults(key).cutMeta) && ReadsWell(f) && !r.decision.Forward? ==>
          AnswersWith(cfg, r, cfg.codec.decode(base[MetaName(key)]).value, base[BodyName(key)]))
    && (IsLookedUp(cfg, req) && key !in ReadKeys(base, faults, log) ==> AnswersMiss(r))
  }

  lemma AsOfflineSame(cfg: Config, req: Request)
    ensures KeyOf(AsOffline(cfg), req) == KeyOf(cfg, req) && IsLookedUp(AsOffline(cfg), req) == IsLookedUp(cfg, req)
    ensures IsVerified(AsOffline(cfg), req) == IsVerified(cfg, req)
    ensures forall body :: BodyMatches(AsOffline(cfg), req, body) == BodyMatches(cfg, req, body)
  {
    assert BypassOf(AsOffline(cfg), req) == BypassOf(cfg, req);
  }

  /** Offline, over any storage and under any faults: exactly when a request is let through,
      and what it is answered otherwise. */
  lemma StorageReplays(cfg: Config, objects: Objects, req: Request, now: nat, f: Faults)
    requires req.parsed
    ensures var r := Rule(AsOffline(cfg), objects, req, now, f);
            (r.decision.Forward? <==> SlipsThrough(cfg, objects, req, f)) && AnswersAsStored(cfg, objects, req, r, f)
  {
    AsOfflineSame(cfg, req);
    OfflineForwardsIff(AsOffline(cfg), objects, req, now, f);
  }

  /** Where bodies are good, a request is let through only if its body breaks off. */
  lemma GoodSlipsOnlyCut(cfg: Config, requests: set<Request>, objects: Objects, req: Request, f: Faults)
    requires GoodBodies(cfg, requests, objects) && req in requests && SlipsThrough(cfg, objects, req, f)
    ensures BreaksOff(objects[BodyName(KeyOf(cfg, req))], f.cutBody)
  {
    var name := BodyName(KeyOf(cfg, req));
    assert GoodObject(cfg, requests, name, objects[name]);
  }

  /** Hermetic replay: after recording under any interleaving and any faults, and a finalize
      of whatever was logged in which any reads fail, the same configuration offline forwards
      a request exactly when a pinned body that opens hands out bytes that do not match,
      and otherwise answers keys that were read whole as recorded and any other with the miss
      page. If no write was seen in part, every meta recorded decodes, and what lets a
      request through is a read that breaks off and nothing else. */
  lemma ReplayIsHermetic(cfg: Config, requests: set<Request>, n: nat, actions: seq<Action>,
                         faults: string -> ItemFault, log: seq<string>, req: Request, now: nat, f: Faults)
    requires cfg.codec.RoundTrips() && IsUniverse(cfg, requests) && req in requests && req.parsed
    requires forall a <- actions :: a.Arrive? ==> a.req in requests
    ensures var base := Recording(cfg, n, actions);
            var archive := ArchiveOf(base, faults, log);
            var r := Rule(AsOffline(cfg), archive, req, now, f);
            && (r.decision.Forward? <==> SlipsThrough(cfg, archive, req, f))
            && AnswersAsStored(cfg, archive, req, r, f) && AnswersAsRecorded(cfg, base, faults, log, req, r, f)
            && ((forall a <- actions :: IsAtomic(a)) ==>
                  && (KeyOf(cfg, req) in ReadKeys(base, faults, log) ==> IsWhole(cfg.codec, base, KeyOf(cfg, req)))
                  && (r.decision.Forward? ==> BreaksOff(archive[BodyName(KeyOf(cfg, req))], f.cutBody)))
  {
    var base, key := Recording(cfg, n, actions), KeyOf(cfg, req);
    var archive := ArchiveOf(base, faults, log);
    StorageReplays(cfg, archive, req, now, f);
    ArchiveHalves(base, faults, log, key);
    if forall a <- actions :: IsAtomic(a) {
      RecordingIsGood(cfg, requests, n, actions);
      ArchiveIsGood(cfg, requests, base, faults, log);
      if key in ReadKeys(base, faults, log) {
        assert GoodObject(cfg, requests, MetaName(key), base[MetaName(key)]);
      }
      if SlipsThrough(cfg, archive, req, f) {
        GoodSlipsOnlyCut(cfg, requests, archive, req, f);
      }
    }
  }

  /** No proper prefix of the body has its digest. */
  ghost predicate PrefixesDiffer(hexSum: Bytes -> string, body: Bytes) {
    forall k: nat :: k < |body| ==> !EqualFold(hexSum(body[..k]), hexSum(body))
  }

  /** So with a hash that tells a body from its prefixes, a pinned entry that opens is let
      through exactly when its body breaks off, wherever that is. */
  lemma SlipsThroughIff(cfg: Config, objects: Objects, req: Request, f: Faults)
    requires IsLookedUp(cfg, req) && IsVerified(cfg, req) && f.openMeta.AskWorks? && f.openBody.AskWorks?
    requires IsWhole(cfg.codec, objects, KeyOf(cfg, req))
    requires BodyMatches(cfg, req, objects[BodyName(KeyOf(cfg, req))])
    requires PrefixesDiffer(cfg.hexSum, objects[BodyName(KeyOf(cfg, req))])
    ensures SlipsThrough(cfg, objects, req, f) <==> BreaksOff(objects[BodyName(KeyOf(cfg, req))], f.cutBody)
  {
  }

  // ---- the failing input ----

  function Repeat(c: char, n: nat): (s: string)
    ensures |s| == n && forall i :: 0 <= i < n ==> s[i] == c
  {
    if n == 0 then "" else Repeat(c, n - 1) + [c]
  }

  const HEX_DIGITS: nat := 64

  /** A hash that gives the body [1] one digest and every other body another. */
  function ExampleSum(body: Bytes): string {
    if body == [1] then Repeat('a', HEX_DIGITS) else Repeat('b', HEX_DIGITS)
  }

  function ExampleKey(text: string): string {
    "key"
  }

  /** A proxy that verifies. */
  function ExampleConfig(codec: Codec): Config {
    Config(Serve, [], {}, [], [], 0, true, false, ExampleKey, ExampleSum, ExampleSum, codec)
  }

  function ExampleRequest(): Request {
    Request("GET", true,
            Url("https", "registry", "", Digest.Join(Digest.PiecesOf(["library", "app"], "blobs", Repeat('a', HEX_DIGITS))), ""),
            map[], None)
  }

  /** A recorded blob whose body matches its URL, read offline with the body breaking off at
      once: the request goes upstream. */
  lemma BrokenReadGoesUpstream(codec: Codec, meta: EntryMeta, now: nat)
    requires codec.RoundTrips()
    ensures var cfg, req := ExampleConfig(codec), ExampleRequest();
            var objects := map[MetaName("key") := codec.encode(meta), BodyName("key") := [1]];
            && BodyMatches(cfg, req, [1])
            && Rule(AsOffline(cfg), objects, req, now, NO_FAULTS).decision.Reply?
            && Rule(AsOffline(cfg), objects, req, now, NO_FAULTS.(cutBody := Some(0))).decision.Forward?
  {
    var cfg, req := ExampleConfig(codec), ExampleRequest();
    var objects: Objects := map[MetaName("key") := codec.encode(meta), BodyName("key") := [1]];
    ExampleIsPinned(codec);
    assert codec.decode(codec.encode(meta)) == Some(meta);
    assert Lookup(codec, objects, "key", NO_FAULTS) == Hit(meta, [1]);
    assert Lookup(codec, objects, "key", NO_FAULTS.(cutBody := Some(0))) == Hit(meta, []);
    OfflineForwardsIff(AsOffline(cfg), objects, req, now, NO_FAULTS);
    OfflineForwardsIff(AsOffline(cfg), objects, req, now, NO_FAULTS.(cutBody := Some(0)));
  }

  lemma ExampleIsPinned(codec: Codec)
    ensures var cfg, req := ExampleConfig(codec), ExampleRequest();
            IsLookedUp(cfg, req) && IsVerified(cfg, req) && BodyMatches(cfg, req, [1]) && !BodyMatches(cfg, req, [])
  {
    var names, a, b := ["library", "app"], Repeat('a', HEX_DIGITS), Repeat('b', HEX_DIGITS);
    assert Digest.AreParts(names, "blobs", a);
    Digest.MatchedIsExtracted(ExampleRequest().url.path, names, "blobs", a);
    assert FoldAll(a) == a && FoldAll(b)[0] == 'b';
  }
}
