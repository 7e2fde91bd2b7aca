/** The request and response handlers as the objects the proxy library calls. */
module HandlerObject {
  import opened Common
  import opened Http
  import opened CacheSpec
  import opened CacheObject
  import opened HandlerSpec
  import Digest
  import CacheKey

  /** The library's per-request context. A request body that breaks off stands in `req` for
      what it hands out. */
  class ProxyCtx {
    const req: Request
    const bodyBreaks: bool
    var userData: Option<ReqState>

    constructor (req: Request, bodyBreaks: bool)
      ensures this.req == req && this.bodyBreaks == bodyBreaks && userData == None
    {
      this.req, this.bodyBreaks, userData := req, bodyBreaks, None;
    }
  }

  class Metrics {
    var log: seq<Event>

    constructor ()
      ensures log == []
    {
      log := [];
    }

    method Record(e: Event)
      modifies this
      ensures log == old(log) + [e]
    {
      log := log + [e];
    }
  }

  class Handler {
    const cfg: Config
    const cache: Cache
    const metrics: Metrics

    constructor (cfg: Config, cache: Cache, metrics: Metrics)
      requires cache.codec == cfg.codec
      ensures this.cfg == cfg && this.cache == cache && this.metrics == metrics
    {
      this.cfg, this.cache, this.metrics := cfg, cache, metrics;
    }

    ghost function CurrentBooks(): Books
      reads metrics, cache.storage, cache.index
    {
      Books(metrics.log, cache.storage.objects, cache.storage.recorded, cache.IndexIfAny())
    }

    /** The books after a request ruled on, given those right after its lookup. */
    function Ruled(looked: Books, req: Request, r: Ruling, f: Faults): Books {
      BooksAfterRuling(looked, KeyOf(cfg, req), r, Seen(cache.storage.readOnly, f))
    }

    /** The books after a response was handled. */
    function Handled(before: Books, req: Request, h: Handling, now: nat, f: Faults): Books {
      var key, seen := KeyOf(cfg, req), Seen(cache.storage.readOnly, f);
      BooksAfterHandling(cfg, before, key, h, now, seen, RecordedBy(cache.storage.recording, key, seen))
    }

    method ComputeKey(ctx: ProxyCtx) returns (key: string)
      ensures key == KeyOf(cfg, ctx.req)
    {
      var consumed := new CacheKey.RequestObject(ctx.req, ctx.bodyBreaks);
      var text := CacheKey.ComputeCacheKey(consumed, cfg.keyHeaders, cfg.bodySum);
      key := cfg.keyHash(text);
    }

    /** A response answers the client; none lets the library go upstream. */
    method HandleRequest(ctx: ProxyCtx, now: nat, f: Faults) returns (resp: Option<Response>)
      requires ctx.userData == None && cache.codec == cfg.codec
      modifies ctx, cache.storage, cache.index, metrics
      ensures Decided(Rule(cfg, old(cache.storage.objects), ctx.req, now, f), resp, ctx.userData)
      ensures CurrentBooks() == Ruled(BooksLookedUp(cfg, old(CurrentBooks()), ctx.req, now, f), ctx.req,
                               Rule(cfg, old(cache.storage.objects), ctx.req, now, f), f)
    {
      if !ctx.req.parsed || BypassOf(cfg, ctx.req) != NoBypass {
        OnlyAHitMatters(cfg, cache.storage.objects, ctx.req, now, f);
        resp := SkipCache(ctx, f);
      } else {
        resp := Consult(ctx, now, f);
      }
    }

    /** An unparsed URL is left to the library; a bypassed request goes upstream, or is
        refused offline. */
    method SkipCache(ctx: ProxyCtx, ghost f: Faults) returns (resp: Option<Response>)
      requires ctx.userData == None && !IsLookedUp(cfg, ctx.req)
      modifies metrics
      ensures Decided(OnRequest(cfg, ctx.req, Absent, 0), resp, ctx.userData)
      ensures CurrentBooks() == Ruled(old(CurrentBooks()), ctx.req, OnRequest(cfg, ctx.req, Absent, 0), f)
    {
      if !ctx.req.parsed {
        return None;
      }
      if cfg.mode.Offline? {
        metrics.Record(Requested(ctx.req.verb, BAD_GATEWAY, WasBypass));
        return Some(BypassPage(BypassOf(cfg, ctx.req)));
      }
      metrics.Record(Requested(ctx.req.verb, 0, WasBypass));
      return None;
    }

    method Consult(ctx: ProxyCtx, now: nat, f: Faults) returns (resp: Option<Response>)
      requires ctx.userData == None && cache.codec == cfg.codec && IsLookedUp(cfg, ctx.req)
      modifies ctx, cache.storage, cache.index, metrics
      ensures Decided(Rule(cfg, old(cache.storage.objects), ctx.req, now, f), resp, ctx.userData)
      ensures CurrentBooks() == Ruled(BooksLookedUp(cfg, old(CurrentBooks()), ctx.req, now, f), ctx.req,
                               Rule(cfg, old(cache.storage.objects), ctx.req, now, f), f)
    {
      var found := LookUp(ctx, now, f);
      if found.Hit? {
        resp := OnHit(ctx, found.meta, found.body, now, f);
      } else {
        OnlyAHitMatters(cfg, cache.storage.objects, ctx.req, now, f);
        resp := OnMiss(ctx, f);
      }
    }

    /** The key is computed once and kept in the context. */
    method LookUp(ctx: ProxyCtx, now: nat, f: Faults) returns (found: GetOutcome)
      requires cache.codec == cfg.codec && IsLookedUp(cfg, ctx.req)
      modifies ctx, cache.index
      ensures ctx.userData == Some(ReqState(KeyOf(cfg, ctx.req), None))
      ensures found == Lookup(cfg.codec, cache.storage.objects, KeyOf(cfg, ctx.req), f)
      ensures CurrentBooks() == BooksLookedUp(cfg, old(CurrentBooks()), ctx.req, now, f)
    {
      var key := ComputeKey(ctx);
      ctx.userData := Some(ReqState(key, None));
      found := cache.Get(key, now, f);
    }

    /** `body` is what the cached body handed out, whole or not. */
    method OnHit(ctx: ProxyCtx, meta: EntryMeta, body: Bytes, now: nat, f: Faults) returns (resp: Option<Response>)
      requires ctx.userData == Some(ReqState(KeyOf(cfg, ctx.req), None)) && IsLookedUp(cfg, ctx.req)
      modifies ctx, cache.storage, cache.index, metrics
      ensures Decided(OnRequest(cfg, ctx.req, Hit(meta, body), now), resp, ctx.userData)
      ensures CurrentBooks() == Ruled(old(CurrentBooks()), ctx.req, OnRequest(cfg, ctx.req, Hit(meta, body), now), f)
    {
      var req := ctx.req;
      ghost var ruling := OnRequest(cfg, req, Hit(meta, body), now);
      if cfg.verify && req.verb != HEAD {
        var digest := Digest.ExtractOCIDigest(req.url.path);
        if digest != "" && !Digest.VerifyDigest(cfg.hexSum, body, digest) {
          assert ruling == Ruling(Forward(ctx.userData), true, [DigestMismatch(true)]);
          EvictMismatch(ctx, true, f);
          return None;
        }
      }
      if !cfg.mode.Offline? && NeedsRevalidation(cfg, RenderUrl(req.url), meta, now) {
        ctx.userData := Some(ctx.userData.value.(fallback := Some(Fallback(meta, body))));
        return None;
      }
      resp := ServeHit(ctx, meta, body, now, f);
    }

    /** The entry of a body that does not match its URL's digest is counted and deleted;
        what the deletion answers is ignored. */
    method EvictMismatch(ctx: ProxyCtx, onHit: bool, f: Faults)
      requires ctx.userData.Some? && ctx.userData.value.key == KeyOf(cfg, ctx.req)
      modifies cache.storage, cache.index, metrics
      ensures CurrentBooks() == Ruled(old(CurrentBooks()), ctx.req, Ruling(Forward(None), true, [DigestMismatch(onHit)]), f)
    {
      metrics.Record(DigestMismatch(onHit));
      SeenWrites(cache.storage.readOnly, f);
      var _ := cache.Delete(ctx.userData.value.key, f);
    }

    method ServeHit(ctx: ProxyCtx, meta: EntryMeta, body: Bytes, ghost now: nat, ghost f: Faults) returns (resp: Option<Response>)
      requires IsLookedUp(cfg, ctx.req)
      requires IsVerified(cfg, ctx.req) ==> BodyMatches(cfg, ctx.req, body)
      requires cfg.mode.Offline? || !NeedsRevalidation(cfg, RenderUrl(ctx.req.url), meta, now)
      modifies ctx, metrics
      ensures Decided(OnRequest(cfg, ctx.req, Hit(meta, body), now), resp, ctx.userData)
      ensures CurrentBooks() == Ruled(old(CurrentBooks()), ctx.req, OnRequest(cfg, ctx.req, Hit(meta, body), now), f)
    {
      metrics.Record(CacheHit(|body|));
      var built := BuildResponse(ctx.req, meta, body);
      metrics.Record(Requested(ctx.req.verb, built.status, WasHit));
      ctx.userData := None;
      return Some(built);
    }

    method OnMiss(ctx: ProxyCtx, ghost f: Faults) returns (resp: Option<Response>)
      requires ctx.userData == Some(ReqState(KeyOf(cfg, ctx.req), None)) && IsLookedUp(cfg, ctx.req)
      modifies ctx, metrics
      ensures Decided(OnRequest(cfg, ctx.req, Absent, 0), resp, ctx.userData)
      ensures CurrentBooks() == Ruled(old(CurrentBooks()), ctx.req, OnRequest(cfg, ctx.req, Absent, 0), f)
    {
      metrics.Record(CacheMiss);
      if cfg.mode.Offline? {
        metrics.Record(Requested(ctx.req.verb, BAD_GATEWAY, WasMiss));
        ctx.userData := None;
        return Some(Page(BAD_GATEWAY, "escrow-proxy: cache miss in offline mode for " + RenderUrl(ctx.req.url)));
      }
      return None;
    }

    /** redirectFollower.RoundTrip: failures are counted and turned into a marked page. */
    method UpstreamRoundTrip(up: Upstream) returns (resp: Response)
      modifies metrics
      ensures resp == RoundTrip(up).0 && metrics.log == old(metrics.log) + RoundTrip(up).1
    {
      match up
      case Answers(answer) =>
        resp := answer;
      case Fails(message) =>
        metrics.Record(UpstreamError);
        resp := Page(BAD_GATEWAY, "escrow-proxy: upstream request failed: " + message);
        resp := resp.(header := HeaderSet(resp.header, MARKER, "1"));
    }

    method HandleResponse(answer: Option<Response>, ctx: ProxyCtx, now: nat, f: Faults) returns (reply: Option<Response>)
      requires cache.codec == cfg.codec
      requires ctx.userData.Some? ==> ctx.userData.value.key == KeyOf(cfg, ctx.req)
      modifies cache.storage, cache.index, metrics
      ensures reply == OnResponse(cfg, ctx.req, ctx.userData, answer, now).reply
      ensures CurrentBooks() == Handled(old(CurrentBooks()), ctx.req, OnResponse(cfg, ctx.req, ctx.userData, answer, now), now, f)
    {
      if ctx.userData.None? {
        return answer;
      }
      var state := ctx.userData.value;
      if answer.None? {
        if state.fallback.Some? {
          reply := AnswerStale(ctx, state.fallback.value);
          return;
        }
        return None;
      }
      var resp := answer.value;
      var marked := IsMarked(resp);
      if marked {
        resp := resp.(header := HeaderDel(resp.header, MARKER));
      }
      if resp.status >= 500 && !marked {
        metrics.Record(UpstreamError);
      }
      reply := HandleAnswer(ctx, resp, now, f);
    }

    /** An answer from upstream once its marker is stripped and its failure counted. */
    method HandleAnswer(ctx: ProxyCtx, resp: Response, now: nat, f: Faults) returns (reply: Option<Response>)
      requires cache.codec == cfg.codec && ctx.userData.Some? && ctx.userData.value.key == KeyOf(cfg, ctx.req)
      modifies cache.storage, cache.index, metrics
      ensures reply == OnAnswer(cfg, ctx.req, ctx.userData.value, resp, now, []).reply
      ensures CurrentBooks() == Handled(old(CurrentBooks()), ctx.req, OnAnswer(cfg, ctx.req, ctx.userData.value, resp, now, []), now, f)
    {
      var fallback := ctx.userData.value.fallback;
      if fallback.Some? && (resp.status < 200 || resp.status >= 300) {
        reply := AnswerStale(ctx, fallback.value);
        return;
      }
      var outcome := if cfg.mode.Record? then WasRecorded else WasMiss;
      if resp.status < 200 || resp.status >= 400 {
        metrics.Record(Requested(ctx.req.verb, resp.status, outcome));
        return Some(resp);
      }
      if resp.truncated {
        if fallback.Some? {
          reply := AnswerStale(ctx, fallback.value);
          return;
        }
        metrics.Record(Requested(ctx.req.verb, resp.status, outcome));
        return Some(Buffered(resp, resp.body));
      }
      reply := OnWholeBody(ctx, resp, outcome, now, f);
    }

    method AnswerStale(ctx: ProxyCtx, fallback: Fallback) returns (reply: Option<Response>)
      modifies metrics
      ensures reply == ServeFallback(ctx.req, fallback, []).reply
      ensures metrics.log == old(metrics.log) + ServeFallback(ctx.req, fallback, []).events
    {
      var resp := BuildResponse(ctx.req, fallback.meta, fallback.body);
      metrics.Record(Requested(ctx.req.verb, resp.status, WasHit));
      return Some(resp);
    }

    /** A cacheable response whose body was read in full: verify, then cache. */
    method OnWholeBody(ctx: ProxyCtx, resp: Response, outcome: CacheOutcome, now: nat, f: Faults)
      returns (reply: Option<Response>)
      requires cache.codec == cfg.codec && ctx.userData.Some? && ctx.userData.value.key == KeyOf(cfg, ctx.req)
      modifies cache.storage, cache.index, metrics
      ensures reply == OnBody(cfg, ctx.req, resp, outcome, now, []).reply
      ensures CurrentBooks() == Handled(old(CurrentBooks()), ctx.req, OnBody(cfg, ctx.req, resp, outcome, now, []), now, f)
    {
      var req := ctx.req;
      var key := ctx.userData.value.key;
      if cfg.verify && req.verb != HEAD {
        var digest := Digest.ExtractOCIDigest(req.url.path);
        if digest != "" && !Digest.VerifyDigest(cfg.hexSum, resp.body, digest) {
          EvictMismatch(ctx, false, f);
          var answer := if cfg.passthrough then resp
                        else Page(BAD_GATEWAY, "escrow-proxy: response body digest mismatch for " + RenderUrl(req.url));
          metrics.Record(Requested(req.verb, answer.status, outcome));
          return Some(answer);
        }
      }
      reply := CacheAndServe(ctx, resp, outcome, now, f);
    }

    method CacheAndServe(ctx: ProxyCtx, resp: Response, outcome: CacheOutcome, now: nat, f: Faults)
      returns (reply: Option<Response>)
      requires cache.codec == cfg.codec && ctx.userData.Some? && ctx.userData.value.key == KeyOf(cfg, ctx.req)
      requires IsVerified(cfg, ctx.req) ==> BodyMatches(cfg, ctx.req, resp.body)
      modifies cache.storage, cache.index, metrics
      ensures reply == OnBody(cfg, ctx.req, resp, outcome, now, []).reply
      ensures CurrentBooks() == Handled(old(CurrentBooks()), ctx.req, OnBody(cfg, ctx.req, resp, outcome, now, []), now, f)
    {
      var req := ctx.req;
      var served := if req.verb == HEAD then resp.(body := []) else resp;
      if req.verb == HEAD && !HasPositiveLength(resp.header) {
        metrics.Record(Requested(req.verb, resp.status, outcome));
        return Some(served);
      }
      var meta := EntryMeta(req.verb, RenderUrl(req.url), resp.status, resp.header, now);
      var _ := cache.Put(ctx.userData.value.key, meta, resp.body, now, f);
      metrics.Record(Requested(req.verb, resp.status, outcome));
      return Some(served);
    }
  }

  /** The library sees a ruling as a response or none, and the state left in the context. */
  predicate Decided(r: Ruling, resp: Option<Response>, userData: Option<ReqState>) {
    match r.decision
    case Reply(answer) => resp == Some(answer) && userData == None
    case Forward(state) => resp == None && userData == state
  }
}
