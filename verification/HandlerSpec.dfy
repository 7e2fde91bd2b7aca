/** The proxy's decisions as functions: what to do with a request given what the cache
    holds, and what to do with the response that comes back from upstream. */
module HandlerSpec {
  import opened Common
  import opened Http
  import opened CacheSpec
  import Digest
  import CacheKey

  datatype Mode = Serve | Record | Offline

  type Pattern = string -> bool

  /** `keyHash` is the hash of the canonical key text, `bodySum` the raw and `hexSum` the
      hexadecimal digest of a body. An empty method set admits every method. */
  datatype Config = Config(
    mode: Mode, keyHeaders: seq<string>, methods: set<string>,
    excludes: seq<Pattern>, revalidates: seq<Pattern>, interval: int,
    verify: bool, passthrough: bool,
    keyHash: string -> string, bodySum: Bytes -> string, hexSum: Bytes -> string, codec: Codec)

  function KeyOf(cfg: Config, req: Request): string {
    cfg.keyHash(CacheKey.KeyText(cfg.bodySum, req, cfg.keyHeaders))
  }

  predicate AnyMatch(patterns: seq<Pattern>, text: string) {
    exists i :: 0 <= i < |patterns| && patterns[i](text)
  }

  datatype Bypass = NoBypass | BypassMethod | BypassExclude

  function BypassOf(cfg: Config, req: Request): Bypass {
    if cfg.methods != {} && req.verb !in cfg.methods then BypassMethod
    else if AnyMatch(cfg.excludes, NormalizeMatchUrl(req.url)) then BypassExclude
    else NoBypass
  }

  predicate NeedsRevalidation(cfg: Config, url: string, meta: EntryMeta, now: nat) {
    cfg.interval > 0 && AnyMatch(cfg.revalidates, url) && now - meta.cachedAt >= cfg.interval
  }

  /** The URL pins its content, so the body is checked: never for a HEAD, which has none. */
  predicate IsVerified(cfg: Config, req: Request) {
    cfg.verify && req.verb != HEAD && Digest.ExtractOCIDigest(req.url.path) != ""
  }

  predicate BodyMatches(cfg: Config, req: Request, body: Bytes) {
    Digest.VerifyDigest(cfg.hexSum, body, Digest.ExtractOCIDigest(req.url.path))
  }

  predicate IsSuccess(status: int) {
    200 <= status < 300
  }

  predicate IsCacheable(status: int) {
    200 <= status < 400
  }

  // ---- metrics ----

  datatype CacheOutcome = WasHit | WasMiss | WasBypass | WasRecorded

  datatype Event =
    | Requested(verb: string, status: int, outcome: CacheOutcome)
    | CacheHit(bytes: nat)
    | CacheMiss
    | UpstreamError
    | DigestMismatch(onHit: bool)

  // ---- responses the proxy builds ----

  /** A plain-text page of the proxy library. */
  function Page(status: int, text: string): Response {
    Response(status, map["Content-Type" := ["text/plain"]], Text(text), false, |Text(text)|)
  }

  const BAD_GATEWAY := 502

  function BypassPage(bypass: Bypass): Response {
    var reason := if bypass.BypassMethod? then "method" else "exclude_pattern";
    Page(BAD_GATEWAY, "escrow-proxy: request bypasses cache (" + reason + ") and offline mode forbids upstream")
  }

  /** A cached entry as a response. A HEAD keeps the length its origin sent; any other
      method gets the length of the body served. */
  function BuildResponse(req: Request, meta: EntryMeta, body: Bytes): Response {
    if req.verb == HEAD then
      Response(meta.statusCode, HeaderDel(meta.header, TRANSFER_ENCODING), body, false,
               match ParseInt64(HeaderGet(meta.header, CONTENT_LENGTH)) case Some(n) => n case None => -1)
    else
      Response(meta.statusCode,
               HeaderDel(HeaderSet(meta.header, CONTENT_LENGTH, Decimal(|body|)), TRANSFER_ENCODING),
               body, false, |body|)
  }

  /** A response re-served from the bytes read of it. */
  function Buffered(resp: Response, body: Bytes): Response {
    Response(resp.status, HeaderDel(HeaderSet(resp.header, CONTENT_LENGTH, Decimal(|body|)), TRANSFER_ENCODING),
             body, false, |body|)
  }

  // ---- the request half ----

  datatype Fallback = Fallback(meta: EntryMeta, body: Bytes)

  datatype ReqState = ReqState(key: string, fallback: Option<Fallback>)

  datatype Decision = Reply(resp: Response) | Forward(state: Option<ReqState>)

  /** What a request leads to; `evicts` says that the cached entry is deleted. */
  datatype Ruling = Ruling(decision: Decision, evicts: bool, events: seq<Event>)

  /** HandleRequest, given what the cache lookup returned. The lookup only matters for a
      request with a parsed URL that is not bypassed. */
  function OnRequest(cfg: Config, req: Request, found: GetOutcome, now: nat): Ruling {
    if !req.parsed then Ruling(Forward(None), false, [])
    else if BypassOf(cfg, req) != NoBypass then
      if cfg.mode.Offline? then
        Ruling(Reply(BypassPage(BypassOf(cfg, req))), false, [Requested(req.verb, BAD_GATEWAY, WasBypass)])
      else Ruling(Forward(None), false, [Requested(req.verb, 0, WasBypass)])
    else
      var state := ReqState(KeyOf(cfg, req), None);
      match found
      case Hit(meta, body) =>
        if IsVerified(cfg, req) && !BodyMatches(cfg, req, body) then
          Ruling(Forward(Some(state)), true, [DigestMismatch(true)])
        else if !cfg.mode.Offline? && NeedsRevalidation(cfg, RenderUrl(req.url), meta, now) then
          Ruling(Forward(Some(state.(fallback := Some(Fallback(meta, body))))), false, [])
        else
          var resp := BuildResponse(req, meta, body);
          Ruling(Reply(resp), false, [CacheHit(|body|), Requested(req.verb, resp.status, WasHit)])
      case _ =>
        if cfg.mode.Offline? then
          Ruling(Reply(Page(BAD_GATEWAY, "escrow-proxy: cache miss in offline mode for " + RenderUrl(req.url))),
                 false, [CacheMiss, Requested(req.verb, BAD_GATEWAY, WasMiss)])
        else Ruling(Forward(Some(state)), false, [CacheMiss])
  }

  /** HandleRequest against a storage. */
  function Rule(cfg: Config, objects: Objects, req: Request, now: nat, f: Faults): Ruling {
    OnRequest(cfg, req, Lookup(cfg.codec, objects, KeyOf(cfg, req), f), now)
  }

  /** What was found, and when, matters only for a hit of a request that is looked up. */
  lemma OnlyAHitMatters(cfg: Config, objects: Objects, req: Request, now: nat, f: Faults)
    ensures !(IsLookedUp(cfg, req) && Lookup(cfg.codec, objects, KeyOf(cfg, req), f).Hit?) ==>
              Rule(cfg, objects, req, now, f) == OnRequest(cfg, req, Absent, 0)
  {
  }

  // ---- the transport ----

  /** What upstream does with a forwarded request, redirects already followed. */
  datatype Upstream = Answers(resp: Response) | Fails(message: string)

  const MARKER := "X-Escrow-Proxy-Upstream-Error"

  /** The transport never fails: an error becomes a marked 502. */
  function RoundTrip(up: Upstream): (Response, seq<Event>) {
    match up
    case Answers(resp) => (resp, [])
    case Fails(message) =>
      var page := Page(BAD_GATEWAY, "escrow-proxy: upstream request failed: " + message);
      (page.(header := HeaderSet(page.header, MARKER, "1")), [UpstreamError])
  }

  predicate IsMarked(resp: Response) {
    HeaderGet(resp.header, MARKER) != ""
  }

  // ---- the response half ----

  datatype Effect = Leave | Evict | Store(meta: EntryMeta, body: Bytes)

  datatype Handling = Handling(reply: Option<Response>, effect: Effect, events: seq<Event>)

  function ServeFallback(req: Request, fallback: Fallback, events: seq<Event>): Handling {
    var resp := BuildResponse(req, fallback.meta, fallback.body);
    Handling(Some(resp), Leave, events + [Requested(req.verb, resp.status, WasHit)])
  }

  /** The response is handed on without touching the cache. */
  function PassOn(req: Request, resp: Response, events: seq<Event>, outcome: CacheOutcome): Handling {
    Handling(Some(resp), Leave, events + [Requested(req.verb, resp.status, outcome)])
  }

  predicate HasPositiveLength(header: Header) {
    match ParseInt64(HeaderGet(header, CONTENT_LENGTH))
    case Some(n) => n > 0
    case None => false
  }

  /** HandleResponse. A HEAD's body was read to its end and is not put back. */
  function OnResponse(cfg: Config, req: Request, state: Option<ReqState>, answer: Option<Response>, now: nat): Handling {
    if state.None? then Handling(answer, Leave, [])
    else if answer.None? then
      if state.value.fallback.Some? then ServeFallback(req, state.value.fallback.value, [])
      else Handling(None, Leave, [])
    else
      var marked := IsMarked(answer.value);
      var resp := if marked then answer.value.(header := HeaderDel(answer.value.header, MARKER)) else answer.value;
      var events := if resp.status >= 500 && !marked then [UpstreamError] else [];
      OnAnswer(cfg, req, state.value, resp, now, events)
  }

  function OutcomeOf(cfg: Config): CacheOutcome {
    if cfg.mode.Record? then WasRecorded else WasMiss
  }

  /** An answer with the marker removed: which statuses and bodies lead to the stale copy,
      to the client as they are, or on to verification. */
  function OnAnswer(cfg: Config, req: Request, state: ReqState, resp: Response, now: nat, events: seq<Event>): Handling {
    if state.fallback.Some? && !IsSuccess(resp.status) then ServeFallback(req, state.fallback.value, events)
    else if !IsCacheable(resp.status) then PassOn(req, resp, events, OutcomeOf(cfg))
    else if resp.truncated then
      if state.fallback.Some? then ServeFallback(req, state.fallback.value, events)
      else PassOn(req, Buffered(resp, resp.body), events, OutcomeOf(cfg))
    else OnBody(cfg, req, resp, OutcomeOf(cfg), now, events)
  }

  /** A cacheable response whose body was read in full: verified if the URL pins it,
      then cached, except for a HEAD without a usable length. */
  function OnBody(cfg: Config, req: Request, resp: Response, outcome: CacheOutcome, now: nat, events: seq<Event>): Handling {
    if IsVerified(cfg, req) && !BodyMatches(cfg, req, resp.body) then
      var reply := if cfg.passthrough then resp
                   else Page(BAD_GATEWAY, "escrow-proxy: response body digest mismatch for " + RenderUrl(req.url));
      Handling(Some(reply), Evict, events + [DigestMismatch(false), Requested(req.verb, reply.status, outcome)])
    else
      var served := if req.verb == HEAD then resp.(body := []) else resp;
      if req.verb == HEAD && !HasPositiveLength(resp.header) then PassOn(req, served, events, outcome)
      else
        var meta := EntryMeta(req.verb, RenderUrl(req.url), resp.status, resp.header, now);
        Handling(Some(served), Store(meta, resp.body), events + [Requested(req.verb, served.status, outcome)])
  }

  // ---- effects on storage ----

  function AfterRuling(objects: Objects, key: string, r: Ruling, f: Faults): Objects {
    if r.evicts then Erased(objects, key, f) else objects
  }

  function AfterEffect(cfg: Config, objects: Objects, key: string, effect: Effect, f: Faults): Objects {
    match effect
    case Leave => objects
    case Evict => Erased(objects, key, f)
    case Store(meta, body) => Stored(cfg.codec, objects, key, meta, body, f)
  }

  /** The request consults the cache. */
  predicate IsLookedUp(cfg: Config, req: Request) {
    req.parsed && BypassOf(cfg, req) == NoBypass
  }

  /** The index right after the lookup of a request; without one it is left alone. */
  function IndexLookedUp(cfg: Config, ix: IndexState, objects: Objects, req: Request, now: nat, f: Faults): IndexState {
    if IsLookedUp(cfg, req)
    then IndexAfterGet(ix, objects, KeyOf(cfg, req), Lookup(cfg.codec, objects, KeyOf(cfg, req), f), now, f)
    else ix
  }

  function IndexAfterRuling(looked: IndexState, objects: Objects, key: string, r: Ruling, seen: Faults): IndexState {
    if r.evicts then IndexAfterDelete(looked, key, EraseOutcome(objects, key, seen), seen) else looked
  }

  function IndexAfterEffect(ix: IndexState, objects: Objects, key: string, effect: Effect, now: nat, seen: Faults): IndexState {
    match effect
    case Leave => ix
    case Evict => IndexAfterDelete(ix, key, EraseOutcome(objects, key, seen), seen)
    case Store(meta, body) => IndexAfterPut(ix, key, meta, body, now, seen)
  }

  // ---- the books ----

  /** Everything the handlers keep besides the context of a request. */
  datatype Books = Books(log: seq<Event>, objects: Objects, recorded: seq<string>, ix: Option<IndexState>)

  /** The books right after the lookup of a request. */
  function BooksLookedUp(cfg: Config, b: Books, req: Request, now: nat, f: Faults): Books {
    b.(ix := if b.ix.Some? then Some(IndexLookedUp(cfg, b.ix.value, b.objects, req, now, f)) else None)
  }

  function BooksAfterRuling(b: Books, key: string, r: Ruling, seen: Faults): Books {
    Books(b.log + r.events, AfterRuling(b.objects, key, r, seen), b.recorded,
          if b.ix.Some? then Some(IndexAfterRuling(b.ix.value, b.objects, key, r, seen)) else None)
  }

  /** `logs` are the names a recording storage logs for a Put. */
  function BooksAfterHandling(cfg: Config, b: Books, key: string, h: Handling, now: nat, seen: Faults, logs: seq<string>): Books {
    Books(b.log + h.events, AfterEffect(cfg, b.objects, key, h.effect, seen),
          if h.effect.Store? then b.recorded + logs else b.recorded,
          if b.ix.Some? then Some(IndexAfterEffect(b.ix.value, b.objects, key, h.effect, now, seen)) else None)
  }

  // ---- lengths ----

  /** The length a response announces is the length of its body, and no chunked framing
      is left over from the origin. */
  predicate LengthIsTruthful(resp: Response) {
    && resp.contentLength == |resp.body| && !resp.truncated
    && ParseInt64(HeaderGet(resp.header, CONTENT_LENGTH)) == Some(|resp.body|)
    && HeaderValues(resp.header, TRANSFER_ENCODING) == []
  }

  lemma PinnedLength(header: Header, n: nat)
    requires n <= 0x7fff_ffff_ffff_ffff
    ensures var h := HeaderDel(HeaderSet(header, CONTENT_LENGTH, Decimal(n)), TRANSFER_ENCODING);
            ParseInt64(HeaderGet(h, CONTENT_LENGTH)) == Some(n) && HeaderValues(h, TRANSFER_ENCODING) == []
  {
    DecimalParses(n);
    assert Canonical(CONTENT_LENGTH)[0] != Canonical(TRANSFER_ENCODING)[0];
  }

  /** Whatever is served from a buffer states its true length; a HEAD states the length
      its origin stated, or that it is unknown, and never a length of zero in its place
      (sections 8.6 and 9.3.2 of RFC 9110). */
  lemma BufferedLengths(req: Request, meta: EntryMeta, body: Bytes, resp: Response)
    requires |body| <= 0x7fff_ffff_ffff_ffff
    ensures req.verb != HEAD ==> LengthIsTruthful(BuildResponse(req, meta, body))
    ensures LengthIsTruthful(Buffered(resp, body))
    ensures req.verb == HEAD ==>
              var served := BuildResponse(req, meta, body);
              && HeaderGet(served.header, CONTENT_LENGTH) == HeaderGet(meta.header, CONTENT_LENGTH)
              && match ParseInt64(HeaderGet(meta.header, CONTENT_LENGTH))
                 case Some(n) => served.contentLength == n
                 case None => served.contentLength == -1
  {
    PinnedLength(meta.header, |body|);
    PinnedLength(resp.header, |body|);
    assert Canonical(CONTENT_LENGTH)[0] != Canonical(TRANSFER_ENCODING)[0];
  }

  // ---- ports ----

  /** The request the proxy library rebuilds when it intercepts TLS names the default port. */
  function WithPort(req: Request, port: string): Request {
    req.(url := req.url.(port := port))
  }

  /** Exclude patterns cannot tell whether the default port was spelled out. */
  lemma BypassIgnoresDefaultPort(cfg: Config, req: Request)
    requires req.url.port == ""
    ensures req.url.scheme == "https" ==> BypassOf(cfg, WithPort(req, "443")) == BypassOf(cfg, req)
    ensures req.url.scheme == "http" ==> BypassOf(cfg, WithPort(req, "80")) == BypassOf(cfg, req)
  {
    DefaultPortIsInvisible(req.url);
  }

  /** Revalidate patterns can: they are matched against the URL as it stands. Spelling out
      a port makes no difference to any entry at any time exactly when revalidation is off
      or the patterns match both spellings or neither. */
  lemma RevalidationIgnoresPortIff(cfg: Config, req: Request, port: string)
    ensures var plain, spelled := RenderUrl(req.url), RenderUrl(WithPort(req, port).url);
            (forall meta, now :: NeedsRevalidation(cfg, spelled, meta, now) == NeedsRevalidation(cfg, plain, meta, now))
            <==> cfg.interval <= 0 || (AnyMatch(cfg.revalidates, spelled) <==> AnyMatch(cfg.revalidates, plain))
  {
    if cfg.interval > 0 {
      var plain, spelled := RenderUrl(req.url), RenderUrl(WithPort(req, port).url);
      var stale := EntryMeta("", "", 0, map[], 0);
      assert NeedsRevalidation(cfg, plain, stale, cfg.interval) <==> AnyMatch(cfg.revalidates, plain);
      assert NeedsRevalidation(cfg, spelled, stale, cfg.interval) <==> AnyMatch(cfg.revalidates, spelled);
    }
  }

  /** A pattern for the plain https URL misses the intercepted one, so its stale entry is
      served although the pattern names it. */
  lemma RevalidationSeesDefaultPort(cfg: Config, req: Request, meta: EntryMeta, now: nat)
    requires req.url.scheme == "https" && req.url.port == ""
    requires cfg.interval > 0 && now - meta.cachedAt >= cfg.interval
    ensures var plain := RenderUrl(req.url);
            var anchored := cfg.(revalidates := [text => text == plain]);
            && NeedsRevalidation(anchored, plain, meta, now)
            && !NeedsRevalidation(anchored, RenderUrl(WithPort(req, "443").url), meta, now)
  {
    var plain, spelled := RenderUrl(req.url), RenderUrl(WithPort(req, "443").url);
    var only: Pattern := text => text == plain;
    assert [only][0](plain);
    assert |spelled| == |plain| + 4;
  }
}
