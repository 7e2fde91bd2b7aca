/** Requests, responses, URLs and headers as the proxy sees them. */
module Http {
  import opened Common
  import opened SqlLike

  // ---- URLs ----

  datatype Url = Url(scheme: string, host: string, port: string, path: string, query: string)

  function RenderHost(u: Url): string {
    u.host + (if u.port == "" then "" else ":" + u.port)
  }

  function RenderTail(u: Url): string {
    u.path + (if u.query == "" then "" else "?" + u.query)
  }

  function RenderUrl(u: Url): string {
    u.scheme + ("://" + (RenderHost(u) + RenderTail(u)))
  }

  predicate Free(s: string, stops: set<char>) {
    forall i :: 0 <= i < |s| ==> s[i] !in stops
  }

  /** What parsing guarantees of the parts of a URL. */
  predicate WellFormedUrl(u: Url) {
    && Free(u.scheme, {':'}) && Free(u.host, {':', '/', '?'}) && Free(u.port, {'/', '?'})
    && (u.path == "" || u.path[0] == '/') && Free(u.path, {'?'})
  }

  predicate StopsAt(s: string, stops: set<char>) {
    s == "" || s[0] in stops
  }

  /** A text cut at its first stop character is cut in one way only. */
  lemma {:induction false} OneCut(a: string, x: string, b: string, y: string, stops: set<char>)
    requires a + x == b + y
    requires Free(a, stops) && Free(b, stops) && StopsAt(x, stops) && StopsAt(y, stops)
    ensures a == b && x == y
    decreases |a|
  {
    assert a != "" ==> (a + x)[0] == a[0];
    assert b != "" ==> (b + y)[0] == b[0];
    assert a == "" ==> a + x == x;
    assert b == "" ==> b + y == y;
    if a != "" && b != "" {
      assert (a + x)[1..] == a[1..] + x && (b + y)[1..] == b[1..] + y;
      OneCut(a[1..], x, b[1..], y, stops);
      assert a == [a[0]] + a[1..] && b == [b[0]] + b[1..];
    }
  }

  /** The text of a URL determines all its parts. */
  lemma UrlTextIsFaithful(u: Url, v: Url)
    requires WellFormedUrl(u) && WellFormedUrl(v) && RenderUrl(u) == RenderUrl(v)
    ensures u == v
  {
    var a, b := RenderHost(u) + RenderTail(u), RenderHost(v) + RenderTail(v);
    OneCut(u.scheme, "://" + a, v.scheme, "://" + b, {':'});
    assert a == ("://" + a)[3..] && b == ("://" + b)[3..];
    HostFree(u);
    HostFree(v);
    OneCut(RenderHost(u), RenderTail(u), RenderHost(v), RenderTail(v), {'/', '?'});
    var p, q := if u.port == "" then "" else ":" + u.port, if v.port == "" then "" else ":" + v.port;
    OneCut(u.host, p, v.host, q, {':'});
    if p != "" { assert u.port == p[1..] && v.port == q[1..]; }
    var s, t := if u.query == "" then "" else "?" + u.query, if v.query == "" then "" else "?" + v.query;
    OneCut(u.path, s, v.path, t, {'?'});
    if s != "" { assert u.query == s[1..] && v.query == t[1..]; }
  }

  lemma HostFree(u: Url)
    requires WellFormedUrl(u)
    ensures Free(RenderHost(u), {'/', '?'}) && StopsAt(RenderTail(u), {'/', '?'})
  {
  }

  /** The URL as exclude patterns see it: an explicit default port is elided. */
  function NormalizeMatchUrl(u: Url): string {
    if (u.scheme == "https" && u.port == "443") || (u.scheme == "http" && u.port == "80")
    then RenderUrl(u.(port := ""))
    else RenderUrl(u)
  }

  /** Spelling out the default port changes nothing for an exclude pattern. */
  lemma DefaultPortIsInvisible(u: Url)
    requires u.port == ""
    ensures u.scheme == "https" ==> NormalizeMatchUrl(u.(port := "443")) == NormalizeMatchUrl(u)
    ensures u.scheme == "http" ==> NormalizeMatchUrl(u.(port := "80")) == NormalizeMatchUrl(u)
  {
    assert u.(port := "443").(port := "") == u && u.(port := "80").(port := "") == u;
  }

  // ---- headers ----

  function Upper(c: char): char {
    if 'a' <= c <= 'z' then (c as int - 32) as char else c
  }

  /** The canonical spelling of a header name: first letters upper, the rest lower case. */
  function Canonical(name: string): string {
    seq(|name|, i requires 0 <= i < |name| =>
      if i == 0 || name[i - 1] == '-' then Upper(name[i]) else Fold(name[i]))
  }

  function HeaderValues(h: Header, name: string): seq<string> {
    if Canonical(name) in h then h[Canonical(name)] else []
  }

  /** The first value of a header, or the empty string. */
  function HeaderGet(h: Header, name: string): string {
    var values := HeaderValues(h, name);
    if values == [] then "" else values[0]
  }

  function HeaderSet(h: Header, name: string, value: string): Header {
    h[Canonical(name) := [value]]
  }

  function HeaderDel(h: Header, name: string): Header {
    h - {Canonical(name)}
  }

  // ---- decimal numbers ----

  predicate IsDigit(c: char) {
    '0' <= c <= '9'
  }

  function Digits(s: string): (n: nat)
    requires forall i :: 0 <= i < |s| ==> IsDigit(s[i])
  {
    if s == "" then 0
    else
      assert IsDigit(s[|s| - 1]);
      Digits(s[..|s| - 1]) * 10 + (s[|s| - 1] as int - '0' as int)
  }

  /** A base-10 64-bit integer with an optional sign; anything else is an error. */
  function ParseInt64(s: string): Option<int> {
    var signed := s != "" && (s[0] == '-' || s[0] == '+');
    var digits := if signed then s[1..] else s;
    if digits == "" || exists i :: 0 <= i < |digits| && !IsDigit(digits[i]) then None
    else
      var size: int := Digits(digits);
      var n := if s[0] == '-' then -size else size;
      if -0x8000_0000_0000_0000 <= n <= 0x7fff_ffff_ffff_ffff then Some(n) else None
  }

  /** The decimal text of a length. */
  function Decimal(n: nat): string {
    if n < 10 then [('0' as int + n) as char] else Decimal(n / 10) + [('0' as int + n % 10) as char]
  }

  /** Writing a length and parsing it gives the length back. */
  lemma {:induction false} DecimalDigits(n: nat)
    ensures Decimal(n) != "" && (forall i :: 0 <= i < |Decimal(n)| ==> IsDigit(Decimal(n)[i]))
    ensures Digits(Decimal(n)) == n
    decreases n
  {
    if n < 10 {
      assert Decimal(n)[..0] == "";
    } else {
      DecimalDigits(n / 10);
      assert Decimal(n)[..|Decimal(n)| - 1] == Decimal(n / 10);
    }
  }

  lemma DecimalParses(n: nat)
    requires n <= 0x7fff_ffff_ffff_ffff
    ensures ParseInt64(Decimal(n)) == Some(n)
  {
    DecimalDigits(n);
    assert IsDigit(Decimal(n)[0]);
  }

  // ---- messages ----

  /** `parsed` is false when the proxy library could not parse the request's URL. */
  datatype Request = Request(verb: string, parsed: bool, url: Url, header: Header, body: Option<Bytes>)

  /** `truncated` marks a body whose reading fails after the bytes in `body`;
      a content length of -1 means unknown. */
  datatype Response = Response(status: int, header: Header, body: Bytes, truncated: bool, contentLength: int)

  const HEAD := "HEAD"
  const CONTENT_LENGTH := "Content-Length"
  const TRANSFER_ENCODING := "Transfer-Encoding"
}
