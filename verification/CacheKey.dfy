/** The cache key: a canonical text of method, URL, selected headers and body hash,
    hashed. The theorems are about the text. */
module CacheKey {
  import opened Common
  import opened SqlLike
  import opened Http

  // ---- sorting ----

  predicate LexLe(a: string, b: string) {
    a == "" || (b != "" && (a[0] < b[0] || (a[0] == b[0] && LexLe(a[1..], b[1..]))))
  }

  lemma {:induction false} LexTotal(a: string, b: string)
    ensures LexLe(a, b) || LexLe(b, a)
    ensures LexLe(a, b) && LexLe(b, a) ==> a == b
    decreases |a|
  {
    if a != "" && b != "" && a[0] == b[0] {
      LexTotal(a[1..], b[1..]);
      assert a == [a[0]] + a[1..] && b == [b[0]] + b[1..];
    }
  }

  lemma {:induction false} LexTransitive(a: string, b: string, c: string)
    requires LexLe(a, b) && LexLe(b, c)
    ensures LexLe(a, c)
    decreases |a|
  {
    if a != "" && a[0] == b[0] == c[0] {
      LexTransitive(a[1..], b[1..], c[1..]);
    }
  }

  function Insert(x: string, sorted: seq<string>): seq<string> {
    if sorted == [] then [x]
    else if LexLe(x, sorted[0]) then [x] + sorted
    else [sorted[0]] + Insert(x, sorted[1..])
  }

  function Sort(s: seq<string>): seq<string> {
    if s == [] then [] else Insert(s[0], Sort(s[1..]))
  }

  lemma {:induction false} InsertCommutes(x: string, y: string, s: seq<string>)
    ensures Insert(x, Insert(y, s)) == Insert(y, Insert(x, s))
    decreases |s|
  {
    LexTotal(x, y);
    if s != [] {
      LexTotal(x, s[0]);
      LexTotal(y, s[0]);
      if LexLe(x, y) && LexLe(y, s[0]) { LexTransitive(x, y, s[0]); }
      if LexLe(y, x) && LexLe(x, s[0]) { LexTransitive(y, x, s[0]); }
      InsertCommutes(x, y, s[1..]);
    }
  }

  /** Any element of a list may be sorted in last. */
  lemma {:induction false} SortPulls(s: seq<string>, i: nat)
    requires i < |s|
    ensures Sort(s) == Insert(s[i], Sort(s[..i] + s[i + 1..]))
    decreases |s|
  {
    var rest := s[..i] + s[i + 1..];
    if i == 0 {
      assert rest == s[1..];
    } else {
      SortPulls(s[1..], i - 1);
      assert s[1..][..i - 1] + s[1..][i..] == rest[1..] && rest[0] == s[0];
      InsertCommutes(s[0], s[i], Sort(rest[1..]));
    }
  }

  lemma RemoveOne(s: seq<string>, i: nat)
    requires i < |s|
    ensures multiset(s[..i] + s[i + 1..]) == multiset(s) - multiset{s[i]}
  {
    assert s == s[..i] + [s[i]] + s[i + 1..];
  }

  lemma RemoveFirst(s: seq<string>)
    requires s != []
    ensures multiset(s[1..]) == multiset(s) - multiset{s[0]}
  {
    assert s == [s[0]] + s[1..];
  }

  /** A rearrangement of a non-empty list holds its first element somewhere. */
  lemma FindFirst(a: seq<string>, b: seq<string>) returns (i: nat)
    requires multiset(a) == multiset(b) && a != []
    ensures i < |b| && b[i] == a[0]
  {
    assert a[0] in multiset(a);
    assert a[0] in b;
    i :| 0 <= i < |b| && b[i] == a[0];
  }

  lemma SameSize(a: seq<string>, b: seq<string>)
    requires multiset(a) == multiset(b)
    ensures |a| == |b|
  {
    assert |multiset(a)| == |a| && |multiset(b)| == |b|;
  }

  /** Sorting forgets the order it was given. */
  lemma {:induction false} SortIgnoresOrder(a: seq<string>, b: seq<string>)
    requires multiset(a) == multiset(b)
    ensures Sort(a) == Sort(b)
    decreases |a|
  {
    if a == [] {
      SameSize(a, b);
    } else {
      var i := FindFirst(a, b);
      RemoveFirst(a);
      RemoveOne(b, i);
      SortIgnoresOrder(a[1..], b[..i] + b[i + 1..]);
      SortPulls(b, i);
    }
  }

  lemma {:induction false} InsertKeepsElements(x: string, s: seq<string>)
    ensures multiset(Insert(x, s)) == multiset{x} + multiset(s)
    decreases |s|
  {
    if s != [] {
      assert s == [s[0]] + s[1..];
      InsertKeepsElements(x, s[1..]);
    }
  }

  lemma {:induction false} SortKeepsElements(s: seq<string>)
    ensures multiset(Sort(s)) == multiset(s)
    decreases |s|
  {
    if s != [] {
      assert s == [s[0]] + s[1..];
      SortKeepsElements(s[1..]);
      InsertKeepsElements(s[0], Sort(s[1..]));
    }
  }

  // ---- the text ----

  function Line(name: string, value: string): string {
    FoldAll(name) + (":" + value)
  }

  function LinesOfValues(name: string, values: seq<string>): seq<string> {
    if values == [] then [] else [Line(name, values[0])] + LinesOfValues(name, values[1..])
  }

  function LinesOfNames(names: seq<string>, header: Header): seq<string> {
    if names == [] then []
    else LinesOfValues(names[0], Sort(HeaderValues(header, names[0]))) + LinesOfNames(names[1..], header)
  }

  /** The selected header lines of a request, in canonical order. */
  function HeaderLines(header: Header, selected: seq<string>): seq<string> {
    LinesOfNames(Sort(selected), header)
  }

  function JoinLines(lines: seq<string>): string {
    if lines == [] then "" else if |lines| == 1 then lines[0] else lines[0] + ("\n" + JoinLines(lines[1..]))
  }

  function TextOf(verb: string, url: string, lines: seq<string>, hash: string): string {
    verb + ("\n" + (url + ("\n" + (JoinLines(lines) + ("\n" + hash)))))
  }

  /** What is hashed: `sum` is the raw digest of the body, absent when there is none. */
  function KeyText(sum: Bytes -> string, req: Request, selected: seq<string>): string {
    TextOf(req.verb, RenderUrl(req.url), HeaderLines(req.header, selected),
           if req.body.Some? then sum(req.body.value) else "")
  }

  // ---- canonical ----

  lemma {:induction false} LinesDependOnValueSets(names: seq<string>, h: Header, g: Header)
    requires forall name <- names :: multiset(HeaderValues(h, name)) == multiset(HeaderValues(g, name))
    ensures LinesOfNames(names, h) == LinesOfNames(names, g)
    decreases |names|
  {
    if names != [] {
      SortIgnoresOrder(HeaderValues(h, names[0]), HeaderValues(g, names[0]));
      LinesDependOnValueSets(names[1..], h, g);
    }
  }

  /** The text does not change when the selected header list is permuted, nor when the
      values of any header are. */
  lemma TextIsCanonical(sum: Bytes -> string, req: Request, req': Request, selected: seq<string>, selected': seq<string>)
    requires req'.verb == req.verb && req'.url == req.url && req'.body == req.body
    requires multiset(selected) == multiset(selected')
    requires forall name <- selected :: multiset(HeaderValues(req.header, name)) == multiset(HeaderValues(req'.header, name))
    ensures KeyText(sum, req, selected) == KeyText(sum, req', selected')
  {
    SortIgnoresOrder(selected, selected');
    SortKeepsElements(selected);
    forall name | name in Sort(selected)
      ensures multiset(HeaderValues(req.header, name)) == multiset(HeaderValues(req'.header, name))
    {
      assert name in multiset(Sort(selected));
    }
    LinesDependOnValueSets(Sort(selected), req.header, req'.header);
  }

  // ---- faithful ----

  predicate OneLine(s: string) {
    Free(s, {'\n'})
  }

  /** No part of the request that enters the text contains a line break. */
  predicate IsClean(req: Request, selected: seq<string>) {
    && OneLine(req.verb) && OneLine(RenderUrl(req.url))
    && (forall name <- selected :: OneLine(name) && forall v <- HeaderValues(req.header, name) :: OneLine(v))
  }

  lemma {:induction false} ValueLinesAreClean(name: string, values: seq<string>)
    requires OneLine(name) && forall v <- values :: OneLine(v)
    ensures forall line <- LinesOfValues(name, values) :: OneLine(line) && line != ""
    decreases |values|
  {
    if values != [] {
      ValueLinesAreClean(name, values[1..]);
      FoldKeepsLineBreaks(name);
      assert OneLine(values[0]);
    }
  }

  lemma FoldKeepsLineBreaks(s: string)
    requires OneLine(s)
    ensures OneLine(FoldAll(s))
  {
  }

  lemma {:induction false} NameLinesAreClean(names: seq<string>, header: Header)
    requires forall name <- names :: OneLine(name) && forall v <- HeaderValues(header, name) :: OneLine(v)
    ensures forall line <- LinesOfNames(names, header) :: OneLine(line) && line != ""
    decreases |names|
  {
    if names != [] {
      var values := HeaderValues(header, names[0]);
      SortKeepsElements(values);
      forall v | v in Sort(values) ensures OneLine(v) { assert v in multiset(Sort(values)); }
      ValueLinesAreClean(names[0], Sort(values));
      NameLinesAreClean(names[1..], header);
    }
  }

  lemma LinesAreClean(req: Request, selected: seq<string>)
    requires IsClean(req, selected)
    ensures forall line <- HeaderLines(req.header, selected) :: OneLine(line) && line != ""
  {
    SortKeepsElements(selected);
    forall name | name in Sort(selected)
      ensures OneLine(name) && forall v <- HeaderValues(req.header, name) :: OneLine(v)
    {
      assert name in multiset(Sort(selected));
    }
    NameLinesAreClean(Sort(selected), req.header);
  }

  lemma JoinIsEmptyIff(lines: seq<string>)
    requires forall line <- lines :: OneLine(line) && line != ""
    ensures JoinLines(lines) == "" <==> lines == []
  {
    if lines != [] {
      assert lines[0] in lines;
    }
  }

  /** Joined lines can be told apart again. */
  lemma {:induction false} JoinIsFaithful(a: seq<string>, b: seq<string>)
    requires forall line <- a :: OneLine(line) && line != ""
    requires forall line <- b :: OneLine(line) && line != ""
    requires JoinLines(a) == JoinLines(b)
    ensures a == b
    decreases |a|
  {
    JoinIsEmptyIff(a);
    JoinIsEmptyIff(b);
    if a != [] && b != [] {
      assert a[0] in a && b[0] in b;
      var x := if |a| == 1 then "" else "\n" + JoinLines(a[1..]);
      var y := if |b| == 1 then "" else "\n" + JoinLines(b[1..]);
      assert JoinLines(a) == a[0] + x && JoinLines(b) == b[0] + y;
      OneCut(a[0], x, b[0], y, {'\n'});
      if x == "" {
        assert a == [a[0]] && b == [b[0]];
      } else {
        assert x[1..] == JoinLines(a[1..]) && y[1..] == JoinLines(b[1..]);
        JoinIsFaithful(a[1..], b[1..]);
        assert a == [a[0]] + a[1..] && b == [b[0]] + b[1..];
      }
    }
  }

  lemma AfterBreak(s: string)
    ensures ("\n" + s)[1..] == s && StopsAt("\n" + s, {'\n'})
  {
  }

  /** The text always determines method and URL text. */
  lemma TextDeterminesMethodAndUrl(sum: Bytes -> string, a: Request, b: Request, selected: seq<string>)
    requires IsClean(a, selected) && IsClean(b, selected)
    requires KeyText(sum, a, selected) == KeyText(sum, b, selected)
    ensures a.verb == b.verb && RenderUrl(a.url) == RenderUrl(b.url)
    ensures RestOf(sum, a, selected) == RestOf(sum, b, selected)
  {
    var ra, rb := RestOf(sum, a, selected), RestOf(sum, b, selected);
    var ua, ub := RenderUrl(a.url) + ("\n" + ra), RenderUrl(b.url) + ("\n" + rb);
    AfterBreak(ua);
    AfterBreak(ub);
    OneCut(a.verb, "\n" + ua, b.verb, "\n" + ub, {'\n'});
    AfterBreak(ra);
    AfterBreak(rb);
    OneCut(RenderUrl(a.url), "\n" + ra, RenderUrl(b.url), "\n" + rb, {'\n'});
  }

  /** What follows method and URL. */
  function RestOf(sum: Bytes -> string, req: Request, selected: seq<string>): string {
    JoinLines(HeaderLines(req.header, selected)) +
      ("\n" + (if req.body.Some? then sum(req.body.value) else ""))
  }

  lemma SameLengthTails(a: string, x: string, b: string, y: string)
    requires a + x == b + y && |x| == |y|
    ensures a == b && x == y
  {
    assert a == (a + x)[..|a|] && b == (b + y)[..|b|];
    assert x == (a + x)[|a|..] && y == (b + y)[|b|..];
  }

  /** Among requests that both have a body, or both have none, the text also determines
      the selected header lines and the body hash. */
  lemma TextIsFaithful(sum: Bytes -> string, a: Request, b: Request, selected: seq<string>)
    requires forall data :: |sum(data)| == 32
    requires IsClean(a, selected) && IsClean(b, selected) && (a.body.Some? <==> b.body.Some?)
    ensures KeyText(sum, a, selected) == KeyText(sum, b, selected) <==>
            && a.verb == b.verb && RenderUrl(a.url) == RenderUrl(b.url)
            && HeaderLines(a.header, selected) == HeaderLines(b.header, selected)
            && (a.body.Some? ==> sum(a.body.value) == sum(b.body.value))
  {
    if KeyText(sum, a, selected) == KeyText(sum, b, selected) {
      TextDeterminesMethodAndUrl(sum, a, b, selected);
      var ja, jb := JoinLines(HeaderLines(a.header, selected)), JoinLines(HeaderLines(b.header, selected));
      var ha := if a.body.Some? then sum(a.body.value) else "";
      var hb := if b.body.Some? then sum(b.body.value) else "";
      SameLengthTails(ja, "\n" + ha, jb, "\n" + hb);
      AfterBreak(ha);
      AfterBreak(hb);
      LinesAreClean(a, selected);
      LinesAreClean(b, selected);
      JoinIsFaithful(HeaderLines(a.header, selected), HeaderLines(b.header, selected));
    }
  }

  /** With header names that contain no colon, a line determines its name and value. */
  lemma LineIsFaithful(name: string, value: string, name': string, value': string)
    requires Free(name, {':'}) && Free(name', {':'}) && Line(name, value) == Line(name', value')
    ensures EqualFold(name, name') && value == value'
  {
    OneCut(FoldAll(name), ":" + value, FoldAll(name'), ":" + value', {':'});
    assert (":" + value)[1..] == value && (":" + value')[1..] == value';
  }

  /** The selected names contain no colon and differ in more than letter case. */
  predicate TellsApart(names: seq<string>) {
    && (forall name <- names :: Free(name, {':'}))
    && (forall i, j :: 0 <= i < j < |names| ==> !EqualFold(names[i], names[j]))
  }

  lemma OneMoreTellsApart(x: string, names: seq<string>)
    requires TellsApart(names) && Free(x, {':'}) && forall y <- names :: !EqualFold(x, y)
    ensures TellsApart([x] + names)
  {
  }

  lemma {:induction false} InsertTellsApart(x: string, sorted: seq<string>)
    requires TellsApart(sorted) && Free(x, {':'}) && forall y <- sorted :: !EqualFold(x, y)
    ensures TellsApart(Insert(x, sorted))
    decreases |sorted|
  {
    if sorted != [] && !LexLe(x, sorted[0]) {
      var rest := Insert(x, sorted[1..]);
      InsertTellsApart(x, sorted[1..]);
      InsertKeepsElements(x, sorted[1..]);
      assert sorted[0] in sorted;
      forall y | y in rest
        ensures !EqualFold(sorted[0], y)
      {
        assert y in multiset(rest);
      }
      OneMoreTellsApart(sorted[0], rest);
    } else {
      OneMoreTellsApart(x, sorted);
    }
  }

  lemma {:induction false} SortTellsApart(names: seq<string>)
    requires TellsApart(names)
    ensures TellsApart(Sort(names))
    decreases |names|
  {
    if names != [] {
      SortTellsApart(names[1..]);
      SortKeepsElements(names[1..]);
      forall y | y in Sort(names[1..])
        ensures !EqualFold(names[0], y)
      {
        assert y in multiset(Sort(names[1..]));
      }
      InsertTellsApart(names[0], Sort(names[1..]));
    }
  }

  lemma {:induction false} LinesOneByOne(name: string, values: seq<string>)
    ensures |LinesOfValues(name, values)| == |values|
    ensures forall i :: 0 <= i < |values| ==> LinesOfValues(name, values)[i] == Line(name, values[i])
    decreases |values|
  {
    if values != [] {
      LinesOneByOne(name, values[1..]);
    }
  }

  /** No line of other names is a line of this one. */
  lemma {:induction false} OthersLines(names: seq<string>, header: Header, name: string, value: string)
    requires TellsApart(names) && Free(name, {':'}) && forall other <- names :: !EqualFold(name, other)
    ensures Line(name, value) !in LinesOfNames(names, header)
    decreases |names|
  {
    if names != [] {
      var values := Sort(HeaderValues(header, names[0]));
      OthersLines(names[1..], header, name, value);
      LinesOneByOne(names[0], values);
      if Line(name, value) in LinesOfValues(names[0], values) {
        var i :| 0 <= i < |values| && LinesOfValues(names[0], values)[i] == Line(name, value);
        LineIsFaithful(name, value, names[0], values[i]);
      }
    }
  }

  ghost predicate IsLineOf(name: string, line: string) {
    exists value :: line == Line(name, value)
  }

  /** Lines of one name, then lines of others: where the name's lines are. */
  lemma LinesStand(name: string, values: seq<string>, rest: seq<string>)
    requires forall line <- rest :: !IsLineOf(name, line)
    ensures var whole := LinesOfValues(name, values) + rest;
            forall i :: 0 <= i < |whole| ==> (IsLineOf(name, whole[i]) <==> i < |values|)
  {
    LinesOneByOne(name, values);
    var lines := LinesOfValues(name, values);
    forall i | 0 <= i < |lines + rest|
      ensures IsLineOf(name, (lines + rest)[i]) <==> i < |values|
    {
      if i < |values| { assert (lines + rest)[i] == Line(name, values[i]); }
    }
  }

  /** The lines of one name end where those of the other names begin. */
  lemma SplitLines(name: string, x: seq<string>, y: seq<string>, restX: seq<string>, restY: seq<string>)
    requires LinesOfValues(name, x) + restX == LinesOfValues(name, y) + restY
    requires forall line :: line in restX || line in restY ==> !IsLineOf(name, line)
    requires Free(name, {':'})
    ensures x == y && restX == restY
  {
    var a, b := LinesOfValues(name, x), LinesOfValues(name, y);
    LinesStand(name, x, restX);
    LinesStand(name, y, restY);
    LinesOneByOne(name, x);
    LinesOneByOne(name, y);
    var whole := a + restX;
    assert |x| < |whole| ==> !IsLineOf(name, whole[|x|]);
    assert |y| < |whole| ==> !IsLineOf(name, whole[|y|]);
    assert a == whole[..|x|] && b == whole[..|y|];
    assert restX == whole[|x|..] && restY == whole[|y|..];
    forall i | 0 <= i < |x|
      ensures x[i] == y[i]
    {
      LineIsFaithful(name, x[i], name, y[i]);
    }
  }

  lemma {:induction false} LinesDetermineValues(names: seq<string>, h: Header, g: Header)
    requires TellsApart(names) && LinesOfNames(names, h) == LinesOfNames(names, g)
    ensures forall name <- names :: multiset(HeaderValues(h, name)) == multiset(HeaderValues(g, name))
    decreases |names|
  {
    if names != [] {
      var x, y := HeaderValues(h, names[0]), HeaderValues(g, names[0]);
      forall line | line in LinesOfNames(names[1..], h) || line in LinesOfNames(names[1..], g)
        ensures !IsLineOf(names[0], line)
      {
        if value :| line == Line(names[0], value) {
          OthersLines(names[1..], h, names[0], value);
          OthersLines(names[1..], g, names[0], value);
        }
      }
      SplitLines(names[0], Sort(x), Sort(y), LinesOfNames(names[1..], h), LinesOfNames(names[1..], g));
      SortKeepsElements(x);
      SortKeepsElements(y);
      LinesDetermineValues(names[1..], h, g);
    }
  }

  /** So with such names the selected lines are the same exactly when each selected header
      has the same values, counted with repetition and in any order. */
  lemma LinesCoincideIff(h: Header, g: Header, selected: seq<string>)
    requires TellsApart(selected)
    ensures HeaderLines(h, selected) == HeaderLines(g, selected) <==>
            forall name <- selected :: multiset(HeaderValues(h, name)) == multiset(HeaderValues(g, name))
  {
    SortKeepsElements(selected);
    assert forall name :: name in selected <==> name in multiset(Sort(selected));
    SortTellsApart(selected);
    if HeaderLines(h, selected) == HeaderLines(g, selected) {
      LinesDetermineValues(Sort(selected), h, g);
    } else {
      if forall name <- selected :: multiset(HeaderValues(h, name)) == multiset(HeaderValues(g, name)) {
        LinesDependOnValueSets(Sort(selected), h, g);
      }
    }
  }

  /** Two clean requests that both have a body, or both have none, have one text exactly
      when they agree on method, URL, the values of every selected header, and body hash. */
  lemma TextsCoincideIff(sum: Bytes -> string, a: Request, b: Request, selected: seq<string>)
    requires forall data :: |sum(data)| == 32
    requires IsClean(a, selected) && IsClean(b, selected) && (a.body.Some? <==> b.body.Some?)
    requires TellsApart(selected)
    ensures KeyText(sum, a, selected) == KeyText(sum, b, selected) <==>
            && a.verb == b.verb && RenderUrl(a.url) == RenderUrl(b.url)
            && (forall name <- selected :: multiset(HeaderValues(a.header, name)) == multiset(HeaderValues(b.header, name)))
            && (a.body.Some? ==> sum(a.body.value) == sum(b.body.value))
  {
    TextIsFaithful(sum, a, b, selected);
    LinesCoincideIff(a.header, b.header, selected);
  }

  // ---- the computation ----

  /** A body still to be read: it hands out `data` and then ends, or breaks off. */
  datatype Stream = Stream(data: Bytes, breaks: bool)

  /** A request in flight: the header slices and the body are consumed and replaced. */
  class RequestObject {
    const verb: string
    const url: string
    var header: Header
    var body: Option<Stream>    // None when there is no body

    /** A body that breaks off stands in `req` for what it hands out. */
    constructor (req: Request, breaks: bool)
      ensures verb == req.verb && url == RenderUrl(req.url) && header == req.header
      ensures body == if req.body.Some? then Some(Stream(req.body.value, breaks)) else None
    {
      verb, url, header := req.verb, RenderUrl(req.url), req.header;
      body := if req.body.Some? then Some(Stream(req.body.value, breaks)) else None;
    }
  }

  /** The header once the values of `name` are sorted. */
  function SortedOne(header: Header, name: string): Header {
    if Canonical(name) in header then header[Canonical(name) := Sort(header[Canonical(name)])] else header
  }

  /** The header after the values of these names were sorted in place. */
  function Sorted(header: Header, names: seq<string>): Header
    decreases |names|
  {
    if names == [] then header else Sorted(SortedOne(header, names[0]), names[1..])
  }

  /** Sorting the values of some header first leaves the lines as they were. */
  lemma SortedFirstSameLines(names: seq<string>, header: Header, name: string)
    ensures LinesOfNames(names, SortedOne(header, name)) == LinesOfNames(names, header)
  {
    if Canonical(name) in header {
      SortKeepsElements(header[Canonical(name)]);
      LinesDependOnValueSets(names, SortedOne(header, name), header);
    }
  }

  /** Sorting the values in place does not change the lines, so a key computed again from
      the same request is the same. */
  lemma {:induction false} SortedSameLines(names: seq<string>, header: Header, sorted: seq<string>)
    ensures LinesOfNames(names, Sorted(header, sorted)) == LinesOfNames(names, header)
    decreases |sorted|
  {
    if sorted != [] {
      SortedSameLines(names, SortedOne(header, sorted[0]), sorted[1..]);
      SortedFirstSameLines(names, header, sorted[0]);
    }
  }

  /** ComputeCacheKey up to the final hash: the hasher is fed piece by piece, header
      values are sorted in place, and the body is read and put back. A body that breaks off
      is taken for what it handed out, and reads as whole afterwards. */
  method ComputeCacheKey(req: RequestObject, selected: seq<string>, sum: Bytes -> string) returns (text: string)
    modifies req
    ensures text == TextOf(req.verb, req.url, HeaderLines(old(req.header), selected),
                           if old(req.body).Some? then sum(old(req.body).value.data) else "")
    ensures req.body == if old(req.body).Some? then Some(Stream(old(req.body).value.data, false)) else None
    ensures req.header == Sorted(old(req.header), Sort(selected))
    ensures HeaderLines(req.header, selected) == HeaderLines(old(req.header), selected)
  {
    var parts := WriteHeaders(req, Sort(selected));
    SortedSameLines(Sort(selected), old(req.header), Sort(selected));
    text := req.verb + "\n" + req.url + "\n" + JoinLines(parts) + "\n";
    var hash := "";
    if req.body.Some? {
      var bytes := req.body.value.data;
      req.body := Some(Stream([], false));       // read to its end and closed
      req.body := Some(Stream(bytes, false));    // replaced by a fresh reader
      hash := sum(bytes);
    }
    Regroup(req.verb, req.url, JoinLines(parts), hash);
    text := text + hash;
  }

  /** The lines of the headers named; the values of each are sorted where they are. */
  method WriteHeaders(req: RequestObject, names: seq<string>) returns (parts: seq<string>)
    modifies req`header
    ensures parts == LinesOfNames(names, old(req.header))
    ensures req.header == Sorted(old(req.header), names)
  {
    parts := [];
    ghost var whole := LinesOfNames(names, req.header);
    assert names[0..] == names;
    for i := 0 to |names|
      invariant parts + LinesOfNames(names[i..], req.header) == whole
      invariant Sorted(req.header, names[i..]) == Sorted(old(req.header), names)
    {
      HeaderStep(names, i, req.header, parts);
      var values := Sort(HeaderValues(req.header, names[i]));
      if Canonical(names[i]) in req.header {
        req.header := req.header[Canonical(names[i]) := values];
      }
      var lines := ValueLines(names[i], values);
      parts := parts + lines;
    }
    assert names[|names|..] == [];
  }

  lemma HeaderStep(names: seq<string>, i: nat, header: Header, parts: seq<string>)
    requires i < |names|
    ensures Sorted(header, names[i..]) == Sorted(SortedOne(header, names[i]), names[i + 1..])
    ensures parts + LinesOfNames(names[i..], header) ==
            (parts + LinesOfValues(names[i], Sort(HeaderValues(header, names[i])))) +
            LinesOfNames(names[i + 1..], SortedOne(header, names[i]))
  {
    assert names[i..][0] == names[i] && names[i..][1..] == names[i + 1..];
    SortedFirstSameLines(names[i + 1..], header, names[i]);
  }

  method ValueLines(name: string, values: seq<string>) returns (lines: seq<string>)
    ensures lines == LinesOfValues(name, values)
  {
    lines := [];
    assert values[0..] == values;
    for i := 0 to |values|
      invariant lines + LinesOfValues(name, values[i..]) == LinesOfValues(name, values)
    {
      assert values[i..][0] == values[i] && values[i..][1..] == values[i + 1..];
      lines := lines + [Line(name, values[i])];
    }
    assert values[|values|..] == [];
  }

  lemma Regroup(verb: string, url: string, joined: string, hash: string)
    ensures verb + "\n" + url + "\n" + joined + "\n" + hash ==
            verb + ("\n" + (url + ("\n" + (joined + ("\n" + hash)))))
  {
  }

  /** Equal keys mean equal method and URL, provided the key hash does not collide on
      the two texts. */
  lemma EqualKeysSameTarget(keyHash: string -> string, sum: Bytes -> string, a: Request, b: Request, selected: seq<string>)
    requires IsClean(a, selected) && IsClean(b, selected)
    requires WellFormedUrl(a.url) && WellFormedUrl(b.url)
    requires keyHash(KeyText(sum, a, selected)) == keyHash(KeyText(sum, b, selected)) ==>
               KeyText(sum, a, selected) == KeyText(sum, b, selected)
    requires keyHash(KeyText(sum, a, selected)) == keyHash(KeyText(sum, b, selected))
    ensures a.verb == b.verb && a.url == b.url
  {
    TextDeterminesMethodAndUrl(sum, a, b, selected);
    UrlTextIsFaithful(a.url, b.url);
  }
}
