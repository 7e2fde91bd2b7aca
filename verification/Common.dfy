/** Vocabulary shared by every part of the model: bytes, object names, cache
    entries and the JSON codec that turns an entry's meta into stored bytes. */
module Common {

  datatype Option<+T> = None | Some(value: T)

  newtype byte = x: int | 0 <= x < 256

  type Bytes = seq<byte>

  function Max(a: nat, b: nat): nat {
    if a < b then b else a
  }

  /** The bytes of a plain-text page; every character of a Go string is one byte. */
  function Text(s: string): Bytes {
    seq(|s|, i requires 0 <= i < |s| => ((s[i] as int) % 256) as byte)
  }

  // ---- sequences ----

  predicate Distinct<T(==)>(s: seq<T>) {
    forall i, j :: 0 <= i < j < |s| ==> s[i] != s[j]
  }

  function Elements<T>(s: seq<T>): set<T> {
    set x | x in s
  }

  function Project<T, U>(s: seq<T>, f: T -> U): (r: seq<U>)
    ensures |r| == |s| && forall i :: 0 <= i < |s| ==> r[i] == f(s[i])
  {
    seq(|s|, i requires 0 <= i < |s| => f(s[i]))
  }

  lemma {:induction false} DistinctCount<T>(s: seq<T>)
    requires Distinct(s)
    ensures |Elements(s)| == |s|
  {
    if s != [] {
      DistinctCount(s[1..]);
      assert Elements(s) == {s[0]} + Elements(s[1..]);
    }
  }

  lemma ElementsAppend<T>(s: seq<T>, x: T)
    ensures Elements(s + [x]) == Elements(s) + {x}
  {
  }

  /** The elements seen so far, one step further. */
  lemma PrefixStep<T>(s: seq<T>, i: nat)
    requires i < |s|
    ensures Elements(s[..i + 1]) == Elements(s[..i]) + {s[i]}
    ensures Distinct(s) ==> s[i] !in Elements(s[..i])
    ensures s[i] in Elements(s)
  {
    assert s[..i + 1] == s[..i] + [s[i]];
    ElementsAppend(s[..i], s[i]);
  }

  /** The same for the elements seen so far that are not in `known`. */
  lemma PrefixStepOutside<T>(s: seq<T>, i: nat, known: set<T>)
    requires i < |s| && Distinct(s)
    ensures var a, b := Elements(s[..i]) - known, Elements(s[..i + 1]) - known;
            if s[i] in known then b == a else s[i] !in a && b == a + {s[i]} && |b| == |a| + 1
  {
    PrefixStep(s, i);
  }

  lemma WholePrefix<T>(s: seq<T>)
    ensures s[..|s|] == s
  {
  }

  lemma SubsetOfSameSize<T>(a: set<T>, b: set<T>)
    requires a <= b && |a| == |b|
    ensures a == b
  {
    assert b == a + (b - a);
    assert |b| == |a| + |b - a|;
  }

  /** Lists a set in no particular order. */
  method Enumerate<T(==)>(s: set<T>) returns (out: seq<T>)
    ensures Distinct(out) && Elements(out) == s
  {
    out := [];
    var todo := s;
    while todo != {}
      invariant todo <= s && Distinct(out)
      invariant Elements(out) == s - todo
      decreases todo
    {
      var x :| x in todo;
      assert x !in Elements(out);
      ElementsAppend(out, x);
      out := out + [x];
      todo := todo - {x};
    }
  }

  // ---- object names ----

  predicate HasPrefix(s: string, prefix: string) {
    prefix <= s
  }

  predicate HasSuffix(s: string, suffix: string) {
    |suffix| <= |s| && s[|s| - |suffix|..] == suffix
  }

  function TrimSuffix(s: string, suffix: string): string {
    if HasSuffix(s, suffix) then s[..|s| - |suffix|] else s
  }

  const META_SUFFIX := ".meta"
  const BODY_SUFFIX := ".body"

  /** An object name, read the way the code reads it everywhere: the meta half or the
      body half of a cache key, or something the cache never writes. */
  datatype Name = MetaName(key: string) | BodyName(key: string) | OtherName(text: string)

  /** The contents of one storage backend. */
  type Objects = map<Name, Bytes>

  /** The meta suffix is tried first, then the body suffix. */
  function ParseName(text: string): Name {
    if HasSuffix(text, META_SUFFIX) then MetaName(TrimSuffix(text, META_SUFFIX))
    else if HasSuffix(text, BODY_SUFFIX) then BodyName(TrimSuffix(text, BODY_SUFFIX))
    else OtherName(text)
  }

  function RenderName(name: Name): string {
    match name
    case MetaName(key) => key + META_SUFFIX
    case BodyName(key) => key + BODY_SUFFIX
    case OtherName(text) => text
  }

  /** The name a text is read as; the text of any other name is read differently. */
  predicate IsProper(name: Name) {
    name.OtherName? ==> !HasSuffix(name.text, META_SUFFIX) && !HasSuffix(name.text, BODY_SUFFIX)
  }

  lemma TextIsRendered(text: string)
    ensures IsProper(ParseName(text)) && RenderName(ParseName(text)) == text
  {
    if HasSuffix(text, META_SUFFIX) {
      assert text == text[..|text| - 5] + META_SUFFIX;
    } else if HasSuffix(text, BODY_SUFFIX) {
      assert text == text[..|text| - 5] + BODY_SUFFIX;
    }
  }

  /** A suffix put on is the suffix found. */
  lemma SuffixIsRead(key: string, suffix: string)
    ensures HasSuffix(key + suffix, suffix) && TrimSuffix(key + suffix, suffix) == key
  {
    var whole := key + suffix;
    assert whole[|whole| - |suffix|..] == suffix && whole[..|whole| - |suffix|] == key;
  }

  lemma HalfIsRead(name: Name)
    requires !name.OtherName?
    ensures ParseName(RenderName(name)) == name
  {
    if name.MetaName? {
      SuffixIsRead(name.key, META_SUFFIX);
    } else {
      SuffixIsRead(name.key, BODY_SUFFIX);
      assert BODY_SUFFIX[1] != META_SUFFIX[1];
    }
  }

  /** Proper names and texts stand for each other, so storage may be modelled by name: no
      two keys share an object and no text is both halves. */
  lemma NamesAreTexts(text: string, name: Name)
    ensures IsProper(ParseName(text)) && RenderName(ParseName(text)) == text
    ensures IsProper(name) <==> ParseName(RenderName(name)) == name
  {
    TextIsRendered(text);
    if !name.OtherName? {
      HalfIsRead(name);
    }
  }

  // ---- entries ----

  /** What is left of an object cut short after `n` bytes, if it has as many. */
  function FirstBytes(data: Bytes, n: nat): Bytes {
    if n < |data| then data[..n] else data
  }

  type Header = map<string, seq<string>>

  datatype EntryMeta = EntryMeta(verb: string, url: string, statusCode: int, header: Header, cachedAt: int)
  /** JSON encoding and decoding of an entry's meta; decoding fails on corrupt bytes. */
  datatype Codec = Codec(encode: EntryMeta -> Bytes, decode: Bytes -> Option<EntryMeta>) {
    ghost predicate RoundTrips() {
      forall m :: decode(encode(m)) == Some(m)
    }

    /** What is left of a text that is cut short does not decode. */
    ghost predicate TellsCuts() {
      forall m, n: nat :: n < |encode(m)| ==> decode(FirstBytes(encode(m), n)) == None
    }
  }
}
