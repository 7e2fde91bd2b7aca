/** SQLite's LIKE: `%` stands for any run of characters, `_` for any one, and
    ASCII letters compare without regard to case. */
module SqlLike {
  import opened Common

  function Fold(c: char): char {
    if 'A' <= c <= 'Z' then (c as int + 32) as char else c
  }

  function FoldAll(s: string): string {
    seq(|s|, i requires 0 <= i < |s| => Fold(s[i]))
  }

  predicate EqualFold(a: string, b: string) {
    FoldAll(a) == FoldAll(b)
  }

  predicate Like(pattern: string, s: string)
    decreases |pattern|, |s|
  {
    if pattern == "" then s == ""
    else if pattern[0] == '%' then Like(pattern[1..], s) || (s != "" && Like(pattern, s[1..]))
    else s != "" && (pattern[0] == '_' || Fold(pattern[0]) == Fold(s[0])) && Like(pattern[1..], s[1..])
  }

  predicate IsPlain(prefix: string) {
    '%' !in prefix && '_' !in prefix
  }

  /** The two texts agree up to letter case for as long as the first lasts. */
  predicate PrefixUpToCase(prefix: string, s: string) {
    |prefix| <= |s| && EqualFold(prefix, s[..|prefix|])
  }

  lemma {:induction false} PercentMatchesAll(s: string)
    ensures Like("%", s)
    decreases |s|
  {
    if s != "" {
      PercentMatchesAll(s[1..]);
    }
  }

  /** Every text that starts with the prefix is caught, whatever wildcards it holds. */
  lemma {:induction false} LikeCoversPrefix(prefix: string, s: string)
    requires HasPrefix(s, prefix)
    ensures Like(prefix + "%", s)
    decreases |prefix|
  {
    var p := prefix + "%";
    if prefix == "" {
      assert p == "%";
      PercentMatchesAll(s);
    } else {
      assert p[1..] == prefix[1..] + "%";
      LikeCoversPrefix(prefix[1..], s[1..]);
      if prefix[0] == '%' {
        PercentAbsorbs(p, s);
      }
    }
  }

  /** A leading `%` may absorb the first character. */
  lemma PercentAbsorbs(pattern: string, s: string)
    requires pattern != "" && pattern[0] == '%' && s != ""
    requires Like(pattern[1..], s[1..])
    ensures Like(pattern, s)
  {
    assert Like(pattern, s[1..]);
  }

  /** Without wildcards in the prefix, LIKE is prefix matching up to letter case. */
  lemma {:induction false} PlainLikeIff(prefix: string, s: string)
    requires IsPlain(prefix)
    ensures Like(prefix + "%", s) <==> PrefixUpToCase(prefix, s)
    decreases |prefix|
  {
    var p := prefix + "%";
    if prefix == "" {
      assert p == "%";
      PercentMatchesAll(s);
      assert FoldAll(prefix) == FoldAll(s[..0]);
    } else {
      assert p[1..] == prefix[1..] + "%" && p[0] == prefix[0];
      assert prefix[0] != '%' && prefix[0] != '_' by { assert prefix[0] in prefix; }
      if s != "" {
        assert IsPlain(prefix[1..]);
        PlainLikeIff(prefix[1..], s[1..]);
        if |prefix| <= |s| {
          FoldStep(prefix, s[..|prefix|]);
          assert s[..|prefix|][1..] == s[1..][..|prefix| - 1];
        }
      }
    }
  }

  lemma FoldStep(a: string, b: string)
    requires |a| == |b| > 0
    ensures EqualFold(a, b) <==> Fold(a[0]) == Fold(b[0]) && EqualFold(a[1..], b[1..])
  {
    var fa, fb := FoldAll(a), FoldAll(b);
    assert fa == [fa[0]] + fa[1..] && fb == [fb[0]] + fb[1..];
    assert fa[1..] == FoldAll(a[1..]) && fb[1..] == FoldAll(b[1..]);
  }
}
