/** Digest-pinned URLs: which paths pin their content by SHA-256, and the check of a
    body against the digest a path claims (section "Pull" of the OCI Distribution
    Specification). */
module Digest {
  import opened Common
  import opened SqlLike

  predicate IsHex(c: char) {
    '0' <= c <= '9' || 'a' <= c <= 'f' || 'A' <= c <= 'F'
  }

  const DIGEST_PREFIX := "sha256:"

  /** The pieces of a path between its slashes. */
  function Split(path: string): (pieces: seq<string>)
    ensures pieces != []
  {
    if path == "" then [""]
    else if path[0] == '/' then [""] + Split(path[1..])
    else Prepend(path[0], Split(path[1..]))
  }

  function Join(pieces: seq<string>): string
    requires pieces != []
  {
    if |pieces| == 1 then pieces[0] else pieces[0] + "/" + Join(pieces[1..])
  }

  predicate SlashFree(pieces: seq<string>) {
    forall i :: 0 <= i < |pieces| ==> '/' !in pieces[i]
  }

  function Prepend(c: char, pieces: seq<string>): seq<string>
    requires pieces != []
  {
    [[c] + pieces[0]] + pieces[1..]
  }

  lemma JoinPrepend(c: char, pieces: seq<string>)
    requires pieces != []
    ensures Join(Prepend(c, pieces)) == [c] + Join(pieces)
  {
    var longer := Prepend(c, pieces);
    assert longer[1..] == pieces[1..];
    if |pieces| > 1 {
      assert Join(longer) == ([c] + pieces[0]) + "/" + Join(pieces[1..]);
      assert Join(longer) == [c] + (pieces[0] + "/" + Join(pieces[1..]));
    }
  }

  lemma JoinBlank(pieces: seq<string>)
    requires pieces != []
    ensures Join([""] + pieces) == "/" + Join(pieces)
  {
    assert ([""] + pieces)[1..] == pieces;
    assert "" + "/" + Join(pieces) == "/" + Join(pieces);
  }

  lemma {:induction false} SplitThenJoin(path: string)
    ensures SlashFree(Split(path)) && Join(Split(path)) == path
    decreases |path|
  {
    if path != "" {
      SplitThenJoin(path[1..]);
      assert path == [path[0]] + path[1..];
      if path[0] == '/' {
        JoinBlank(Split(path[1..]));
      } else {
        JoinPrepend(path[0], Split(path[1..]));
      }
    }
  }

  lemma {:induction false} JoinThenSplit(pieces: seq<string>)
    requires pieces != [] && SlashFree(pieces)
    ensures Split(Join(pieces)) == pieces
    decreases |pieces|, |pieces[0]|
  {
    if pieces[0] != "" {
      var c, shorter := pieces[0][0], [pieces[0][1..]] + pieces[1..];
      assert pieces[0] == [c] + shorter[0] && pieces == [pieces[0]] + shorter[1..];
      JoinPrepend(c, shorter);
      JoinThenSplit(shorter);
      assert ([c] + Join(shorter))[1..] == Join(shorter);
    } else if |pieces| > 1 {
      assert pieces == [""] + pieces[1..];
      JoinBlank(pieces[1..]);
      JoinThenSplit(pieces[1..]);
      assert ("/" + Join(pieces[1..]))[1..] == Join(pieces[1..]);
    }
  }

  /** The last piece of a pinned path: the algorithm prefix and 64 hex digits. */
  predicate IsDigestPiece(piece: string) {
    |piece| == |DIGEST_PREFIX| + 64 && DIGEST_PREFIX <= piece &&
    forall i :: |DIGEST_PREFIX| <= i < |piece| ==> IsHex(piece[i])
  }

  predicate IsPinnedPath(pieces: seq<string>) {
    var n := |pieces|;
    && n >= 6 && pieces[0] == "" && pieces[1] == "v2"
    && (forall i :: 2 <= i < n - 2 ==> pieces[i] != "")
    && pieces[n - 2] in {"blobs", "manifests"} && IsDigestPiece(pieces[n - 1])
  }

  /** The lower-case digest a path pins its content to, or the empty string. */
  function ExtractOCIDigest(path: string): string {
    var pieces := Split(path);
    if IsPinnedPath(pieces) then FoldAll(pieces[|pieces| - 1][|DIGEST_PREFIX|..]) else ""
  }

  predicate VerifyDigest(hexSum: Bytes -> string, body: Bytes, digest: string) {
    digest == "" || EqualFold(hexSum(body), digest)
  }

  /** The parts of the source's regular expression: two or more non-empty name segments,
      blobs or manifests, and 64 hex digits. */
  ghost predicate AreParts(names: seq<string>, kind: string, hex: string) {
    && |names| >= 2 && SlashFree(names) && (forall i :: 0 <= i < |names| ==> names[i] != "")
    && kind in {"blobs", "manifests"}
    && |hex| == 64 && (forall i :: 0 <= i < 64 ==> IsHex(hex[i]))
  }

  function PiecesOf(names: seq<string>, kind: string, hex: string): (pieces: seq<string>)
    ensures pieces != []
  {
    ["", "v2"] + names + [kind, DIGEST_PREFIX + hex]
  }

  /** The expression read declaratively: /v2/, the names, the kind and the digest. */
  ghost predicate Matches(path: string, names: seq<string>, kind: string, hex: string) {
    AreParts(names, kind, hex) && path == Join(PiecesOf(names, kind, hex))
  }

  lemma MatchedIsExtracted(path: string, names: seq<string>, kind: string, hex: string)
    requires Matches(path, names, kind, hex)
    ensures ExtractOCIDigest(path) == FoldAll(hex) != ""
  {
    PartsArePinned(names, kind, hex);
    JoinThenSplit(PiecesOf(names, kind, hex));
  }

  lemma ExtractedIsMatched(path: string) returns (names: seq<string>, kind: string, hex: string)
    requires ExtractOCIDigest(path) != ""
    ensures Matches(path, names, kind, hex) && ExtractOCIDigest(path) == FoldAll(hex)
  {
    SplitThenJoin(path);
    names, kind, hex := PinnedHasParts(Split(path));
  }

  lemma PartsArePinned(names: seq<string>, kind: string, hex: string)
    requires AreParts(names, kind, hex)
    ensures var pieces := PiecesOf(names, kind, hex);
            IsPinnedPath(pieces) && SlashFree(pieces) && pieces[|pieces| - 1][|DIGEST_PREFIX|..] == hex
  {
    var pieces, piece := PiecesOf(names, kind, hex), DIGEST_PREFIX + hex;
    DigestPieceOf(hex);
    assert pieces[|pieces| - 1] == piece && pieces[|pieces| - 2] == kind;
    forall i | 2 <= i < |pieces| - 2
      ensures pieces[i] != "" && '/' !in pieces[i]
    {
      assert pieces[i] == names[i - 2];
    }
  }

  lemma DigestPieceOf(hex: string)
    requires |hex| == 64 && forall i :: 0 <= i < 64 ==> IsHex(hex[i])
    ensures IsDigestPiece(DIGEST_PREFIX + hex) && '/' !in DIGEST_PREFIX + hex
    ensures (DIGEST_PREFIX + hex)[|DIGEST_PREFIX|..] == hex
  {
    var piece := DIGEST_PREFIX + hex;
    forall i | |DIGEST_PREFIX| <= i < |piece|
      ensures IsHex(piece[i]) && piece[i] != '/'
    {
      assert piece[i] == hex[i - |DIGEST_PREFIX|];
    }
    assert '/' !in DIGEST_PREFIX;
  }

  lemma PinnedHasParts(pieces: seq<string>) returns (names: seq<string>, kind: string, hex: string)
    requires IsPinnedPath(pieces) && SlashFree(pieces)
    ensures AreParts(names, kind, hex) && pieces == PiecesOf(names, kind, hex)
    ensures hex == pieces[|pieces| - 1][|DIGEST_PREFIX|..]
  {
    var n, last := |pieces|, pieces[|pieces| - 1];
    names, kind, hex := pieces[2..n - 2], pieces[n - 2], last[|DIGEST_PREFIX|..];
    DigestPieceParts(last);
    MiddlePieces(pieces, names, kind, last);
  }

  lemma MiddlePieces(pieces: seq<string>, names: seq<string>, kind: string, last: string)
    requires |pieces| >= 4 && SlashFree(pieces)
    requires names == pieces[2..|pieces| - 2] && kind == pieces[|pieces| - 2] && last == pieces[|pieces| - 1]
    ensures pieces == [pieces[0], pieces[1]] + names + [kind, last]
    ensures SlashFree(names) && forall i :: 0 <= i < |names| ==> names[i] == pieces[i + 2]
  {
  }

  lemma DigestPieceParts(piece: string)
    requires IsDigestPiece(piece)
    ensures var hex := piece[|DIGEST_PREFIX|..];
            piece == DIGEST_PREFIX + hex && |hex| == 64 && forall i :: 0 <= i < 64 ==> IsHex(hex[i])
  {
    var hex := piece[|DIGEST_PREFIX|..];
    forall i | 0 <= i < 64 ensures IsHex(hex[i]) { assert hex[i] == piece[i + |DIGEST_PREFIX|]; }
  }

  /** A path pins content exactly when the expression matches it, and the digest is the
      lower-case form of the captured one. */
  lemma ExtractIff(path: string, digest: string)
    requires digest != ""
    ensures ExtractOCIDigest(path) == digest
            <==> exists names, kind, hex :: Matches(path, names, kind, hex) && digest == FoldAll(hex)
  {
    if ExtractOCIDigest(path) == digest {
      var names, kind, hex := ExtractedIsMatched(path);
    }
    if names, kind, hex :| Matches(path, names, kind, hex) && digest == FoldAll(hex) {
      MatchedIsExtracted(path, names, kind, hex);
    }
  }
}
