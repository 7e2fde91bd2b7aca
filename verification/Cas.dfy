/** The content-addressed archive: one blob per distinct body digest, one meta file per
    key, and an index from keys to digests. */
module Cas {
  import opened Common
  import opened ArchiveSpec

  datatype CasEntry = CasEntry(metaDigest: string, bodyDigest: string)

  /** The directory of a closed archive. */
  datatype CasDir = CasDir(blobs: map<string, Bytes>, metaFiles: map<string, Bytes>, index: map<string, CasEntry>)

  /** The first body added under a digest: later ones find the blob file present. */
  function FirstBody(hash: Bytes -> string, items: seq<Item>, digest: string): Option<Bytes> {
    if items == [] then None
    else
      match FirstBody(hash, items[..|items| - 1], digest)
      case Some(body) => Some(body)
      case None =>
        var last := items[|items| - 1];
        if hash(last.body) == digest then Some(last.body) else None
  }

  lemma FirstBodyAppend(hash: Bytes -> string, items: seq<Item>, item: Item, digest: string)
    ensures FirstBody(hash, items + [item], digest) ==
            match FirstBody(hash, items, digest)
            case Some(body) => Some(body)
            case None => if hash(item.body) == digest then Some(item.body) else None
  {
    assert (items + [item])[..|items|] == items;
  }

  lemma {:induction false} FirstBodyIsAdded(hash: Bytes -> string, items: seq<Item>, digest: string)
    ensures FirstBody(hash, items, digest).Some? ==>
              exists item <- items :: item.body == FirstBody(hash, items, digest).value && hash(item.body) == digest
    decreases |items|
  {
    if items != [] {
      FirstBodyIsAdded(hash, items[..|items| - 1], digest);
      assert items[|items| - 1] in items;
    }
  }

  class CasWriter {
    const hash: Bytes -> string
    var blobs: map<string, Bytes>
    var metaFiles: map<string, Bytes>
    var index: map<string, CasEntry>
    ghost var added: seq<Item>

    ghost predicate Valid()
      reads this
    {
      IsDirOf(hash, CasDir(blobs, metaFiles, index), added)
    }

    constructor (hash: Bytes -> string)
      ensures Valid() && added == [] && this.hash == hash
    {
      this.hash := hash;
      blobs, metaFiles, index, added := map[], map[], map[], [];
    }

    /** The body blob is written first; an Add that fails adds nothing to the index. */
    method Add(key: string, meta: Bytes, body: Bytes, fault: AddFault) returns (ok: bool)
      requires Valid()
      modifies this
      ensures ok == !(fault.MetaFails? || fault.BodyFails?)
      ensures ok ==> Valid() && added == old(added) + [Item(key, meta, body)]
      ensures !ok ==> index == old(index) && metaFiles == old(metaFiles)
    {
      var item := Item(key, meta, body);
      ghost var before := CasDir(blobs, metaFiles, index);
      AddToDir(hash, before, added, item);
      if fault.BodyFails? {
        return false;
      }
      var bodyDigest := hash(body);
      if bodyDigest !in blobs {
        blobs := blobs[bodyDigest := body];
      }
      if fault.MetaFails? {
        return false;
      }
      var metaDigest := hash(meta);
      metaFiles := metaFiles[key := meta];
      index := index[key := CasEntry(metaDigest, bodyDigest)];
      added := added + [item];
      assert CasDir(blobs, metaFiles, index) == AfterAdd(hash, before, item);
      return true;
    }

    method Close(fails: bool) returns (dir: Option<CasDir>)
      requires Valid()
      ensures dir.None? <==> fails
      ensures dir.Some? ==> IsDirOf(hash, dir.value, added)
    {
      dir := if fails then None else Some(CasDir(blobs, metaFiles, index));
    }
  }

  function AfterAdd(hash: Bytes -> string, dir: CasDir, item: Item): CasDir {
    CasDir(if hash(item.body) in dir.blobs then dir.blobs else dir.blobs[hash(item.body) := item.body],
           dir.metaFiles[item.key := item.meta],
           dir.index[item.key := CasEntry(hash(item.meta), hash(item.body))])
  }

  /** The directory after exactly these adds, in terms of the map it should serve. */
  ghost predicate IsDirOf(hash: Bytes -> string, dir: CasDir, items: seq<Item>) {
    var content := LastWins(items);
    && dir.index.Keys == content.Keys && dir.metaFiles.Keys == content.Keys
    && (forall key <- content ::
          dir.metaFiles[key] == content[key].meta &&
          dir.index[key] == CasEntry(hash(content[key].meta), hash(content[key].body)))
    && (forall digest :: digest in dir.blobs <==> FirstBody(hash, items, digest).Some?)
    && (forall digest <- dir.blobs :: FirstBody(hash, items, digest) == Some(dir.blobs[digest]))
    && (forall key <- content :: hash(content[key].body) in dir.blobs)
  }

  lemma AddToDir(hash: Bytes -> string, dir: CasDir, items: seq<Item>, item: Item)
    requires IsDirOf(hash, dir, items)
    ensures IsDirOf(hash, AfterAdd(hash, dir, item), items + [item])
  {
    LastWinsAppend(items, item);
    forall digest { FirstBodyAppend(hash, items, item, digest); }
  }

  /** casReader.Get; a missing file is an error like a missing key. */
  method Get(dir: CasDir, key: string) returns (r: GetResult)
    ensures r == Read(dir, key)
  {
    if key !in dir.index {
      return NotFound;
    }
    var entry := dir.index[key];
    if key !in dir.metaFiles || entry.bodyDigest !in dir.blobs {
      return NotFound;
    }
    r := Found(dir.metaFiles[key], dir.blobs[entry.bodyDigest]);
  }

  function Read(dir: CasDir, key: string): GetResult {
    if key in dir.index && key in dir.metaFiles && dir.index[key].bodyDigest in dir.blobs
    then Found(dir.metaFiles[key], dir.blobs[dir.index[key].bodyDigest])
    else NotFound
  }

  /** No two different bodies among the adds share a digest. */
  ghost predicate NoCollision(hash: Bytes -> string, items: seq<Item>) {
    forall a, b :: a in items && b in items && hash(a.body) == hash(b.body) ==> a.body == b.body
  }

  /** What the archive serves for a key is right exactly when the first body stored under
      the digest of the key's last body is that body. */
  lemma ServesKeyIff(hash: Bytes -> string, dir: CasDir, items: seq<Item>, key: string)
    requires IsDirOf(hash, dir, items)
    ensures Read(dir, key) == LookupIn(LastWins(items), key)
            <==> (key in LastWins(items) ==>
                    FirstBody(hash, items, hash(LastWins(items)[key].body)) == Some(LastWins(items)[key].body))
  {
  }

  /** Barring a digest collision among the bodies added, the archive serves the last
      entry of every key and no other key. */
  lemma RoundTrip(hash: Bytes -> string, dir: CasDir, items: seq<Item>)
    requires IsDirOf(hash, dir, items) && NoCollision(hash, items)
    ensures forall key :: Read(dir, key) == LookupIn(LastWins(items), key)
    ensures dir.index.Keys == LastWins(items).Keys
  {
    forall key
      ensures Read(dir, key) == LookupIn(LastWins(items), key)
    {
      ServesKeyIff(hash, dir, items, key);
      if key in LastWins(items) {
        var body := LastWins(items)[key].body;
        FirstBodyIsAdded(hash, items, hash(body));
        LastBodyIsAdded(items, key);
      }
    }
  }

  lemma {:induction false} LastBodyIsAdded(items: seq<Item>, key: string)
    requires key in LastWins(items)
    ensures exists item <- items :: item.key == key && item.body == LastWins(items)[key].body
    decreases |items|
  {
    var last := items[|items| - 1];
    if last.key == key {
      assert last in items;
    } else {
      LastBodyIsAdded(items[..|items| - 1], key);
    }
  }
}
