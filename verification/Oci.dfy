/** The OCI image layout archive: entries chunked into tar layers, every layer, the
    config and the manifest stored by digest and reached from the index
    (Image Layout Specification of the OCI Image Format Specification). */
module Oci {
  import opened Common
  import opened ArchiveSpec

  const DEFAULT_ENTRIES_PER_LAYER: nat := 1000
  const DIGEST_PREFIX := "sha256:"

  datatype Descriptor = Descriptor(digest: string, size: nat)

  datatype Manifest = Manifest(config: Descriptor, layers: seq<Descriptor>)

  /** The byte encodings the archive relies on: tar for layers, JSON for the rest. */
  datatype Encodings = Encodings(
    tar: seq<TarRecord> -> Bytes, untar: Bytes -> seq<TarRecord>,
    config: KeyCodec,
    encodeManifest: Manifest -> Bytes, decodeManifest: Bytes -> Option<Manifest>)
  {
    ghost predicate RoundTrips() {
      && (forall records :: untar(tar(records)) == records)
      && config.RoundTrips()
      && (forall m :: decodeManifest(encodeManifest(m)) == Some(m))
    }
  }

  type Blobs = map<string, Bytes>

  /** A closed archive: the blob directory and the manifests of index.json. */
  datatype Layout = Layout(blobs: Blobs, manifests: seq<Descriptor>)

  function DigestOf(hash: Bytes -> string, data: Bytes): string {
    DIGEST_PREFIX + hash(data)
  }

  function TrimPrefix(s: string, prefix: string): string {
    if prefix <= s then s[|prefix|..] else s
  }

  function ReadBlob(blobs: Blobs, digest: string): Option<Bytes> {
    var hex := TrimPrefix(digest, DIGEST_PREFIX);
    if hex in blobs then Some(blobs[hex]) else None
  }

  /** No two different blobs among those written share a digest. */
  ghost predicate NoCollision(hash: Bytes -> string, written: set<Bytes>) {
    forall a, b :: a in written && b in written && hash(a) == hash(b) ==> a == b
  }

  /** The blob directory holds what was written, each file under its own digest. */
  ghost predicate HoldsWritten(hash: Bytes -> string, blobs: Blobs, written: set<Bytes>) {
    && (forall data <- written :: hash(data) in blobs)
    && (forall hex <- blobs :: blobs[hex] in written && hash(blobs[hex]) == hex)
  }

  /** Reading by digest gives back what was written. */
  lemma ReadBack(hash: Bytes -> string, blobs: Blobs, written: set<Bytes>, data: Bytes)
    requires HoldsWritten(hash, blobs, written) && NoCollision(hash, written) && data in written
    ensures ReadBlob(blobs, DigestOf(hash, data)) == Some(data)
  {
    var digest := DigestOf(hash, data);
    assert digest[|DIGEST_PREFIX|..] == hash(data);
  }

  // ---- chunks ----

  function Flatten(chunks: seq<seq<Item>>): seq<Item> {
    if chunks == [] then [] else Flatten(chunks[..|chunks| - 1]) + chunks[|chunks| - 1]
  }

  lemma FlattenAppend(chunks: seq<seq<Item>>, chunk: seq<Item>)
    ensures Flatten(chunks + [chunk]) == Flatten(chunks) + chunk
  {
    assert (chunks + [chunk])[..|chunks|] == chunks;
  }

  function LayerData(enc: Encodings, chunk: seq<Item>): Bytes {
    enc.tar(RecordsOf(chunk))
  }

  function LayerDescriptor(enc: Encodings, hash: Bytes -> string, chunk: seq<Item>): Descriptor {
    Descriptor(DigestOf(hash, LayerData(enc, chunk)), |LayerData(enc, chunk)|)
  }

  /** Each layer stores its chunk, in order, and is among the written blobs. */
  ghost predicate LayersStore(enc: Encodings, hash: Bytes -> string, layers: seq<Descriptor>,
                              chunks: seq<seq<Item>>, written: set<Bytes>) {
    |layers| == |chunks| &&
    forall i :: 0 <= i < |chunks| ==>
      layers[i] == LayerDescriptor(enc, hash, chunks[i]) && LayerData(enc, chunks[i]) in written
  }

  /** A chunk stored as one more layer. */
  lemma LayerAdded(enc: Encodings, hash: Bytes -> string, layers: seq<Descriptor>,
                   chunks: seq<seq<Item>>, written: set<Bytes>, chunk: seq<Item>)
    requires LayersStore(enc, hash, layers, chunks, written)
    ensures LayersStore(enc, hash, layers + [LayerDescriptor(enc, hash, chunk)], chunks + [chunk],
                        written + {LayerData(enc, chunk)})
    ensures Flatten(chunks + [chunk]) + [] == Flatten(chunks) + chunk
  {
    FlattenAppend(chunks, chunk);
  }

  lemma NothingPending(stored: seq<Item>)
    ensures stored + [] == stored
  {
  }

  lemma PendingAdded(stored: seq<Item>, pending: seq<Item>, item: Item)
    ensures stored + (pending + [item]) == (stored + pending) + [item]
  {
  }

  lemma LayersKept(enc: Encodings, hash: Bytes -> string, layers: seq<Descriptor>,
                   chunks: seq<seq<Item>>, written: set<Bytes>, more: set<Bytes>)
    requires LayersStore(enc, hash, layers, chunks, written) && written <= more
    ensures LayersStore(enc, hash, layers, chunks, more)
  {
  }

  /** Every layer but the last holds exactly `n` entries, and the last at most `n`. */
  predicate Chunked(chunks: seq<seq<Item>>, n: nat) {
    forall i :: 0 <= i < |chunks| ==> 0 < |chunks[i]| <= n && (i < |chunks| - 1 ==> |chunks[i]| == n)
  }

  predicate AllFull(chunks: seq<seq<Item>>, n: nat) {
    forall chunk <- chunks :: |chunk| == n
  }

  lemma FullAppend(chunks: seq<seq<Item>>, chunk: seq<Item>, n: nat)
    requires AllFull(chunks, n) && |chunk| == n
    ensures AllFull(chunks + [chunk], n)
  {
  }

  /** Full chunks followed by a smaller one. */
  lemma LastMayBeSmaller(chunks: seq<seq<Item>>, last: seq<Item>, n: nat)
    requires AllFull(chunks, n) && |last| < n
    ensures Chunked(if last == [] then chunks else chunks + [last], n)
  {
  }

  /** A layout closed after exactly these adds. */
  ghost predicate IsLayoutOf(enc: Encodings, hash: Bytes -> string, layout: Layout, chunks: seq<seq<Item>>,
                             written: set<Bytes>, n: nat, items: seq<Item>) {
    && HoldsWritten(hash, layout.blobs, written)
    && Flatten(chunks) == items && Chunked(chunks, n)
    && exists layers: seq<Descriptor> :: IsClosedWith(enc, hash, layout, layers, chunks, written, items)
  }

  ghost predicate IsClosedWith(enc: Encodings, hash: Bytes -> string, layout: Layout, layers: seq<Descriptor>,
                               chunks: seq<seq<Item>>, written: set<Bytes>, items: seq<Item>) {
    var config := enc.config.encode(ItemKeys(items));
    var manifest := enc.encodeManifest(Manifest(Descriptor(DigestOf(hash, config), |config|), layers));
    && LayersStore(enc, hash, layers, chunks, written)
    && config in written && manifest in written
    && layout.manifests == [Descriptor(DigestOf(hash, manifest), |manifest|)]
  }

  /** Which write of a Close fails, if one does; the index stands for both of its files. */
  datatype CloseFault = CloseWorks | LastLayerFails | ConfigFails | ManifestFails | IndexFails

  predicate CloseFails(fault: CloseFault, pending: seq<Item>) {
    fault.ConfigFails? || fault.ManifestFails? || fault.IndexFails? || (fault.LastLayerFails? && pending != [])
  }

  class OciWriter {
    const enc: Encodings
    const hash: Bytes -> string
    const entriesPerLayer: nat
    var pending: seq<Item>
    var layers: seq<Descriptor>
    var keys: seq<string>
    var blobs: Blobs
    ghost var chunks: seq<seq<Item>>
    ghost var written: set<Bytes>
    ghost var added: seq<Item>

    /** Between calls the pending entries are fewer than a layer holds, every layer is
        full, and layers followed by pending are the adds in order. */
    ghost predicate Valid()
      reads this
    {
      entriesPerLayer > 0 && |pending| < entriesPerLayer && InOrder() && StoresLayers() && AllFull(chunks, entriesPerLayer)
    }

    ghost predicate InOrder()
      reads `chunks, `pending, `added, `keys
    {
      Flatten(chunks) + pending == added && keys == ItemKeys(added)
    }

    ghost predicate StoresLayers()
      reads `layers, `chunks, `written, `blobs
    {
      LayersStore(enc, hash, layers, chunks, written) && HoldsWritten(hash, blobs, written)
    }

    constructor (enc: Encodings, hash: Bytes -> string, entriesPerLayer: nat)
      ensures Valid() && added == [] && this.enc == enc && this.hash == hash
      ensures this.entriesPerLayer == if entriesPerLayer > 0 then entriesPerLayer else DEFAULT_ENTRIES_PER_LAYER
    {
      this.enc, this.hash := enc, hash;
      this.entriesPerLayer := if entriesPerLayer > 0 then entriesPerLayer else DEFAULT_ENTRIES_PER_LAYER;
      pending, layers, keys, blobs := [], [], [], map[];
      chunks, written, added := [], {}, [];
    }

    method WriteBlob(data: Bytes, fails: bool) returns (digest: Option<string>)
      requires HoldsWritten(hash, blobs, written)
      modifies this`blobs, this`written
      ensures HoldsWritten(hash, blobs, written)
      ensures digest == if fails then None else Some(DigestOf(hash, data))
      ensures written == if fails then old(written) else old(written) + {data}
      ensures fails ==> blobs == old(blobs)
    {
      if fails {
        return None;
      }
      // Writing over a file under the same digest leaves the later data there.
      blobs := blobs[hash(data) := data];
      written := written + {data};
      return Some(DIGEST_PREFIX + hash(data));
    }

    /** An Add whose layer cannot be written keeps the entry pending. */
    method Add(key: string, meta: Bytes, body: Bytes, fault: AddFault) returns (ok: bool)
      requires Valid()
      modifies this
      ensures ok == (!fault.BodyFails? && (fault.LayerFails? ==> |old(pending)| + 1 < entriesPerLayer))
      ensures ok ==> Valid() && added == old(added) + [Item(key, meta, body)]
      ensures !ok ==> InOrder() && StoresLayers() && chunks == old(chunks)
    {
      if fault.BodyFails? {
        return false;
      }
      Enqueue(Item(key, meta, body));
      ok := true;
      if |pending| >= entriesPerLayer {
        FullAppend(chunks, pending, entriesPerLayer);
        ok := FlushLayer(fault.LayerFails?);
      }
    }

    method Enqueue(item: Item)
      requires InOrder()
      modifies this`pending, this`keys, this`added
      ensures InOrder() && pending == old(pending) + [item] && added == old(added) + [item]
    {
      PendingAdded(Flatten(chunks), pending, item);
      ItemKeysAppend(added, item);
      pending := pending + [item];
      keys := keys + [item.key];
      added := added + [item];
    }

    method FlushLayer(fails: bool) returns (ok: bool)
      requires InOrder() && StoresLayers()
      modifies this`pending, this`layers, this`blobs, this`chunks, this`written
      ensures InOrder() && StoresLayers()
      ensures ok == (old(pending) == [] || !fails)
      ensures ok ==> pending == [] && chunks == if old(pending) == [] then old(chunks) else old(chunks) + [old(pending)]
      ensures !ok ==> pending == old(pending) && chunks == old(chunks) && layers == old(layers)
    {
      if |pending| == 0 {
        return true;
      }
      var data := enc.tar(RecordsOf(pending));
      var digest := WriteBlob(data, fails);
      if digest.None? {
        return false;
      }
      AddLayer(Descriptor(digest.value, |data|), old(written));
      return true;
    }

    /** The layer just written is listed and the pending entries are dropped. */
    method AddLayer(layer: Descriptor, ghost before: set<Bytes>)
      requires InOrder() && LayersStore(enc, hash, layers, chunks, before) && HoldsWritten(hash, blobs, written)
      requires layer == LayerDescriptor(enc, hash, pending) && written == before + {LayerData(enc, pending)}
      modifies this`pending, this`layers, this`chunks
      ensures InOrder() && StoresLayers() && pending == [] && chunks == old(chunks) + [old(pending)]
    {
      LayerAdded(enc, hash, layers, chunks, before, pending);
      layers := layers + [layer];
      chunks := chunks + [pending];
      pending := [];
    }

    /** The remaining entries become a last layer; then config, manifest and index. */
    method Close(fault: CloseFault) returns (layout: Option<Layout>)
      requires Valid()
      modifies this
      ensures added == old(added)
      ensures layout.None? <==> CloseFails(fault, old(pending))
      ensures layout.Some? ==> IsLayoutOf(enc, hash, layout.value, chunks, written, entriesPerLayer, added)
    {
      LastMayBeSmaller(chunks, pending, entriesPerLayer);
      var ok := FlushLayer(fault.LastLayerFails?);
      if !ok {
        return None;
      }
      NothingPending(Flatten(chunks));
      layout := WriteIndex(fault);
    }

    /** The config, the manifest and the index that names it. */
    method WriteIndex(fault: CloseFault) returns (layout: Option<Layout>)
      requires StoresLayers() && keys == ItemKeys(added)
      modifies this`blobs, this`written
      ensures layout.None? <==> fault.ConfigFails? || fault.ManifestFails? || fault.IndexFails?
      ensures layout.Some? ==> HoldsWritten(hash, layout.value.blobs, written)
      ensures layout.Some? ==> IsClosedWith(enc, hash, layout.value, layers, chunks, written, added)
    {
      ghost var before := written;
      var config := enc.config.encode(keys);
      var configDigest := WriteBlob(config, fault.ConfigFails?);
      if configDigest.None? {
        return None;
      }
      var manifest := enc.encodeManifest(Manifest(Descriptor(configDigest.value, |config|), layers));
      var manifestDigest := WriteBlob(manifest, fault.ManifestFails?);
      if manifestDigest.None? || fault.IndexFails? {
        return None;
      }
      layout := Some(Layout(blobs, [Descriptor(manifestDigest.value, |manifest|)]));
      LayersKept(enc, hash, layers, chunks, before, written);
    }
  }

  // ---- reading ----

  /** All layers unpacked in order, a later layer replacing an earlier one name by name. */
  function ReadLayers(enc: Encodings, blobs: Blobs, layers: seq<Descriptor>): Option<Objects> {
    if layers == [] then Some(map[])
    else
      match ReadLayers(enc, blobs, layers[..|layers| - 1])
      case None => None
      case Some(before) =>
        match ReadBlob(blobs, layers[|layers| - 1].digest)
        case None => None
        case Some(data) => Some(before + Unpack(enc.untar(data)))
  }

  function ReadLayout(enc: Encodings, layout: Layout): Option<MapReader> {
    if layout.manifests == [] then None
    else
      match ReadBlob(layout.blobs, layout.manifests[0].digest)
      case None => None
      case Some(manifestData) =>
        match enc.decodeManifest(manifestData)
        case None => None
        case Some(manifest) =>
          match ReadBlob(layout.blobs, manifest.config.digest)
          case None => None
          case Some(configData) =>
            match enc.config.decode(configData)
            case None => None
            case Some(keys) =>
              match ReadLayers(enc, layout.blobs, manifest.layers)
              case None => None
              case Some(entries) => Some(MapReader(entries, keys))
  }

  lemma {:induction false} LayersReadBack(enc: Encodings, hash: Bytes -> string, blobs: Blobs,
                                          layers: seq<Descriptor>, chunks: seq<seq<Item>>, written: set<Bytes>)
    requires enc.RoundTrips()
    requires LayersStore(enc, hash, layers, chunks, written)
    requires HoldsWritten(hash, blobs, written) && NoCollision(hash, written)
    ensures ReadLayers(enc, blobs, layers) == Some(Unpack(RecordsOf(Flatten(chunks))))
    decreases |chunks|
  {
    if chunks != [] {
      var init, last := chunks[..|chunks| - 1], chunks[|chunks| - 1];
      LayersReadBack(enc, hash, blobs, layers[..|layers| - 1], init, written);
      ReadBack(hash, blobs, written, LayerData(enc, last));
      assert enc.untar(enc.tar(RecordsOf(last))) == RecordsOf(last);
      RecordsOfConcat(Flatten(init), last);
      UnpackConcat(RecordsOf(Flatten(init)), RecordsOf(last));
    }
  }

  /** Barring a digest collision among the blobs written, a closed layout opens through
      index, manifest, config and layers, and serves the last entry of every key. */
  lemma RoundTrip(enc: Encodings, hash: Bytes -> string, layout: Layout, chunks: seq<seq<Item>>,
                  written: set<Bytes>, n: nat, items: seq<Item>)
    requires enc.RoundTrips()
    requires IsLayoutOf(enc, hash, layout, chunks, written, n, items)
    requires NoCollision(hash, written)
    ensures ReadLayout(enc, layout) == Some(MapReader(Unpack(RecordsOf(items)), ItemKeys(items)))
    ensures Serves(ReadLayout(enc, layout).value, items)
  {
    var layers :| IsClosedWith(enc, hash, layout, layers, chunks, written, items);
    var config := enc.config.encode(ItemKeys(items));
    var manifest := Manifest(Descriptor(DigestOf(hash, config), |config|), layers);
    ReadBack(hash, layout.blobs, written, enc.encodeManifest(manifest));
    assert enc.decodeManifest(enc.encodeManifest(manifest)) == Some(manifest);
    ReadBack(hash, layout.blobs, written, config);
    assert enc.config.decode(config) == Some(ItemKeys(items));
    LayersReadBack(enc, hash, layout.blobs, layers, chunks, written);
    UnpackedServes(items);
  }

  /** The records of a tar, name by name; a later record of a name wins. */
  method ReadTarBytes(enc: Encodings, data: Bytes) returns (files: Objects)
    ensures files == LastByName(enc.untar(data))
  {
    var records := enc.untar(data);
    files := map[];
    for i := 0 to |records|
      invariant files == LastByName(records[..i])
    {
      assert records[..i + 1][..i] == records[..i];
      files := files[records[i].name := records[i].data];
    }
    assert records[..|records|] == records;
  }

  function LastByName(records: seq<TarRecord>): Objects {
    if records == [] then map[]
    else LastByName(records[..|records| - 1])[records[|records| - 1].name := records[|records| - 1].data]
  }

  /** Dropping the names that are not entry halves leaves what Unpack gives. */
  lemma {:induction false} HalvesOfLast(records: seq<TarRecord>)
    ensures Unpack(records) == map name | name in LastByName(records) && !name.OtherName? :: LastByName(records)[name]
    decreases |records|
  {
    if records != [] {
      HalvesOfLast(records[..|records| - 1]);
    }
  }

  /** OCIFormat.NewReader. */
  method Open(enc: Encodings, layout: Layout) returns (r: Option<MapReader>)
    ensures r == ReadLayout(enc, layout)
  {
    if |layout.manifests| == 0 {
      return None;
    }
    var manifestData := ReadBlob(layout.blobs, layout.manifests[0].digest);
    if manifestData.None? {
      return None;
    }
    var manifest := enc.decodeManifest(manifestData.value);
    if manifest.None? {
      return None;
    }
    var configData := ReadBlob(layout.blobs, manifest.value.config.digest);
    if configData.None? {
      return None;
    }
    var keys := enc.config.decode(configData.value);
    if keys.None? {
      return None;
    }
    var entries := OpenLayers(enc, layout.blobs, manifest.value.layers);
    if entries.None? {
      return None;
    }
    return Some(MapReader(entries.value, keys.value));
  }

  method OpenLayers(enc: Encodings, blobs: Blobs, layers: seq<Descriptor>) returns (r: Option<Objects>)
    ensures r == ReadLayers(enc, blobs, layers)
  {
    var entries: Objects := map[];
    for i := 0 to |layers|
      invariant ReadLayers(enc, blobs, layers[..i]) == Some(entries)
    {
      assert layers[..i + 1][..i] == layers[..i];
      var data := ReadBlob(blobs, layers[i].digest);
      if data.None? {
        LayersFail(enc, blobs, layers, i + 1);
        return None;
      }
      var files := ReadTarBytes(enc, data.value);
      HalvesOfLast(enc.untar(data.value));
      entries := MergeHalves(entries, files);
    }
    assert layers[..|layers|] == layers;
    return Some(entries);
  }

  /** The halves found in one layer replace what earlier layers gave; the layer's files
      are visited in no particular order. */
  method MergeHalves(entries: Objects, files: Objects) returns (r: Objects)
    ensures r == entries + map name | name in files && !name.OtherName? :: files[name]
  {
    r := entries;
    var todo := files.Keys;
    while todo != {}
      invariant todo <= files.Keys
      invariant r == entries + map name | name in files && name !in todo && !name.OtherName? :: files[name]
      decreases todo
    {
      var name :| name in todo;
      if name.MetaName? || name.BodyName? {
        r := r[name := files[name]];
      }
      todo := todo - {name};
    }
  }

  lemma {:induction false} LayersFail(enc: Encodings, blobs: Blobs, layers: seq<Descriptor>, n: nat)
    requires n <= |layers| && ReadLayers(enc, blobs, layers[..n]) == None
    ensures ReadLayers(enc, blobs, layers) == None
    decreases |layers| - n
  {
    if n == |layers| {
      assert layers[..n] == layers;
    } else {
      assert layers[..n + 1][..n] == layers[..n];
      LayersFail(enc, blobs, layers, n + 1);
    }
  }
}
