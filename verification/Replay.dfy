/** Recording and replay: the names put while recording decide what is archived, and the
    archive is read back as a read-only storage. */
module Replay {
  import opened Common
  import opened CacheSpec
  import opened CacheObject
  import opened ArchiveSpec
  import TarGz
  import Oci
  import Cas

  // ---- what is archived ----

  function BaseKey(text: string): string {
    match ParseName(text)
    case MetaName(key) => key
    case BodyName(key) => key
    case OtherName(t) => t
  }

  predicate HasBothHalves(objects: Objects, key: string) {
    MetaName(key) in objects && BodyName(key) in objects
  }

  /** What fails when a finalize archives one key: opening the meta, the rest of its bytes
      (an error the code ignores), opening the body, or the Add. */
  datatype ItemFault = ItemFault(openMeta: bool, cutMeta: Option<nat>, openBody: bool, add: AddFault)

  const READ_THROUGH: string -> ItemFault := _ => ItemFault(false, None, false, AddWorks)

  /** The halves a finalize reads of a key; a key without two readable halves is skipped. */
  function PairRead(objects: Objects, key: string, f: ItemFault): Option<Pair> {
    if f.openMeta || f.openBody || !HasBothHalves(objects, key) then None
    else Some(Pair(BytesRead(objects[MetaName(key)], f.cutMeta), objects[BodyName(key)]))
  }

  /** The one item a recorded key contributes, if it contributes any. */
  function ItemFor(objects: Objects, key: string, f: ItemFault): seq<Item> {
    match PairRead(objects, key, f)
    case None => []
    case Some(pair) => [Item(key, pair.meta, pair.body)]
  }

  /** The archive adds of a finalize: each recorded key once, in order of its first
      recording, if both halves can be read from storage at that moment. */
  function ItemsOf(objects: Objects, faults: string -> ItemFault, log: seq<string>, seen: set<string>): seq<Item> {
    if log == [] then []
    else
      var key := BaseKey(log[0]);
      if key in seen then ItemsOf(objects, faults, log[1..], seen)
      else ItemFor(objects, key, faults(key)) + ItemsOf(objects, faults, log[1..], seen + {key})
  }

  /** Keys with at least one recorded half and both halves present. */
  function ArchivedKeys(objects: Objects, log: seq<string>): set<string> {
    set text | text in log && HasBothHalves(objects, BaseKey(text)) :: BaseKey(text)
  }

  /** Those whose halves can be read. */
  function ReadKeys(objects: Objects, faults: string -> ItemFault, log: seq<string>): set<string> {
    set text | text in log && PairRead(objects, BaseKey(text), faults(BaseKey(text))).Some? :: BaseKey(text)
  }

  /** The storage restricted to the archived keys. */
  function Restricted(objects: Objects, keys: set<string>): Objects {
    map name | name in objects && !name.OtherName? && name.key in keys :: objects[name]
  }

  lemma {:induction false} ItemsAreRead(objects: Objects, faults: string -> ItemFault, log: seq<string>, seen: set<string>, item: Item)
    requires item in ItemsOf(objects, faults, log, seen)
    ensures item.key !in seen && item.key in ReadKeys(objects, faults, log)
    ensures PairRead(objects, item.key, faults(item.key)) == Some(Pair(item.meta, item.body))
    decreases |log|
  {
    var key := BaseKey(log[0]);
    if key !in seen && item in ItemFor(objects, key, faults(key)) {
      assert log[0] in log;
    } else {
      var seen' := if key in seen then seen else seen + {key};
      ItemsAreRead(objects, faults, log[1..], seen', item);
      var text :| text in log[1..] && BaseKey(text) == item.key;
      assert text in log;
    }
  }

  /** Each archived key is added exactly once. */
  lemma {:induction false} EachKeyOnce(objects: Objects, faults: string -> ItemFault, log: seq<string>, seen: set<string>)
    ensures Distinct(ItemKeys(ItemsOf(objects, faults, log, seen)))
    decreases |log|
  {
    if log != [] {
      var key := BaseKey(log[0]);
      var seen' := if key in seen then seen else seen + {key};
      var rest := ItemsOf(objects, faults, log[1..], seen');
      EachKeyOnce(objects, faults, log[1..], seen');
      forall i | 0 <= i < |rest|
        ensures rest[i].key !in seen'
      {
        ItemsAreRead(objects, faults, log[1..], seen', rest[i]);
      }
      if key !in seen && PairRead(objects, key, faults(key)).Some? {
        var items := ItemsOf(objects, faults, log, seen);
        assert ItemKeys(items) == [key] + ItemKeys(rest);
      }
    }
  }

  lemma {:induction false} EveryKeyAdded(objects: Objects, faults: string -> ItemFault, log: seq<string>, seen: set<string>, key: string)
    requires key in ReadKeys(objects, faults, log) && key !in seen
    ensures exists item <- ItemsOf(objects, faults, log, seen) :: item.key == key
    decreases |log|
  {
    var text :| text in log && BaseKey(text) == key;
    var first := BaseKey(log[0]);
    if first == key {
      assert ItemsOf(objects, faults, log, seen)[0].key == key;
    } else {
      assert text in log[1..];
      var seen' := if first in seen then seen else seen + {first};
      EveryKeyAdded(objects, faults, log[1..], seen', key);
      var item :| item in ItemsOf(objects, faults, log[1..], seen') && item.key == key;
      assert item in ItemsOf(objects, faults, log, seen);
    }
  }

  /** What is added last for a key is its only add, so the archive holds exactly the keys
      read with the bytes read. */
  lemma ArchiveIsWhatWasRead(objects: Objects, faults: string -> ItemFault, log: seq<string>)
    ensures var content := LastWins(ItemsOf(objects, faults, log, {}));
            && content.Keys == ReadKeys(objects, faults, log)
            && (forall k <- content :: PairRead(objects, k, faults(k)) == Some(content[k]))
  {
    var items := ItemsOf(objects, faults, log, {});
    var content := LastWins(items);
    LastWinsKeys(items);
    EachKeyOnce(objects, faults, log, {});
    forall k
      ensures k in content <==> k in ReadKeys(objects, faults, log)
      ensures k in content ==> PairRead(objects, k, faults(k)) == Some(content[k])
    {
      if k in ReadKeys(objects, faults, log) {
        EveryKeyAdded(objects, faults, log, {}, k);
        var item :| item in items && item.key == k;
        var i :| 0 <= i < |items| && items[i] == item;
        assert ItemKeys(items)[i] == k;
      }
      if k in content {
        var i :| 0 <= i < |items| && ItemKeys(items)[i] == k;
        ItemsAreRead(objects, faults, log, {}, items[i]);
        forall j | i < j < |items| ensures items[j].key != k { assert ItemKeys(items)[j] != ItemKeys(items)[i]; }
        LastWinsIsLast(items, i);
      }
    }
  }

  /** Both halves of the key open and its meta does not break off. */
  predicate ReadsThrough(objects: Objects, key: string, f: ItemFault)
    requires HasBothHalves(objects, key)
  {
    !f.openMeta && !f.openBody && !BreaksOff(objects[MetaName(key)], f.cutMeta)
  }

  lemma PairReadIff(objects: Objects, key: string, f: ItemFault)
    requires HasBothHalves(objects, key)
    ensures PairRead(objects, key, f) == Some(Pair(objects[MetaName(key)], objects[BodyName(key)])) <==>
            ReadsThrough(objects, key, f)
  {
    ReadWholeIff(objects[MetaName(key)], f.cutMeta);
  }

  lemma ArchivedIff(objects: Objects, log: seq<string>, key: string)
    requires key in ArchivedKeys(objects, log)
    ensures HasBothHalves(objects, key)
  {
  }

  /** Every archived key opens and its meta does not break off. */
  ghost predicate AllReadThrough(objects: Objects, faults: string -> ItemFault, log: seq<string>) {
    forall k <- ArchivedKeys(objects, log) :: HasBothHalves(objects, k) && ReadsThrough(objects, k, faults(k))
  }

  /** Record and replay are exact precisely when every archived key reads through: then the
      archive, as a storage, is the base storage at finalize restricted to the archived keys,
      and every other name is not found. */
  lemma ReplayIsExactIff(objects: Objects, faults: string -> ItemFault, log: seq<string>)
    ensures ArchiveObjects(LastWins(ItemsOf(objects, faults, log, {}))) == Restricted(objects, ArchivedKeys(objects, log))
            <==> AllReadThrough(objects, faults, log)
  {
    ArchiveIsWhatWasRead(objects, faults, log);
    var content := LastWins(ItemsOf(objects, faults, log, {}));
    if AllReadThrough(objects, faults, log) {
      ReadThroughIsExact(objects, faults, log, content);
    } else {
      var k :| k in ArchivedKeys(objects, log) && !(HasBothHalves(objects, k) && ReadsThrough(objects, k, faults(k)));
      ArchivedIff(objects, log, k);
      UnreadIsNotExact(objects, faults, log, content, k);
    }
  }

  lemma ReadThroughIsExact(objects: Objects, faults: string -> ItemFault, log: seq<string>, content: Content)
    requires content.Keys == ReadKeys(objects, faults, log)
    requires forall k <- content :: PairRead(objects, k, faults(k)) == Some(content[k])
    requires AllReadThrough(objects, faults, log)
    ensures ArchiveObjects(content) == Restricted(objects, ArchivedKeys(objects, log))
  {
    var archive, restricted := ArchiveObjects(content), Restricted(objects, ArchivedKeys(objects, log));
    forall name
      ensures name in archive <==> name in restricted
      ensures name in archive ==> archive[name] == restricted[name]
    {
      NameIsExact(objects, faults, log, content, name);
    }
  }

  lemma UnreadIsNotExact(objects: Objects, faults: string -> ItemFault, log: seq<string>, content: Content, key: string)
    requires forall k <- content :: PairRead(objects, k, faults(k)) == Some(content[k])
    requires key in ArchivedKeys(objects, log) && HasBothHalves(objects, key) && !ReadsThrough(objects, key, faults(key))
    ensures ArchiveObjects(content) != Restricted(objects, ArchivedKeys(objects, log))
  {
    var archive, restricted := ArchiveObjects(content), Restricted(objects, ArchivedKeys(objects, log));
    PairReadIff(objects, key, faults(key));
    assert MetaName(key) in restricted && BodyName(key) in restricted;
    if MetaName(key) in archive && BodyName(key) in archive {
      assert content[key] != Pair(objects[MetaName(key)], objects[BodyName(key)]);
    }
  }

  lemma EntryIsExact(objects: Objects, faults: string -> ItemFault, log: seq<string>, content: Content, key: string)
    requires content.Keys == ReadKeys(objects, faults, log)
    requires forall k <- content :: PairRead(objects, k, faults(k)) == Some(content[k])
    requires AllReadThrough(objects, faults, log)
    ensures key in content <==> key in ArchivedKeys(objects, log)
    ensures key in content ==> HasBothHalves(objects, key) && content[key] == Pair(objects[MetaName(key)], objects[BodyName(key)])
  {
    if key in ArchivedKeys(objects, log) {
      PairReadIff(objects, key, faults(key));
      var text :| text in log && HasBothHalves(objects, BaseKey(text)) && BaseKey(text) == key;
      assert key in ReadKeys(objects, faults, log);
    }
    if key in content {
      var text :| text in log && PairRead(objects, BaseKey(text), faults(BaseKey(text))).Some? && BaseKey(text) == key;
      assert key in ArchivedKeys(objects, log);
      PairReadIff(objects, key, faults(key));
    }
  }

  lemma NameIsExact(objects: Objects, faults: string -> ItemFault, log: seq<string>, content: Content, name: Name)
    requires content.Keys == ReadKeys(objects, faults, log)
    requires forall k <- content :: PairRead(objects, k, faults(k)) == Some(content[k])
    requires AllReadThrough(objects, faults, log)
    ensures var archive, restricted := ArchiveObjects(content), Restricted(objects, ArchivedKeys(objects, log));
            && (name in archive <==> name in restricted)
            && (name in archive ==> archive[name] == restricted[name])
  {
    if !name.OtherName? { EntryIsExact(objects, faults, log, content, name.key); }
  }

  /** With working reads, in particular. */
  lemma ReplayIsExact(objects: Objects, log: seq<string>)
    ensures ArchiveObjects(LastWins(ItemsOf(objects, READ_THROUGH, log, {}))) == Restricted(objects, ArchivedKeys(objects, log))
  {
    ReplayIsExactIff(objects, READ_THROUGH, log);
  }

  // ---- the writers behind one interface ----

  datatype Writer = TarGzTarget(tgz: TarGz.TarGzWriter) | OciTarget(oci: Oci.OciWriter) | CasTarget(cas: Cas.CasWriter)

  function TargetOf(w: Writer): object {
    match w
    case TarGzTarget(t) => t
    case OciTarget(o) => o
    case CasTarget(c) => c
  }

  ghost predicate Valid(w: Writer)
    reads TargetOf(w)
  {
    match w
    case TarGzTarget(t) => t.Valid()
    case OciTarget(o) => o.Valid()
    case CasTarget(c) => c.Valid()
  }

  ghost function Added(w: Writer): seq<Item>
    reads TargetOf(w)
  {
    match w
    case TarGzTarget(t) => t.added
    case OciTarget(o) => o.added
    case CasTarget(c) => c.added
  }

  /** Which faults make an Add fail depends on the format; without one it succeeds. */
  method Add(w: Writer, item: Item, fault: AddFault) returns (ok: bool)
    requires Valid(w)
    modifies TargetOf(w)
    ensures fault.AddWorks? ==> ok
    ensures ok ==> Valid(w) && Added(w) == old(Added(w)) + [item]
  {
    match w
    case TarGzTarget(t) => ok := t.Add(item.key, item.meta, item.body, fault);
    case OciTarget(o) => ok := o.Add(item.key, item.meta, item.body, fault);
    case CasTarget(c) => ok := c.Add(item.key, item.meta, item.body, fault);
  }

  /** One more recorded name is one more key at most. */
  lemma ItemsStep(objects: Objects, faults: string -> ItemFault, log: seq<string>, i: nat, seen: set<string>, before: seq<Item>)
    requires i < |log|
    ensures var key, whole := BaseKey(log[i]), before + ItemsOf(objects, faults, log[i..], seen);
            if key in seen then whole == before + ItemsOf(objects, faults, log[i + 1..], seen)
            else whole == (before + ItemFor(objects, key, faults(key))) + ItemsOf(objects, faults, log[i + 1..], seen + {key})
  {
    assert log[i..][0] == log[i] && log[i..][1..] == log[i + 1..];
  }

  /** A key whose halves cannot both be opened in the base storage is passed over; an
      error in reading the rest of the meta is ignored. */
  method AddKey(store: Store, key: string, w: Writer, f: ItemFault) returns (ok: bool)
    requires Valid(w) && TargetOf(w) != store
    modifies TargetOf(w)
    ensures f.add.AddWorks? ==> ok
    ensures ok ==> Valid(w) && Added(w) == old(Added(w)) + ItemFor(store.objects, key, f)
    ensures store.objects == old(store.objects)
  {
    if f.openMeta || MetaName(key) !in store.objects {
      return true;
    }
    var meta := BytesRead(store.objects[MetaName(key)], f.cutMeta);
    if f.openBody || BodyName(key) !in store.objects {
      return true;
    }
    ok := Add(w, Item(key, meta, store.objects[BodyName(key)]), f.add);
  }

  /** What Finalize does before closing the writer: every recorded key whose halves can both
      be read is added once, up to the first Add that fails. */
  method AddRecorded(store: Store, keys: seq<string>, w: Writer, faults: string -> ItemFault) returns (ok: bool)
    requires Valid(w) && TargetOf(w) != store
    modifies TargetOf(w)
    ensures (forall key :: faults(key).add.AddWorks?) ==> ok
    ensures ok ==> Valid(w) && Added(w) == old(Added(w)) + ItemsOf(store.objects, faults, keys, {})
    ensures store.objects == old(store.objects)
  {
    var seen: set<string> := {};
    ghost var objects := store.objects;
    ghost var whole := Added(w) + ItemsOf(objects, faults, keys, {});
    assert keys[0..] == keys;
    for i := 0 to |keys|
      invariant Valid(w) && store.objects == objects
      invariant Added(w) + ItemsOf(objects, faults, keys[i..], seen) == whole
    {
      ItemsStep(objects, faults, keys, i, seen, Added(w));
      var key := BaseKey(keys[i]);
      if key !in seen {
        seen := seen + {key};
        ok := AddKey(store, key, w, faults(key));
        if !ok {
          return;
        }
      }
    }
    assert keys[|keys|..] == [];
    ok := true;
  }

  // ---- reading an archive as a storage ----

  /** The reader an archive was opened with. */
  datatype Reader = MapBacked(r: MapReader) | CasBacked(dir: Cas.CasDir) {
    function Get(key: string): GetResult {
      match this
      case MapBacked(r) => r.Get(key)
      case CasBacked(dir) => Cas.Read(dir, key)
    }
  }

  /** ArchiveStorage.Get: the name decides the half; anything else is not found. */
  function Fetch(reader: Reader, name: Name): Option<Bytes> {
    if name.OtherName? then None
    else
      match reader.Get(name.key)
      case NotFound => None
      case Found(meta, body) => Some(if name.MetaName? then meta else body)
  }

  /** Barring collisions of the digests the format relies on. */
  ghost predicate IsSound(w: Writer)
    reads TargetOf(w)
  {
    match w
    case TarGzTarget(_) => true
    case OciTarget(o) => Oci.NoCollision(o.hash, o.written)
    case CasTarget(c) => Cas.NoCollision(c.hash, c.added)
  }

  /** Closing and reopening: whichever the format, the reader then serves the adds. */
  method CloseAndOpen(w: Writer, fault: Oci.CloseFault) returns (reader: Option<Reader>)
    requires Valid(w)
    requires w.TarGzTarget? ==> w.tgz.json.RoundTrips()
    requires w.OciTarget? ==> w.oci.enc.RoundTrips()
    modifies TargetOf(w)
    ensures Added(w) == old(Added(w))
    ensures fault.CloseWorks? && IsSound(w) ==> reader.Some?
    ensures reader.Some? && IsSound(w) ==> forall key :: reader.value.Get(key) == LookupIn(LastWins(Added(w)), key)
  {
    reader := None;
    match w
    case TarGzTarget(t) =>
      var file := t.Close(!fault.CloseWorks?);
      if file.Some? {
        TarGz.RoundTrip(t.json, t.added);
        var r := TarGz.Open(t.json, file.value);
        reader := Some(MapBacked(r.value));
      }
    case OciTarget(o) =>
      reader := CloseAndOpenOci(o, fault);
    case CasTarget(c) =>
      var dir := c.Close(!fault.CloseWorks?);
      if dir.Some? {
        if Cas.NoCollision(c.hash, c.added) {
          Cas.RoundTrip(c.hash, dir.value, c.added);
        }
        reader := Some(CasBacked(dir.value));
      }
  }

  method CloseAndOpenOci(o: Oci.OciWriter, fault: Oci.CloseFault) returns (reader: Option<Reader>)
    requires o.Valid() && o.enc.RoundTrips()
    modifies o
    ensures o.added == old(o.added)
    ensures fault.CloseWorks? && Oci.NoCollision(o.hash, o.written) ==> reader.Some?
    ensures reader.Some? && Oci.NoCollision(o.hash, o.written) ==>
              forall key :: reader.value.Get(key) == LookupIn(LastWins(o.added), key)
  {
    var layout := o.Close(fault);
    if layout.None? {
      return None;
    }
    var r := Oci.Open(o.enc, layout.value);
    if Oci.NoCollision(o.hash, o.written) {
      Oci.RoundTrip(o.enc, o.hash, layout.value, o.chunks, o.written, o.entriesPerLayer, o.added);
    }
    reader := if r.Some? then Some(MapBacked(r.value)) else None;
  }

  /** A reader that serves some content acts, through the storage interface, as the
      objects of that content. */
  lemma FetchIsLookup(reader: Reader, content: Content, name: Name)
    requires forall key :: reader.Get(key) == LookupIn(content, key)
    ensures Fetch(reader, name) ==
            if name in ArchiveObjects(content) then Some(ArchiveObjects(content)[name]) else None
  {
    if !name.OtherName? {
      assert reader.Get(name.key) == LookupIn(content, name.key);
    }
  }

  /** Reading a name of the reopened archive is a lookup in these objects. */
  ghost predicate Reads(reader: Reader, objects: Objects) {
    forall name :: Fetch(reader, name) == if name in objects then Some(objects[name]) else None
  }

  /** Recorder.Finalize followed by opening the archive for replay: it works unless an Add or
      the Close fails; through the storage interface the archive is what was read, which is
      exactly the base storage restricted to recorded entries if every one reads through. */
  method FinalizeAndOpen(store: Store, keys: seq<string>, w: Writer, faults: string -> ItemFault, fault: Oci.CloseFault)
    returns (reader: Option<Reader>)
    requires Valid(w) && Added(w) == [] && TargetOf(w) != store
    requires w.TarGzTarget? ==> w.tgz.json.RoundTrips()
    requires w.OciTarget? ==> w.oci.enc.RoundTrips()
    modifies TargetOf(w)
    ensures (forall key :: faults(key).add.AddWorks?) && fault.CloseWorks? && IsSound(w) ==> reader.Some?
    ensures reader.Some? && IsSound(w) ==>
              Reads(reader.value, ArchiveObjects(LastWins(ItemsOf(store.objects, faults, keys, {}))))
    ensures reader.Some? && IsSound(w) && AllReadThrough(store.objects, faults, keys) ==>
              Reads(reader.value, Restricted(store.objects, ArchivedKeys(store.objects, keys)))
  {
    var ok := AddRecorded(store, keys, w, faults);
    if !ok {
      return None;
    }
    ghost var items := ItemsOf(store.objects, faults, keys, {});
    assert Added(w) == items;
    reader := CloseAndOpen(w, fault);
    if reader.Some? && IsSound(w) {
      ReplayIsExactIff(store.objects, faults, keys);
      forall name
        ensures Fetch(reader.value, name) ==
                if name in ArchiveObjects(LastWins(items)) then Some(ArchiveObjects(LastWins(items))[name]) else None
      {
        FetchIsLookup(reader.value, LastWins(items), name);
      }
      assert Reads(reader.value, ArchiveObjects(LastWins(items)));
    }
  }

  /** ArchiveStorage.List: both names of every listed key with the prefix, where the
      prefix is compared with the key and not with the object name. */
  method ListNames(keys: seq<string>, prefix: string) returns (result: seq<string>)
    ensures forall text :: text in result <==>
              exists k <- keys :: HasPrefix(k, prefix) && (text == RenderName(MetaName(k)) || text == RenderName(BodyName(k)))
  {
    result := [];
    for i := 0 to |keys|
      invariant forall text :: text in result <==>
        exists k <- keys[..i] :: HasPrefix(k, prefix) && (text == RenderName(MetaName(k)) || text == RenderName(BodyName(k)))
    {
      assert keys[..i + 1] == keys[..i] + [keys[i]];
      if HasPrefix(keys[i], prefix) {
        result := result + [RenderName(MetaName(keys[i])), RenderName(BodyName(keys[i]))];
      }
    }
    assert keys[..|keys|] == keys;
  }
}
