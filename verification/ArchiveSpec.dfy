/** What every archive format promises: a map from keys to entries in which the last
    entry added for a key wins. */
module ArchiveSpec {
  import opened Common

  /** One call of Writer.Add. */
  datatype Item = Item(key: string, meta: Bytes, body: Bytes)

  /** What fails in an Add, if anything: writing the meta, reading or writing the body, or
      writing the layer that became full. A format without such a write is not affected. */
  datatype AddFault = AddWorks | MetaFails | BodyFails | LayerFails

  datatype Pair = Pair(meta: Bytes, body: Bytes)

  type Content = map<string, Pair>

  function LastWins(items: seq<Item>): Content {
    if items == [] then map[]
    else
      var last := items[|items| - 1];
      LastWins(items[..|items| - 1])[last.key := Pair(last.meta, last.body)]
  }

  function ItemKeys(items: seq<Item>): seq<string> {
    Project(items, (item: Item) => item.key)
  }

  lemma LastWinsAppend(items: seq<Item>, item: Item)
    ensures LastWins(items + [item]) == LastWins(items)[item.key := Pair(item.meta, item.body)]
  {
    assert (items + [item])[..|items|] == items;
  }

  lemma ItemKeysAppend(items: seq<Item>, item: Item)
    ensures ItemKeys(items + [item]) == ItemKeys(items) + [item.key]
  {
  }

  lemma {:induction false} LastWinsKeys(items: seq<Item>)
    ensures LastWins(items).Keys == Elements(ItemKeys(items))
    decreases |items|
  {
    if items == [] {
      assert ItemKeys(items) == [];
    } else {
      var init, last := items[..|items| - 1], items[|items| - 1];
      LastWinsKeys(init);
      assert items == init + [last];
      LastWinsAppend(init, last);
      ItemKeysAppend(init, last);
      ElementsAppend(ItemKeys(init), last.key);
    }
  }

  /** The last entry added for a key is the one kept. */
  lemma {:induction false} LastWinsIsLast(items: seq<Item>, i: nat)
    requires i < |items| && forall j :: i < j < |items| ==> items[j].key != items[i].key
    ensures items[i].key in LastWins(items)
    ensures LastWins(items)[items[i].key] == Pair(items[i].meta, items[i].body)
    decreases |items|
  {
    if i < |items| - 1 {
      LastWinsIsLast(items[..|items| - 1], i);
    }
  }

  // ---- reading back ----

  datatype GetResult = Found(meta: Bytes, body: Bytes) | NotFound

  function LookupIn(content: Content, key: string): GetResult {
    if key in content then Found(content[key].meta, content[key].body) else NotFound
  }

  // ---- tar records ----

  datatype TarRecord = TarRecord(name: Name, data: Bytes)

  /** JSON encoding of a list of keys; decoding fails on anything else. */
  datatype KeyCodec = KeyCodec(encode: seq<string> -> Bytes, decode: Bytes -> Option<seq<string>>) {
    ghost predicate RoundTrips() {
      forall keys :: decode(encode(keys)) == Some(keys)
    }
  }

  function RecordsOfItem(item: Item): seq<TarRecord> {
    [TarRecord(MetaName(item.key), item.meta), TarRecord(BodyName(item.key), item.body)]
  }

  function RecordsOf(items: seq<Item>): seq<TarRecord> {
    if items == [] then [] else RecordsOf(items[..|items| - 1]) + RecordsOfItem(items[|items| - 1])
  }

  lemma RecordsOfAppend(items: seq<Item>, item: Item)
    ensures RecordsOf(items + [item]) == RecordsOf(items) + RecordsOfItem(item)
  {
    assert (items + [item])[..|items|] == items;
  }

  lemma {:induction false} RecordsOfConcat(a: seq<Item>, b: seq<Item>)
    ensures RecordsOf(a + b) == RecordsOf(a) + RecordsOf(b)
    decreases |b|
  {
    if b == [] {
      assert a + b == a;
    } else {
      var init, last := b[..|b| - 1], b[|b| - 1];
      assert a + b == (a + init) + [last] && b == init + [last];
      RecordsOfAppend(a + init, last);
      RecordsOfConcat(a, init);
    }
  }

  predicate IsEntry(record: TarRecord) {
    !record.name.OtherName?
  }

  /** Unpacking records one after the other: a later record of a name replaces an earlier one. */
  function Unpack(records: seq<TarRecord>): Objects {
    if records == [] then map[]
    else
      var last := records[|records| - 1];
      var before := Unpack(records[..|records| - 1]);
      if IsEntry(last) then before[last.name := last.data] else before
  }

  lemma UnpackAppend(records: seq<TarRecord>, record: TarRecord)
    ensures Unpack(records + [record]) ==
            if IsEntry(record) then Unpack(records)[record.name := record.data] else Unpack(records)
  {
    assert (records + [record])[..|records|] == records;
  }

  lemma {:induction false} UnpackConcat(a: seq<TarRecord>, b: seq<TarRecord>)
    ensures Unpack(a + b) == Unpack(a) + Unpack(b)
    decreases |b|
  {
    if b == [] {
      assert a + b == a;
    } else {
      var init, last := b[..|b| - 1], b[|b| - 1];
      assert a + b == (a + init) + [last] && b == init + [last];
      UnpackAppend(a + init, last);
      UnpackAppend(init, last);
      UnpackConcat(a, init);
    }
  }

  /** The objects an archive of this content offers: both halves of every entry. */
  function ArchiveObjects(content: Content): Objects {
    map name | name in (set k | k in content :: MetaName(k)) + (set k | k in content :: BodyName(k)) ::
      if name.MetaName? then content[name.key].meta else content[name.key].body
  }

  /** Unpacking the records of any adds gives the last-write-wins objects. */
  lemma {:induction false} UnpackItems(items: seq<Item>)
    ensures Unpack(RecordsOf(items)) == ArchiveObjects(LastWins(items))
    decreases |items|
  {
    if items != [] {
      var init, last := items[..|items| - 1], items[|items| - 1];
      UnpackItems(init);
      var r := RecordsOfItem(last);
      var records := RecordsOf(init) + [r[0]];
      assert RecordsOf(items) == records + [r[1]];
      UnpackAppend(RecordsOf(init), r[0]);
      UnpackAppend(records, r[1]);
      ObjectsOfUpdate(LastWins(init), last);
    }
  }

  lemma ObjectsOfUpdate(content: Content, item: Item)
    ensures ArchiveObjects(content[item.key := Pair(item.meta, item.body)]) ==
            ArchiveObjects(content)[MetaName(item.key) := item.meta][BodyName(item.key) := item.body]
  {
    var after := ArchiveObjects(content[item.key := Pair(item.meta, item.body)]);
    var updated := ArchiveObjects(content)[MetaName(item.key) := item.meta][BodyName(item.key) := item.body];
    forall name
      ensures name in after <==> name in updated
      ensures name in after ==> after[name] == updated[name]
    {
      if !name.OtherName? && name.key == item.key {
        assert name == MetaName(item.key) || name == BodyName(item.key);
      }
    }
  }

  /** The in-memory reader of the tar formats: the unpacked halves, and the listed keys. */
  datatype MapReader = MapReader(entries: Objects, keys: seq<string>) {
    /** A missing body half reads as empty. */
    function Get(key: string): GetResult {
      if MetaName(key) !in entries then NotFound
      else Found(entries[MetaName(key)], if BodyName(key) in entries then entries[BodyName(key)] else [])
    }
  }

  /** The reader serves exactly the content: every key's last entry, and no other key. */
  ghost predicate Serves(r: MapReader, items: seq<Item>) {
    (forall key :: r.Get(key) == LookupIn(LastWins(items), key)) && Elements(r.keys) == LastWins(items).Keys
  }

  lemma UnpackedServes(items: seq<Item>)
    ensures Serves(MapReader(Unpack(RecordsOf(items)), ItemKeys(items)), items)
  {
    UnpackItems(items);
    LastWinsKeys(items);
  }
}
