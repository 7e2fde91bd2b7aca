/** The tar.gz archive: entry records in order of adding, then the key list. */
module TarGz {
  import opened Common
  import opened ArchiveSpec

  const INDEX_NAME := OtherName("index.json")

  /** The records of a closed archive. */
  function FileOf(json: KeyCodec, items: seq<Item>): seq<TarRecord> {
    RecordsOf(items) + [TarRecord(INDEX_NAME, json.encode(ItemKeys(items)))]
  }

  class TarGzWriter {
    const json: KeyCodec
    var records: seq<TarRecord>
    var keys: seq<string>
    ghost var added: seq<Item>

    ghost predicate Valid()
      reads this
    {
      records == RecordsOf(added) && keys == ItemKeys(added)
    }

    constructor (json: KeyCodec)
      ensures Valid() && added == [] && this.json == json
    {
      this.json := json;
      records, keys, added := [], [], [];
    }

    /** An Add that fails at either write, or in reading the body, leaves an archive that is
        not closed any more. */
    method Add(key: string, meta: Bytes, body: Bytes, fault: AddFault) returns (ok: bool)
      requires Valid()
      modifies this
      ensures ok == !(fault.MetaFails? || fault.BodyFails?)
      ensures ok ==> Valid() && added == old(added) + [Item(key, meta, body)]
    {
      if fault.MetaFails? {
        return false;
      }
      RecordsOfAppend(added, Item(key, meta, body));
      ItemKeysAppend(added, Item(key, meta, body));
      records := records + [TarRecord(MetaName(key), meta)];
      if fault.BodyFails? {
        return false;
      }
      records := records + [TarRecord(BodyName(key), body)];
      keys := keys + [key];
      added := added + [Item(key, meta, body)];
      return true;
    }

    method Close(fails: bool) returns (file: Option<seq<TarRecord>>)
      requires Valid()
      ensures file == if fails then None else Some(FileOf(json, added))
    {
      if fails {
        return None;
      }
      return Some(records + [TarRecord(INDEX_NAME, json.encode(keys))]);
    }
  }

  /** The key list of the last index record, if every index record parses. */
  function ListedKeys(json: KeyCodec, file: seq<TarRecord>): Option<seq<string>> {
    if file == [] then Some([])
    else
      var last := file[|file| - 1];
      match ListedKeys(json, file[..|file| - 1])
      case None => None
      case Some(keys) =>
        if last.name == INDEX_NAME then json.decode(last.data) else Some(keys)
  }

  /** Reads an archive record by record; a key list that does not parse fails the open. */
  method Open(json: KeyCodec, file: seq<TarRecord>) returns (r: Option<MapReader>)
    ensures r == match ListedKeys(json, file)
                 case None => None
                 case Some(keys) => Some(MapReader(Unpack(file), keys))
  {
    var entries: Objects := map[];
    var keys: seq<string> := [];
    for i := 0 to |file|
      invariant entries == Unpack(file[..i])
      invariant ListedKeys(json, file[..i]) == Some(keys)
    {
      OneMoreRecord(json, file, i);
      var record := file[i];
      if record.name == INDEX_NAME {
        var parsed := json.decode(record.data);
        if parsed.None? {
          ListedKeysFails(json, file, i + 1);
          return None;
        }
        keys := parsed.value;
      } else if record.name.MetaName? || record.name.BodyName? {
        entries := entries[record.name := record.data];
      }
    }
    assert file[..|file|] == file;
    return Some(MapReader(entries, keys));
  }

  /** One more record read: it is the key list, or half of an entry, or ignored. */
  lemma OneMoreRecord(json: KeyCodec, file: seq<TarRecord>, i: nat)
    requires i < |file|
    ensures Unpack(file[..i + 1]) ==
            if IsEntry(file[i]) then Unpack(file[..i])[file[i].name := file[i].data] else Unpack(file[..i])
    ensures ListedKeys(json, file[..i]).Some? ==>
              ListedKeys(json, file[..i + 1]) ==
              if file[i].name == INDEX_NAME then json.decode(file[i].data) else ListedKeys(json, file[..i])
  {
    assert file[..i + 1][..i] == file[..i] && file[..i + 1] == file[..i] + [file[i]];
    UnpackAppend(file[..i], file[i]);
  }

  lemma {:induction false} ListedKeysFails(json: KeyCodec, file: seq<TarRecord>, n: nat)
    requires n <= |file| && ListedKeys(json, file[..n]) == None
    ensures ListedKeys(json, file) == None
    decreases |file| - n
  {
    if n == |file| {
      assert file[..n] == file;
    } else {
      assert file[..n + 1][..n] == file[..n];
      ListedKeysFails(json, file, n + 1);
    }
  }

  lemma {:induction false} EntriesListNothing(json: KeyCodec, items: seq<Item>)
    ensures ListedKeys(json, RecordsOf(items)) == Some([])
    decreases |items|
  {
    if items != [] {
      var init := items[..|items| - 1];
      EntriesListNothing(json, init);
      var r := RecordsOfItem(items[|items| - 1]);
      var a, b := RecordsOf(init) + [r[0]], RecordsOf(items);
      assert b == a + [r[1]];
      assert a[..|a| - 1] == RecordsOf(init) && b[..|b| - 1] == a;
    }
  }

  /** A closed tar.gz archive opens, and the reader serves the last entry of every key. */
  lemma RoundTrip(json: KeyCodec, items: seq<Item>)
    requires json.RoundTrips()
    ensures ListedKeys(json, FileOf(json, items)) == Some(ItemKeys(items))
    ensures Serves(MapReader(Unpack(FileOf(json, items)), ItemKeys(items)), items)
  {
    var file, index := FileOf(json, items), TarRecord(INDEX_NAME, json.encode(ItemKeys(items)));
    EntriesListNothing(json, items);
    assert file[..|file| - 1] == RecordsOf(items);
    UnpackAppend(RecordsOf(items), index);
    UnpackedServes(items);
  }
}
