/** The cache as values: an entry is a meta object and a body object in storage,
    shadowed by one row of the index. */
module CacheSpec {
  import opened Common
  import opened IndexTable

  /** A question that fails is answered with an error or, where backends are asked one
      after the other and none can answer, as if the object were missing. */
  datatype AskFault = AskWorks | AskFails | AskMisses

  /** A put that reports an error has left readers with what they saw before, or with the
      first `taken` bytes of the new object, which is all of it where some backend took it
      and another did not. */
  datatype PutFault = PutWorks | PutRefused | PutTorn(taken: nat)

  /** A deletion that reports an error has removed nothing, or, where only some backends
      went along, leaves readers with what another backend still holds, if any does. */
  datatype DeleteFault = DeleteWorks | DeleteRefused | DeleteTorn(left: Option<Bytes>)

  /** How the calls of one cache operation go. `cutBody` is a body that opens and then
      breaks off after that many bytes; `index` says that the index statement of the
      operation fails, `dropRow` the one an eviction adds to it. */
  datatype Faults = Faults(
    openMeta: AskFault, openBody: AskFault, cutBody: Option<nat>, putMeta: PutFault, putBody: PutFault,
    existsMeta: AskFault, deleteMeta: DeleteFault, deleteBody: DeleteFault, sizeBody: bool,
    index: bool, dropRow: bool)

  const NO_FAULTS := Faults(AskWorks, AskWorks, None, PutWorks, PutWorks, AskWorks, DeleteWorks, DeleteWorks, false, false, false)

  /** A hit carries the bytes its body hands out before it ends or breaks off. */
  datatype GetOutcome =
    | Hit(meta: EntryMeta, body: Bytes)
    | Absent            // an object is missing
    | Broken            // storage failed or the meta is corrupt

  predicate BreaksOff(body: Bytes, cut: Option<nat>) {
    cut.Some? && cut.value < |body|
  }

  /** What a reader that ignores read errors takes for the whole body. */
  function BytesRead(body: Bytes, cut: Option<nat>): Bytes {
    if BreaksOff(body, cut) then body[..cut.value] else body
  }

  lemma ReadWholeIff(body: Bytes, cut: Option<nat>)
    ensures BytesRead(body, cut) == body <==> !BreaksOff(body, cut)
    ensures BytesRead(body, cut) <= body
  {
  }

  datatype DeleteOutcome = Deleted | DeleteNotFound | DeleteFailed

  function Lookup(codec: Codec, objects: Objects, key: string, f: Faults): GetOutcome {
    if f.openMeta.AskFails? then Broken
    else if f.openMeta.AskMisses? || MetaName(key) !in objects then Absent
    else
      match codec.decode(objects[MetaName(key)])
      case None => Broken
      case Some(meta) =>
        if f.openBody.AskFails? then Broken
        else if f.openBody.AskMisses? || BodyName(key) !in objects then Absent
        else Hit(meta, BytesRead(objects[BodyName(key)], f.cutBody))
  }

  function Written(objects: Objects, name: Name, data: Bytes, f: PutFault): Objects {
    match f
    case PutWorks => objects[name := data]
    case PutRefused => objects
    case PutTorn(taken) => objects[name := FirstBytes(data, taken)]
  }

  function Dropped(objects: Objects, name: Name, f: DeleteFault): Objects {
    match f
    case DeleteWorks => objects - {name}
    case DeleteRefused => objects
    case DeleteTorn(left) => if left.Some? then objects[name := left.value] else objects - {name}
  }

  /** Meta first, then body; a failure stops where it is. */
  function Stored(codec: Codec, objects: Objects, key: string, meta: EntryMeta, body: Bytes, f: Faults): Objects {
    var begun := Written(objects, MetaName(key), codec.encode(meta), f.putMeta);
    if f.putMeta.PutWorks? then Written(begun, BodyName(key), body, f.putBody) else begun
  }

  predicate StoreSucceeds(f: Faults) {
    f.putMeta.PutWorks? && f.putBody.PutWorks?
  }

  function Erased(objects: Objects, key: string, f: Faults): Objects {
    if !f.existsMeta.AskWorks? || MetaName(key) !in objects then objects
    else
      var begun := Dropped(objects, MetaName(key), f.deleteMeta);
      if f.deleteMeta.DeleteWorks? then Dropped(begun, BodyName(key), f.deleteBody) else begun
  }

  function EraseOutcome(objects: Objects, key: string, f: Faults): DeleteOutcome {
    if f.existsMeta.AskFails? then DeleteFailed
    else if f.existsMeta.AskMisses? || MetaName(key) !in objects then DeleteNotFound
    else if f.deleteMeta.DeleteWorks? && f.deleteBody.DeleteWorks? then Deleted
    else DeleteFailed
  }

  // ---- the index beside the storage ----

  datatype IndexState = IndexState(rows: Table, dirty: Batch)

  function InfoFor(meta: EntryMeta, size: nat): Info {
    Info(meta.verb, meta.url, meta.statusCode, size)
  }

  function Forget(ix: IndexState, key: string): IndexState {
    IndexState(ix.rows - {key}, ix.dirty - {key})
  }

  /** An index statement that fails is ignored. */
  function IndexAfterPut(ix: IndexState, key: string, meta: EntryMeta, body: Bytes, now: nat, f: Faults): IndexState {
    if StoreSucceeds(f) && !f.index
    then ix.(rows := InsertRow(ix.rows, key, Row(InfoFor(meta, if f.sizeBody then 0 else |body|), now, now, 0)))
    else ix
  }

  function SizeOrZero(objects: Objects, key: string): nat {
    if BodyName(key) in objects then |objects[BodyName(key)]| else 0
  }

  /** The size is asked of storage, so a body that breaks off does not change it. */
  function IndexAfterGet(ix: IndexState, objects: Objects, key: string, outcome: GetOutcome, now: nat, f: Faults): IndexState {
    match outcome
    case Hit(meta, _) =>
      var size := if f.sizeBody then 0 else SizeOrZero(objects, key);
      ix.(dirty := BufferHit(ix.dirty, key, Some(InfoFor(meta, size)), now))
    case Absent => if f.index then ix else Forget(ix, key)
    case Broken => ix
  }

  function IndexAfterDelete(ix: IndexState, key: string, outcome: DeleteOutcome, f: Faults): IndexState {
    if outcome.DeleteFailed? || f.index then ix else Forget(ix, key)
  }

  // ---- what a walk sees ----

  predicate IsReadableMeta(codec: Codec, objects: Objects, name: Name) {
    name in objects && name.MetaName? && codec.decode(objects[name]).Some?
  }

  /** The keys whose meta can be read; corrupt ones are skipped. */
  function WalkedKeys(codec: Codec, objects: Objects): set<string> {
    set name | name in objects && IsReadableMeta(codec, objects, name) :: name.key
  }

  lemma WalkedIff(codec: Codec, objects: Objects, key: string)
    ensures key in WalkedKeys(codec, objects) <==> IsReadableMeta(codec, objects, MetaName(key))
  {
    if IsReadableMeta(codec, objects, MetaName(key)) {
      assert MetaName(key).key in WalkedKeys(codec, objects);
    }
  }

  /** The descriptive columns storage dictates for `key`. */
  function InfoOf(codec: Codec, objects: Objects, key: string): Info
    requires IsReadableMeta(codec, objects, MetaName(key))
  {
    InfoFor(codec.decode(objects[MetaName(key)]).value, SizeOrZero(objects, key))
  }

  /** The table holds exactly the walked keys, each described as storage dictates. */
  ghost predicate IndexAgrees(codec: Codec, objects: Objects, rows: Table) {
    && rows.Keys == WalkedKeys(codec, objects)
    && forall k <- rows :: IsReadableMeta(codec, objects, MetaName(k)) && rows[k].info == InfoOf(codec, objects, k)
  }

  // ---- agreement over runs ----

  datatype State = State(objects: Objects, ix: IndexState)

  /** Storage holds both halves of `key`, and `row` describes them. */
  predicate Describes(codec: Codec, objects: Objects, key: string, row: Row) {
    IsReadableMeta(codec, objects, MetaName(key)) && BodyName(key) in objects &&
    row.info == InfoOf(codec, objects, key)
  }

  /** Two storages hold the same two halves of `key`. */
  predicate SameEntry(a: Objects, b: Objects, key: string) {
    (MetaName(key) in a <==> MetaName(key) in b) && (BodyName(key) in a <==> BodyName(key) in b) &&
    (MetaName(key) in a ==> a[MetaName(key)] == b[MetaName(key)]) &&
    (BodyName(key) in a ==> a[BodyName(key)] == b[BodyName(key)])
  }

  /** Writing or erasing one key touches no half of another. */
  lemma OthersUntouched(codec: Codec, objects: Objects, key: string, meta: EntryMeta, body: Bytes, f: Faults, other: string)
    requires other != key
    ensures SameEntry(objects, Stored(codec, objects, key, meta, body, f), other)
    ensures SameEntry(objects, Erased(objects, key, f), other)
  {
  }

  /** Every object in storage is a half of an entry the table knows. */
  ghost predicate NamesKnown(objects: Objects, rows: Table) {
    forall name <- objects :: !name.OtherName? && name.key in rows
  }

  ghost predicate RowsDescribe(codec: Codec, objects: Objects, rows: Table) {
    forall k <- rows :: Describes(codec, objects, k, rows[k])
  }

  /** Storage holds whole entries and nothing else, the table matches it entry by
      entry, and nothing is buffered for a key without a row. The buffered deltas
      themselves may describe an older version of the entry. */
  ghost predicate Coherent(codec: Codec, s: State) {
    NamesKnown(s.objects, s.ix.rows) && RowsDescribe(codec, s.objects, s.ix.rows) &&
    s.ix.dirty.Keys <= s.ix.rows.Keys
  }

  lemma CoherentAgrees(codec: Codec, s: State)
    requires Coherent(codec, s)
    ensures IndexAgrees(codec, s.objects, s.ix.rows)
  {
    forall k
      ensures k in s.ix.rows <==> k in WalkedKeys(codec, s.objects)
    {
      WalkedIff(codec, s.objects, k);
    }
  }

  datatype Call =
    | Put(key: string, meta: EntryMeta, body: Bytes, now: nat)
    | Get(key: string, now: nat)
    | Delete(key: string)
    | Flush

  function After(codec: Codec, s: State, call: Call): State {
    match call
    case Put(key, meta, body, now) =>
      State(Stored(codec, s.objects, key, meta, body, NO_FAULTS),
            IndexAfterPut(s.ix, key, meta, body, now, NO_FAULTS))
    case Get(key, now) =>
      s.(ix := IndexAfterGet(s.ix, s.objects, key, Lookup(codec, s.objects, key, NO_FAULTS), now, NO_FAULTS))
    case Delete(key) =>
      State(Erased(s.objects, key, NO_FAULTS),
            IndexAfterDelete(s.ix, key, EraseOutcome(s.objects, key, NO_FAULTS), NO_FAULTS))
    case Flush => s.(ix := IndexState(Commit(s.ix.rows, s.ix.dirty), map[]))
  }

  function RunCalls(codec: Codec, s: State, calls: seq<Call>): State
    decreases |calls|
  {
    if calls == [] then s else RunCalls(codec, After(codec, s, calls[0]), calls[1..])
  }

  lemma PutCoherent(codec: Codec, s: State, key: string, meta: EntryMeta, body: Bytes, now: nat)
    requires codec.RoundTrips() && Coherent(codec, s)
    ensures Coherent(codec, After(codec, s, Put(key, meta, body, now)))
  {
    var s' := After(codec, s, Put(key, meta, body, now));
    assert codec.decode(codec.encode(meta)) == Some(meta);
    forall k | k in s'.ix.rows
      ensures Describes(codec, s'.objects, k, s'.ix.rows[k])
    {
      if k != key { OthersUntouched(codec, s.objects, key, meta, body, NO_FAULTS, k); }
    }
  }

  lemma ErasedEntries(codec: Codec, objects: Objects, rows: Table, key: string)
    requires NamesKnown(objects, rows) && RowsDescribe(codec, objects, rows) && MetaName(key) in objects
    ensures NamesKnown(Erased(objects, key, NO_FAULTS), rows - {key})
    ensures RowsDescribe(codec, Erased(objects, key, NO_FAULTS), rows - {key})
  {
    forall k | k in rows - {key}
      ensures Describes(codec, Erased(objects, key, NO_FAULTS), k, rows[k])
    {
      OthersUntouched(codec, objects, key, EntryMeta("", "", 0, map[], 0), [], NO_FAULTS, k);
    }
  }

  lemma DeleteCoherent(codec: Codec, s: State, key: string)
    requires Coherent(codec, s)
    ensures Coherent(codec, After(codec, s, Delete(key)))
  {
    if MetaName(key) in s.objects {
      ErasedEntries(codec, s.objects, s.ix.rows, key);
    } else {
      assert key !in s.ix.rows;
      assert s.ix.rows - {key} == s.ix.rows;
    }
  }

  lemma GetCoherent(codec: Codec, s: State, key: string, now: nat)
    requires Coherent(codec, s)
    ensures Coherent(codec, After(codec, s, Get(key, now)))
  {
    if Lookup(codec, s.objects, key, NO_FAULTS).Hit? {
      assert key in s.ix.rows;
    } else {
      assert key !in s.ix.rows;
      assert After(codec, s, Get(key, now)).ix.rows == s.ix.rows;
    }
  }

  /** Buffered hits carrying stale descriptions cannot spoil a row that exists. */
  lemma FlushCoherent(codec: Codec, s: State)
    requires Coherent(codec, s)
    ensures Coherent(codec, After(codec, s, Flush))
  {
  }

  /** Cache and index agree after any sequential run of working calls from empty. */
  lemma {:induction false} AgreementOverRuns(codec: Codec, s: State, calls: seq<Call>)
    requires codec.RoundTrips() && Coherent(codec, s)
    ensures Coherent(codec, RunCalls(codec, s, calls))
    ensures IndexAgrees(codec, RunCalls(codec, s, calls).objects, RunCalls(codec, s, calls).ix.rows)
    decreases |calls|
  {
    if calls == [] {
      CoherentAgrees(codec, s);
    } else {
      match calls[0] {
        case Put(key, meta, body, now) => PutCoherent(codec, s, key, meta, body, now);
        case Get(key, now) => GetCoherent(codec, s, key, now);
        case Delete(key) => DeleteCoherent(codec, s, key);
        case Flush => FlushCoherent(codec, s);
      }
      AgreementOverRuns(codec, After(codec, s, calls[0]), calls[1..]);
    }
  }

  lemma AgreementFromEmpty(codec: Codec, calls: seq<Call>)
    requires codec.RoundTrips()
    ensures Coherent(codec, RunCalls(codec, State(map[], IndexState(map[], map[])), calls))
  {
    AgreementOverRuns(codec, State(map[], IndexState(map[], map[])), calls);
  }

  lemma SameEntrySameLookup(codec: Codec, a: Objects, b: Objects, key: string)
    requires SameEntry(a, b, key)
    ensures Lookup(codec, a, key, NO_FAULTS) == Lookup(codec, b, key, NO_FAULTS)
  {
  }

  /** What was put last is what a lookup returns, until it is put again or deleted. */
  lemma PutThenLookup(codec: Codec, objects: Objects, key: string, meta: EntryMeta, body: Bytes, other: string)
    requires codec.RoundTrips()
    ensures Lookup(codec, Stored(codec, objects, key, meta, body, NO_FAULTS), other, NO_FAULTS) ==
            if other == key then Hit(meta, body) else Lookup(codec, objects, other, NO_FAULTS)
    ensures Lookup(codec, Erased(objects, key, NO_FAULTS), other, NO_FAULTS) ==
            if other == key then Absent else Lookup(codec, objects, other, NO_FAULTS)
  {
    if other == key {
      assert codec.decode(codec.encode(meta)) == Some(meta);
    } else {
      OthersUntouched(codec, objects, key, meta, body, NO_FAULTS, other);
      SameEntrySameLookup(codec, objects, Stored(codec, objects, key, meta, body, NO_FAULTS), other);
      SameEntrySameLookup(codec, objects, Erased(objects, key, NO_FAULTS), other);
    }
  }

  // ---- reindex ----

  function RefreshedRow(codec: Codec, objects: Objects, flushed: Table, stamp: string -> nat, key: string): Row
    requires IsReadableMeta(codec, objects, MetaName(key))
  {
    if key in flushed then flushed[key].(info := InfoOf(codec, objects, key))
    else Row(InfoOf(codec, objects, key), stamp(key), stamp(key), 0)
  }

  /** The table a reindex leaves: `stamp` is the clock reading of each key's upsert. */
  function ReindexedRows(codec: Codec, objects: Objects, flushed: Table, stamp: string -> nat): Table {
    map k | k in WalkedKeys(codec, objects) && IsReadableMeta(codec, objects, MetaName(k)) ::
      RefreshedRow(codec, objects, flushed, stamp, k)
  }

  /** The table after the keys in `seen` were upserted and nothing removed yet. */
  function UpsertedRows(codec: Codec, objects: Objects, flushed: Table, stamp: string -> nat, seen: set<string>): Table
    requires forall k <- seen :: IsReadableMeta(codec, objects, MetaName(k))
  {
    map k | k in flushed.Keys + seen ::
      if k in seen then RefreshedRow(codec, objects, flushed, stamp, k) else flushed[k]
  }

  lemma UpsertOneMore(codec: Codec, objects: Objects, flushed: Table, stamp: string -> nat, seen: set<string>, key: string)
    requires forall k <- seen :: IsReadableMeta(codec, objects, MetaName(k))
    requires key !in seen && IsReadableMeta(codec, objects, MetaName(key))
    ensures UpsertRow(UpsertedRows(codec, objects, flushed, stamp, seen), key, InfoOf(codec, objects, key), stamp(key)) ==
            UpsertedRows(codec, objects, flushed, stamp, seen + {key})
    ensures key in UpsertedRows(codec, objects, flushed, stamp, seen) <==> key in flushed
  {
  }

  lemma NoneUpserted(codec: Codec, objects: Objects, flushed: Table, stamp: string -> nat)
    ensures UpsertedRows(codec, objects, flushed, stamp, {}) == flushed
  {
  }

  lemma PruneOneMore(rows: Table, orphans: set<string>, key: string)
    ensures rows - orphans - {key} == rows - (orphans + {key})
    ensures rows - {} == rows
  {
  }

  lemma UpsertedKeys(codec: Codec, objects: Objects, flushed: Table, stamp: string -> nat, seen: set<string>)
    requires forall k <- seen :: IsReadableMeta(codec, objects, MetaName(k))
    ensures UpsertedRows(codec, objects, flushed, stamp, seen).Keys - seen == flushed.Keys - seen
  {
  }

  lemma UpsertedThenPruned(codec: Codec, objects: Objects, flushed: Table, stamp: string -> nat)
    requires forall k <- WalkedKeys(codec, objects) :: IsReadableMeta(codec, objects, MetaName(k))
    ensures var seen := WalkedKeys(codec, objects);
            UpsertedRows(codec, objects, flushed, stamp, seen) - (flushed.Keys - seen) ==
            ReindexedRows(codec, objects, flushed, stamp)
  {
  }

  /** What a reindex leaves when it is cut short anywhere: every row is as the flush left
      it or as storage dictates, and no walked key that had a row lost it. */
  ghost predicate PartlyReindexed(codec: Codec, objects: Objects, flushed: Table, stamp: string -> nat, rows: Table) {
    && (forall k <- rows ::
          || (k in flushed && rows[k] == flushed[k])
          || (IsReadableMeta(codec, objects, MetaName(k)) && rows[k] == RefreshedRow(codec, objects, flushed, stamp, k)))
    && (forall k <- flushed :: k in WalkedKeys(codec, objects) ==> k in rows)
  }

  lemma UntouchedIsPartly(codec: Codec, objects: Objects, flushed: Table, stamp: string -> nat)
    ensures PartlyReindexed(codec, objects, flushed, stamp, flushed)
  {
  }

  lemma UpsertedIsPartly(codec: Codec, objects: Objects, flushed: Table, stamp: string -> nat, seen: set<string>, gone: set<string>)
    requires forall k <- seen :: IsReadableMeta(codec, objects, MetaName(k))
    requires gone !! WalkedKeys(codec, objects)
    ensures PartlyReindexed(codec, objects, flushed, stamp, UpsertedRows(codec, objects, flushed, stamp, seen) - gone)
    ensures gone == {} ==> UpsertedRows(codec, objects, flushed, stamp, seen) - gone == UpsertedRows(codec, objects, flushed, stamp, seen)
  {
  }

  datatype Counts = Counts(inserted: nat, updated: nat, removed: nat)

  function CountsFor(walked: set<string>, indexed: set<string>): Counts {
    Counts(|walked - indexed|, |walked * indexed|, |indexed - walked|)
  }

  /** One more key seen is one more new or one more known key. */
  lemma CountOneMore(seen: set<string>, indexed: set<string>, key: string)
    requires key !in seen
    ensures var seen' := seen + {key};
            if key in indexed
            then seen' - indexed == seen - indexed && seen' * indexed == seen * indexed + {key}
            else seen' - indexed == (seen - indexed) + {key} && seen' * indexed == seen * indexed
  {
  }

  /** The counts once the walk has seen `seen`, with nothing removed yet. */
  function SeenCounts(seen: set<string>, indexed: set<string>): Counts {
    Counts(|seen - indexed|, |seen * indexed|, 0)
  }

  lemma CountsOneMore(seen: set<string>, indexed: set<string>, key: string)
    requires key !in seen
    ensures var before := SeenCounts(seen, indexed);
            SeenCounts(seen + {key}, indexed) ==
            if key in indexed then before.(updated := before.updated + 1) else before.(inserted := before.inserted + 1)
  {
    CountOneMore(seen, indexed, key);
  }

  /** The walk of a reindex once it has upserted `seen`. */
  ghost predicate UpsertsDone(codec: Codec, objects: Objects, flushed: Table, stamp: string -> nat, seen: set<string>,
                              rows: Table, counts: Counts) {
    && (forall k <- seen :: IsReadableMeta(codec, objects, MetaName(k)))
    && rows == UpsertedRows(codec, objects, flushed, stamp, seen)
    && counts == SeenCounts(seen, flushed.Keys)
  }

  lemma UpsertsOneMore(codec: Codec, objects: Objects, flushed: Table, stamp: string -> nat, seen: set<string>,
                       rows: Table, counts: Counts, key: string)
    requires UpsertsDone(codec, objects, flushed, stamp, seen, rows, counts)
    requires key !in seen && IsReadableMeta(codec, objects, MetaName(key))
    ensures UpsertsDone(codec, objects, flushed, stamp, seen + {key},
                        UpsertRow(rows, key, InfoOf(codec, objects, key), stamp(key)),
                        if key in rows then counts.(updated := counts.updated + 1) else counts.(inserted := counts.inserted + 1))
  {
    CountsOneMore(seen, flushed.Keys, key);
    UpsertOneMore(codec, objects, flushed, stamp, seen, key);
  }

  /** Reindex repairs any drift, touches no usage column of a surviving row, and gives a
      new row the time of its upsert and no hits. */
  lemma ReindexRepairs(codec: Codec, objects: Objects, flushed: Table, stamp: string -> nat)
    ensures var rows := ReindexedRows(codec, objects, flushed, stamp);
            && IndexAgrees(codec, objects, rows)
            && (forall k <- rows :: k in flushed ==>
                  rows[k].createdAt == flushed[k].createdAt &&
                  rows[k].lastAccessedAt == flushed[k].lastAccessedAt &&
                  rows[k].hitCount == flushed[k].hitCount)
            && forall k <- rows :: k !in flushed ==>
                 rows[k].createdAt == rows[k].lastAccessedAt == stamp(k) && rows[k].hitCount == 0
  {
    forall k | k in WalkedKeys(codec, objects) { WalkedIff(codec, objects, k); }
  }

  lemma ReindexAgain(codec: Codec, objects: Objects, rows: Table, stamp: string -> nat)
    requires IndexAgrees(codec, objects, rows)
    ensures ReindexedRows(codec, objects, rows, stamp) == rows
  {
  }

  lemma NothingToCount(walked: set<string>, rows: Table)
    requires walked == rows.Keys
    ensures CountsFor(walked, rows.Keys) == Counts(0, |rows|, 0)
    ensures Commit(rows, map[]) == rows
  {
    assert walked - rows.Keys == {} && rows.Keys - walked == {} && walked * rows.Keys == rows.Keys;
  }

  /** A second run, with nothing buffered in between, finds nothing to insert or
      remove and changes no row. */
  lemma ReindexIsIdempotent(codec: Codec, objects: Objects, flushed: Table, stamp: string -> nat, stamp': string -> nat)
    ensures var rows := ReindexedRows(codec, objects, flushed, stamp);
            && Commit(rows, map[]) == rows
            && CountsFor(WalkedKeys(codec, objects), rows.Keys) == Counts(0, |rows|, 0)
            && ReindexedRows(codec, objects, rows, stamp') == rows
  {
    var rows := ReindexedRows(codec, objects, flushed, stamp);
    ReindexRepairs(codec, objects, flushed, stamp);
    ReindexAgain(codec, objects, rows, stamp');
    NothingToCount(WalkedKeys(codec, objects), rows);
  }

  /** The dry run, which does not flush first, predicts the counts exactly when every
      buffered hit able to recreate a row already has one. */
  lemma DryRunPredictsIff(walked: set<string>, rows: Table, dirty: Batch)
    ensures CountsFor(walked, rows.Keys) == CountsFor(walked, Commit(rows, dirty).Keys)
            <==> forall k <- dirty :: dirty[k].info.Some? ==> k in rows
  {
    var flushed := Commit(rows, dirty).Keys;
    assert rows.Keys <= flushed;
    if forall k <- dirty :: dirty[k].info.Some? ==> k in rows {
      assert flushed == rows.Keys;
    } else {
      var k :| k in dirty && dirty[k].info.Some? && k !in rows;
      assert k in flushed;
      if k in walked {
        assert k in walked - rows.Keys && k !in walked - flushed;
        ProperlySmaller(walked - flushed, walked - rows.Keys, k);
      } else {
        assert k in flushed - walked && k !in rows.Keys - walked;
        ProperlySmaller(rows.Keys - walked, flushed - walked, k);
      }
    }
  }

  lemma ProperlySmaller<T>(a: set<T>, b: set<T>, x: T)
    requires a <= b && x in b && x !in a
    ensures |a| < |b|
  {
    assert b == a + (b - a) && x in b - a;
    assert |b| == |a| + |b - a|;
  }
}
