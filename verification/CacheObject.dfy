/** The cache object over a storage backend and an optional index. */
module CacheObject {
  import opened Common
  import opened IndexTable
  import opened IndexObject
  import opened CacheSpec

  /** A storage backend: a map whose calls may fail one by one. `readOnly` is how an
      archive opened for replay behaves; `recording` is the wrapper that logs the name
      of every object put. */
  class Store {
    var objects: Objects
    var recorded: seq<string>
    const readOnly: bool
    const recording: bool

    constructor (contents: Objects, readOnly: bool, recording: bool)
      ensures objects == contents && recorded == []
      ensures this.readOnly == readOnly && this.recording == recording
    {
      objects, recorded := contents, [];
      this.readOnly, this.recording := readOnly, recording;
    }

    method Put(name: Name, data: Bytes, f: PutFault) returns (ok: bool)
      modifies this
      ensures ok == (f.PutWorks? && !readOnly)
      ensures objects == Written(old(objects), name, data, if readOnly then PutRefused else f)
      ensures recorded == if ok && recording then old(recorded) + [RenderName(name)] else old(recorded)
    {
      if readOnly || f.PutRefused? {
        return false;
      }
      objects := objects[name := if f.PutTorn? then FirstBytes(data, f.taken) else data];
      ok := f.PutWorks?;
      if ok && recording {
        recorded := recorded + [RenderName(name)];
      }
    }

    /** Deleting a missing object succeeds. */
    method Delete(name: Name, f: DeleteFault) returns (ok: bool)
      modifies this`objects
      ensures ok == (f.DeleteWorks? && !readOnly)
      ensures objects == Dropped(old(objects), name, if readOnly then DeleteRefused else f)
    {
      if readOnly || f.DeleteRefused? {
        return false;
      }
      objects := if f.DeleteTorn? && f.left.Some? then objects[name := f.left.value] else objects - {name};
      ok := f.DeleteWorks?;
    }
  }

  /** The faults of an operation as a given store shows them. */
  function Seen(readOnly: bool, f: Faults): Faults {
    if readOnly
    then f.(putMeta := PutRefused, putBody := PutRefused, deleteMeta := DeleteRefused, deleteBody := DeleteRefused)
    else f
  }

  lemma SeenWrites(readOnly: bool, f: Faults)
    ensures var g := Seen(readOnly, f);
            && g.putMeta == (if readOnly then PutRefused else f.putMeta)
            && g.putBody == (if readOnly then PutRefused else f.putBody)
            && g.deleteMeta == (if readOnly then DeleteRefused else f.deleteMeta)
            && g.deleteBody == (if readOnly then DeleteRefused else f.deleteBody)
            && g.existsMeta == f.existsMeta && g.sizeBody == f.sizeBody && g.index == f.index && g.dropRow == f.dropRow
  {
  }

  /** The names a recording store logs for one Put. */
  function RecordedBy(recording: bool, key: string, f: Faults): seq<string> {
    if !recording || !f.putMeta.PutWorks? then []
    else if !f.putBody.PutWorks? then [RenderName(MetaName(key))]
    else [RenderName(MetaName(key)), RenderName(BodyName(key))]
  }

  /** Where a reindex fails: its flush, the listing of storage, single objects, single
      statements by key, or the query for all keys. */
  datatype ReindexFaults = ReindexFaults(
    flush: FlushFault, list: bool, unreadable: set<Name>,
    probe: set<string>, upsert: set<string>, keys: bool, remove: set<string>)

  datatype Probe = ProbeFailed | Known | New

  predicate UpsertsWork(f: ReindexFaults, walked: set<string>) {
    forall k <- walked :: k !in f.probe && k !in f.upsert
  }

  predicate RemovesWork(f: ReindexFaults, orphans: set<string>) {
    !f.keys && forall k <- orphans :: k !in f.remove
  }

  /** Every statement the rebuild comes to succeeds. */
  predicate RebuildWorks(f: ReindexFaults, walked: set<string>, indexed: set<string>) {
    !f.list && UpsertsWork(f, walked) && RemovesWork(f, indexed - walked)
  }

  datatype Visit = Visit(key: string, meta: EntryMeta)

  function VisitedKeys(visits: seq<Visit>): seq<string> {
    Project(visits, (v: Visit) => v.key)
  }

  /** A walk visits every key with a readable meta once, in no particular order. */
  ghost predicate IsWalk(codec: Codec, objects: Objects, visits: seq<Visit>) {
    && Distinct(VisitedKeys(visits))
    && Elements(VisitedKeys(visits)) == WalkedKeys(codec, objects)
    && forall v <- visits :: IsReadableMeta(codec, objects, MetaName(v.key)) &&
                             codec.decode(objects[MetaName(v.key)]) == Some(v.meta)
  }

  class Cache {
    const codec: Codec
    const storage: Store
    const index: Index?

    constructor (codec: Codec, storage: Store, index: Index?)
      ensures this.codec == codec && this.storage == storage && this.index == index
    {
      this.codec, this.storage, this.index := codec, storage, index;
    }

    ghost function IndexView(): IndexState
      requires index != null
      reads index
    {
      IndexState(index.rows, index.dirty)
    }

    /** The same when there may be no index. */
    ghost function IndexIfAny(): Option<IndexState>
      reads index
    {
      if index == null then None else Some(IndexView())
    }

    /** The index, if there is one, takes a new row; a failing statement is ignored. */
    method NoteInsert(key: string, row: Row, fails: bool)
      modifies index
      ensures index != null ==>
                IndexView() == IndexState(if fails then old(index.rows) else InsertRow(old(index.rows), key, row), old(index.dirty))
    {
      if index != null {
        var _ := index.Insert(key, row, fails);
      }
    }

    /** The index, if there is one, forgets a key; a failing statement is ignored. */
    method NoteDelete(key: string, fails: bool)
      modifies index
      ensures index != null ==> IndexView() == if fails then old(IndexView()) else Forget(old(IndexView()), key)
    {
      if index != null {
        var _ := index.Delete(key, fails);
      }
    }

    /** The two storage writes of a Put: meta first, then body. */
    method StoreEntry(key: string, meta: EntryMeta, body: Bytes, f: Faults) returns (ok: bool)
      modifies storage
      ensures ok == StoreSucceeds(Seen(storage.readOnly, f))
      ensures storage.objects == Stored(codec, old(storage.objects), key, meta, body, Seen(storage.readOnly, f))
      ensures storage.recorded == old(storage.recorded) + RecordedBy(storage.recording, key, Seen(storage.readOnly, f))
    {
      SeenWrites(storage.readOnly, f);
      ok := storage.Put(MetaName(key), codec.encode(meta), f.putMeta);
      if ok {
        ok := storage.Put(BodyName(key), body, f.putBody);
      }
    }

    method Put(key: string, meta: EntryMeta, body: Bytes, now: nat, f: Faults) returns (ok: bool)
      modifies storage, index
      ensures ok == StoreSucceeds(Seen(storage.readOnly, f))
      ensures storage.objects == Stored(codec, old(storage.objects), key, meta, body, Seen(storage.readOnly, f))
      ensures storage.recorded == old(storage.recorded) + RecordedBy(storage.recording, key, Seen(storage.readOnly, f))
      ensures index != null ==>
                IndexView() == IndexAfterPut(old(IndexView()), key, meta, body, now, Seen(storage.readOnly, f))
    {
      ok := StoreEntry(key, meta, body, f);
      if ok {
        var size := if f.sizeBody then 0 else |storage.objects[BodyName(key)]|;
        NoteInsert(key, Row(InfoFor(meta, size), now, now, 0), f.index);
      }
    }

    method Get(key: string, now: nat, f: Faults) returns (r: GetOutcome)
      modifies index
      ensures r == Lookup(codec, storage.objects, key, f)
      ensures index != null ==> IndexView() == IndexAfterGet(old(IndexView()), storage.objects, key, r, now, f)
    {
      if f.openMeta.AskFails? {
        return Broken;
      }
      if f.openMeta.AskMisses? || MetaName(key) !in storage.objects {
        NoteDelete(key, f.index);
        return Absent;
      }
      var meta := codec.decode(storage.objects[MetaName(key)]);
      if meta.None? || f.openBody.AskFails? {
        return Broken;
      }
      if f.openBody.AskMisses? || BodyName(key) !in storage.objects {
        NoteDelete(key, f.index);
        return Absent;
      }
      var body := storage.objects[BodyName(key)];
      if index != null {
        index.RecordHit(key, InfoFor(meta.value, if f.sizeBody then 0 else |body|), now);
      }
      return Hit(meta.value, BytesRead(body, f.cutBody));
    }

    /** The existence check and the two storage deletions of a Delete. */
    method EraseEntry(key: string, f: Faults) returns (r: DeleteOutcome)
      modifies storage`objects
      ensures r == EraseOutcome(old(storage.objects), key, Seen(storage.readOnly, f))
      ensures storage.objects == Erased(old(storage.objects), key, Seen(storage.readOnly, f))
    {
      SeenWrites(storage.readOnly, f);
      if f.existsMeta.AskFails? {
        return DeleteFailed;
      }
      if f.existsMeta.AskMisses? || MetaName(key) !in storage.objects {
        return DeleteNotFound;
      }
      var ok := storage.Delete(MetaName(key), f.deleteMeta);
      if !ok {
        return DeleteFailed;
      }
      ok := storage.Delete(BodyName(key), f.deleteBody);
      if !ok {
        return DeleteFailed;
      }
      return Deleted;
    }

    method Delete(key: string, f: Faults) returns (r: DeleteOutcome)
      modifies storage`objects, index
      ensures r == EraseOutcome(old(storage.objects), key, Seen(storage.readOnly, f))
      ensures storage.objects == Erased(old(storage.objects), key, Seen(storage.readOnly, f))
      ensures index != null ==> IndexView() == IndexAfterDelete(old(IndexView()), key, r, f)
    {
      r := EraseEntry(key, f);
      if !r.DeleteFailed? {
        NoteDelete(key, f.index);
      }
    }

    /** Objects in `unreadable` are listed but cannot be read, and are skipped like corrupt
        ones: the walk is that of the storage without them. */
    method Walk(listFails: bool, unreadable: set<Name>) returns (r: Option<seq<Visit>>)
      ensures r.None? <==> listFails
      ensures r.Some? ==> IsWalk(codec, storage.objects - unreadable, r.value)
    {
      if listFails {
        return None;
      }
      var names := Enumerate(storage.objects.Keys);
      ghost var visible := storage.objects - unreadable;
      var visits: seq<Visit> := [];
      for i := 0 to |names|
        invariant Distinct(VisitedKeys(visits))
        invariant forall k :: k in VisitedKeys(visits) <==>
          MetaName(k) in names[..i] && IsReadableMeta(codec, visible, MetaName(k))
        invariant forall v <- visits :: IsReadableMeta(codec, visible, MetaName(v.key)) &&
                                        codec.decode(visible[MetaName(v.key)]) == Some(v.meta)
      {
        assert names[i] in Elements(names);
        assert names[..i + 1] == names[..i] + [names[i]];
        assert names[i] !in names[..i];
        if names[i].MetaName? && names[i] !in unreadable {
          var meta := codec.decode(storage.objects[names[i]]);
          if meta.Some? {
            ghost var before := VisitedKeys(visits);
            assert names[i] == MetaName(names[i].key);
            assert names[i].key !in before;
            visits := visits + [Visit(names[i].key, meta.value)];
            assert VisitedKeys(visits) == before + [names[i].key];
          }
        }
      }
      WalkIsWhole(codec, storage.objects, unreadable, names, VisitedKeys(visits));
      return Some(visits);
    }

    method ProbeAndUpsert(key: string, info: Info, now: nat, f: ReindexFaults) returns (r: Probe)
      requires index != null
      modifies index`rows
      ensures r.ProbeFailed? <==> key in f.probe || key in f.upsert
      ensures r.Known? ==> key in old(index.rows)
      ensures r.New? ==> key !in old(index.rows)
      ensures index.rows == if r.ProbeFailed? then old(index.rows) else UpsertRow(old(index.rows), key, info, now)
    {
      var probe := index.Get(key, key in f.probe);
      if probe.RowError? {
        return ProbeFailed;
      }
      var ok := index.Upsert(key, info, now, key in f.upsert);
      r := if !ok then ProbeFailed else if probe.RowFound? then Known else New;
    }

    /** The walk of a reindex: every walked key is probed, counted and upserted, up to the
        first statement that fails. `visible` is the storage without unreadable objects. */
    method UpsertWalked(visible: Objects, visits: seq<Visit>, stamp: string -> nat, f: ReindexFaults)
      returns (ok: bool, seen: set<string>, counts: Counts)
      requires index != null && IsWalk(codec, visible, visits)
      modifies index`rows
      ensures ok == UpsertsWork(f, WalkedKeys(codec, visible))
      ensures seen <= WalkedKeys(codec, visible) && (ok ==> seen == WalkedKeys(codec, visible))
      ensures forall k <- seen :: IsReadableMeta(codec, visible, MetaName(k))
      ensures index.rows == UpsertedRows(codec, visible, old(index.rows), stamp, seen)
      ensures counts == SeenCounts(seen, old(index.rows).Keys)
    {
      ghost var flushed := index.rows;
      ghost var keys := VisitedKeys(visits);
      NoneUpserted(codec, visible, flushed, stamp);
      seen, counts := {}, Counts(0, 0, 0);
      assert UpsertsDone(codec, visible, flushed, stamp, {}, index.rows, counts);
      for i := 0 to |visits|
        invariant seen == Elements(keys[..i])
        invariant UpsertsDone(codec, visible, flushed, stamp, seen, index.rows, counts)
        invariant UpsertsWork(f, seen)
      {
        var key := visits[i].key;
        var info := InfoFor(visits[i].meta, SizeOrZero(visible, key));
        WalkStep(codec, visible, visits, i);
        UpsertsOneMore(codec, visible, flushed, stamp, seen, index.rows, counts, key);
        var probe := ProbeAndUpsert(key, info, stamp(key), f);
        if probe.ProbeFailed? {
          return false, seen, counts;
        }
        counts := if probe.Known? then counts.(updated := counts.updated + 1) else counts.(inserted := counts.inserted + 1);
        seen := seen + {key};
      }
      WholePrefix(keys);
      ok := true;
    }

    /** The second half of a reindex: rows that the walk did not see are deleted, up to the
        first statement that fails. */
    method RemoveOrphans(seen: set<string>, f: ReindexFaults) returns (ok: bool, removed: nat, ghost gone: set<string>)
      requires index != null && index.dirty == map[]
      modifies index
      ensures ok == RemovesWork(f, old(index.rows).Keys - seen)
      ensures gone <= old(index.rows).Keys - seen && (ok ==> gone == old(index.rows).Keys - seen)
      ensures index.rows == old(index.rows) - gone && index.dirty == map[]
      ensures removed == |gone|
    {
      ghost var rows := index.rows;
      removed, gone := 0, {};
      PruneOneMore(rows, {}, "");
      var listed := index.AllKeys(f.keys);
      if listed.None? {
        return false, 0, {};
      }
      var keys := listed.value;
      for i := 0 to |keys|
        invariant index.dirty == map[] && gone == Elements(keys[..i]) - seen
        invariant index.rows == rows - gone && removed == |gone|
        invariant RemovesWork(f, gone)
      {
        PrefixStepOutside(keys, i, seen);
        if keys[i] !in seen {
          var deleted := RemoveOne(keys[i], f, rows, gone);
          if !deleted {
            assert keys[i] in Elements(keys) - seen;
            return false, removed, gone;
          }
          gone := gone + {keys[i]};
          removed := removed + 1;
        }
      }
      WholePrefix(keys);
      ok := true;
    }

    method RemoveOne(key: string, f: ReindexFaults, ghost rows: Table, ghost gone: set<string>) returns (ok: bool)
      requires index != null && index.dirty == map[] && index.rows == rows - gone
      modifies index
      ensures ok == (key !in f.remove) && index.dirty == map[]
      ensures index.rows == rows - if ok then gone + {key} else gone
    {
      PruneOneMore(rows, gone, key);
      ok := index.Delete(key, key in f.remove);
    }

    /** The walk and the removal of orphans, once the buffer is flushed. */
    method Rebuild(stamp: string -> nat, f: ReindexFaults) returns (ok: bool, counts: Counts)
      requires index != null && index.dirty == map[]
      modifies index
      ensures index.dirty == map[]
      ensures ok == RebuildWorks(f, WalkedKeys(codec, storage.objects - f.unreadable), old(index.rows).Keys)
      ensures ok ==>
                var visible := storage.objects - f.unreadable;
                index.rows == ReindexedRows(codec, visible, old(index.rows), stamp) &&
                counts == CountsFor(WalkedKeys(codec, visible), old(index.rows).Keys)
      ensures PartlyReindexed(codec, storage.objects - f.unreadable, old(index.rows), stamp, index.rows)
    {
      var visible := storage.objects - f.unreadable;
      ghost var flushed := index.rows;
      counts := Counts(0, 0, 0);
      UntouchedIsPartly(codec, visible, flushed, stamp);
      var visits := Walk(f.list, f.unreadable);
      if visits.None? {
        return false, counts;
      }
      var seen: set<string>;
      ok, seen, counts := UpsertWalked(visible, visits.value, stamp, f);
      UpsertedIsPartly(codec, visible, flushed, stamp, seen, {});
      if !ok {
        return;
      }
      UpsertedKeys(codec, visible, flushed, stamp, seen);
      var removed;
      ghost var gone;
      ok, removed, gone := RemoveOrphans(seen, f);
      UpsertedIsPartly(codec, visible, flushed, stamp, seen, gone);
      UpsertedThenPruned(codec, visible, flushed, stamp);
      counts := counts.(removed := removed);
    }

    /** Rebuilds the index from storage. `stamp` gives the clock reading at each key's
        upsert. A statement that fails part way ends the rebuild where it is. */
    method Reindex(f: ReindexFaults, stamp: string -> nat) returns (ok: bool, counts: Counts)
      modifies index
      ensures ok <==>
                && index != null && FlushSucceeds(old(index.dirty), f.flush)
                && RebuildWorks(f, WalkedKeys(codec, storage.objects - f.unreadable),
                                Commit(old(index.rows), old(index.dirty)).Keys)
      ensures ok ==>
                var visible, flushed := storage.objects - f.unreadable, Commit(old(index.rows), old(index.dirty));
                index.rows == ReindexedRows(codec, visible, flushed, stamp) &&
                counts == CountsFor(WalkedKeys(codec, visible), flushed.Keys)
      ensures index != null && FlushSucceeds(old(index.dirty), f.flush) ==>
                index.dirty == map[] &&
                PartlyReindexed(codec, storage.objects - f.unreadable, Commit(old(index.rows), old(index.dirty)), stamp, index.rows)
      ensures index != null && !FlushSucceeds(old(index.dirty), f.flush) ==> IndexView() == old(IndexView())
    {
      counts := Counts(0, 0, 0);
      if index == null {
        return false, counts;
      }
      ok := index.Flush(f.flush);
      if !ok {
        return false, counts;
      }
      ok, counts := Rebuild(stamp, f);
    }

    /** The dry run compares the key sets without flushing or writing. */
    method DryRunReindex(f: ReindexFaults) returns (r: Option<Counts>)
      requires index != null
      ensures r == if f.list || f.keys then None
                   else Some(CountsFor(WalkedKeys(codec, storage.objects - f.unreadable), index.rows.Keys))
    {
      var visits := Walk(f.list, f.unreadable);
      if visits.None? {
        return None;
      }
      var seen := Elements(VisitedKeys(visits.value));
      var idxKeys := index.AllKeys(f.keys);
      if idxKeys.None? {
        return None;
      }
      var idxSet := Elements(idxKeys.value);
      var inserted, updated := CountSeen(seen, idxSet);
      var removed := CountUnseen(idxKeys.value, seen);
      return Some(Counts(inserted, updated, removed));
    }
  }

  method CountSeen(seen: set<string>, idxSet: set<string>) returns (inserted: nat, updated: nat)
    ensures inserted == |seen - idxSet| && updated == |seen * idxSet|
  {
    inserted, updated := 0, 0;
    var todo := seen;
    ghost var done: set<string>, newKeys: set<string>, oldKeys: set<string> := {}, {}, {};
    while todo != {}
      invariant done + todo == seen && done !! todo
      invariant newKeys == done - idxSet && oldKeys == done * idxSet
      invariant inserted == |newKeys| && updated == |oldKeys|
      decreases todo
    {
      var k :| k in todo;
      CountOneMore(done, idxSet, k);
      if k in idxSet {
        updated, oldKeys := updated + 1, oldKeys + {k};
      } else {
        inserted, newKeys := inserted + 1, newKeys + {k};
      }
      todo, done := todo - {k}, done + {k};
    }
    assert done == seen;
  }

  method CountUnseen(keys: seq<string>, seen: set<string>) returns (removed: nat)
    requires Distinct(keys)
    ensures removed == |Elements(keys) - seen|
  {
    removed := 0;
    for i := 0 to |keys|
      invariant removed == |Elements(keys[..i]) - seen|
    {
      PrefixStepOutside(keys, i, seen);
      if keys[i] !in seen {
        removed := removed + 1;
      }
    }
    WholePrefix(keys);
  }

  lemma WalkIsWhole(codec: Codec, objects: Objects, unreadable: set<Name>, names: seq<Name>, visited: seq<string>)
    requires Elements(names) == objects.Keys
    requires forall k :: k in visited <==>
               MetaName(k) in names[..|names|] && IsReadableMeta(codec, objects - unreadable, MetaName(k))
    ensures Elements(visited) == WalkedKeys(codec, objects - unreadable)
  {
    WholePrefix(names);
    forall k
      ensures k in Elements(visited) <==> k in WalkedKeys(codec, objects - unreadable)
    {
      WalkedIff(codec, objects - unreadable, k);
      assert MetaName(k) in names <==> MetaName(k) in Elements(names);
    }
  }

  /** One visited key: new, readable, and described by what the walk read. */
  lemma WalkStep(codec: Codec, objects: Objects, visits: seq<Visit>, i: nat)
    requires IsWalk(codec, objects, visits) && i < |visits|
    ensures var keys := VisitedKeys(visits);
            && visits[i].key !in Elements(keys[..i])
            && Elements(keys[..i + 1]) == Elements(keys[..i]) + {visits[i].key}
            && IsReadableMeta(codec, objects, MetaName(visits[i].key))
            && InfoOf(codec, objects, visits[i].key) == InfoFor(visits[i].meta, SizeOrZero(objects, visits[i].key))
  {
    PrefixStep(VisitedKeys(visits), i);
    assert visits[i] in visits;
  }
}
