/** The index as values: the rows of the SQL table, the buffer of pending hits,
    and what each statement of internal/index does to them. */
module IndexTable {
  import opened Common

  /** The columns that describe an entry, as opposed to its usage. */
  datatype Info = Info(verb: string, url: string, status: int, bodySize: nat)

  datatype Row = Row(info: Info, createdAt: nat, lastAccessedAt: nat, hitCount: nat)

  type Table = map<string, Row>

  /** Pending hits of one key. `info` is None for a plain Touch. */
  datatype HitDelta = HitDelta(hits: nat, lastAccessedAt: nat, info: Option<Info>)

  type Batch = map<string, HitDelta>

  /** The UPDATE half of a flush: only the usage columns move. */
  function Bump(row: Row, d: HitDelta): Row {
    row.(lastAccessedAt := Max(row.lastAccessedAt, d.lastAccessedAt), hitCount := row.hitCount + d.hits)
  }

  /** One pending hit buffered: `bufferHit` without the threshold signal. */
  function BufferHit(dirty: Batch, key: string, info: Option<Info>, now: nat): Batch {
    var d := if key in dirty then dirty[key] else HitDelta(0, 0, None);
    dirty[key := HitDelta(d.hits + 1, Max(d.lastAccessedAt, now), if info.Some? then info else d.info)]
  }

  /** One statement of a flush: upsert when the delta carries info, update otherwise. */
  function FlushRow(rows: Table, key: string, d: HitDelta): Table {
    if key in rows then rows[key := Bump(rows[key], d)]
    else if d.info.Some? then rows[key := Row(d.info.value, d.lastAccessedAt, d.lastAccessedAt, d.hits)]
    else rows
  }

  /** Committing the batch inserts a row for `key` if there is none. */
  predicate CanRecreate(batch: Batch, key: string) {
    key in batch && batch[key].info.Some?
  }

  function RowAfter(rows: Table, batch: Batch, key: string): Row
    requires key in rows || CanRecreate(batch, key)
  {
    if key !in batch then rows[key]
    else if key in rows then Bump(rows[key], batch[key])
    else Row(batch[key].info.value, batch[key].lastAccessedAt, batch[key].lastAccessedAt, batch[key].hits)
  }

  /** The rows after a whole batch commits, one key at a time independently. */
  function Commit(rows: Table, batch: Batch): Table {
    map k | k in rows.Keys + batch.Keys && (k in rows || CanRecreate(batch, k)) :: RowAfter(rows, batch, k)
  }

  /** A failed batch merged back under the hits that arrived meanwhile. */
  function Requeue(dirty: Batch, pending: Batch): Batch {
    map k | k in dirty.Keys + pending.Keys ::
      if k !in dirty then pending[k]
      else if k !in pending then dirty[k]
      else HitDelta(dirty[k].hits + pending[k].hits,
                    Max(dirty[k].lastAccessedAt, pending[k].lastAccessedAt),
                    dirty[k].info)
  }

  /** INSERT ... ON CONFLICT DO UPDATE of every column. */
  function InsertRow(rows: Table, key: string, row: Row): Table {
    rows[key := row]
  }

  /** INSERT ... ON CONFLICT refreshing the descriptive columns only. */
  function UpsertRow(rows: Table, key: string, info: Info, now: nat): Table {
    rows[key := if key in rows then rows[key].(info := info) else Row(info, now, now, 0)]
  }

  // ---- total size ----

  ghost function SomeKey(rows: Table): (key: string)
    requires rows != map[]
    ensures key in rows
  {
    assert rows.Keys != {};
    var key :| key in rows;
    key
  }

  ghost function TotalSize(rows: Table): nat
    decreases |rows|
  {
    if rows == map[] then 0
    else rows[SomeKey(rows)].info.bodySize + TotalSize(rows - {SomeKey(rows)})
  }

  lemma {:induction false} TotalSizeWithout(rows: Table, key: string)
    requires key in rows
    ensures TotalSize(rows) == rows[key].info.bodySize + TotalSize(rows - {key})
    decreases |rows|
  {
    var k := SomeKey(rows);
    if k != key {
      TotalSizeWithout(rows - {k}, key);
      TotalSizeWithout(rows - {key}, k);
      assert rows - {k} - {key} == rows - {key} - {k};
    }
  }

  /** Only the set of keys and the sizes matter to the total. */
  lemma {:induction false} TotalSizeDepends(a: Table, b: Table)
    requires a.Keys == b.Keys
    requires forall k :: k in a ==> a[k].info.bodySize == b[k].info.bodySize
    ensures TotalSize(a) == TotalSize(b)
    decreases |a|
  {
    if a == map[] {
      assert b == map[];
    } else {
      var k := SomeKey(a);
      TotalSizeWithout(b, k);
      TotalSizeDepends(a - {k}, b - {k});
    }
  }

  /** The total of a table is that of the rows with these keys plus that of the others. */
  lemma {:induction false} TotalSizeSplit(rows: Table, keys: set<string>)
    ensures TotalSize(rows) == TotalSize(rows - (rows.Keys - keys)) + TotalSize(rows - keys)
    decreases |rows|
  {
    var inside, outside := rows - (rows.Keys - keys), rows - keys;
    if rows == map[] {
      assert inside == map[] && outside == map[];
    } else {
      var k := SomeKey(rows);
      var rest := rows - {k};
      TotalSizeSplit(rest, keys);
      if k in keys {
        TotalSizeWithout(inside, k);
        assert inside - {k} == rest - (rest.Keys - keys) && outside == rest - keys;
      } else {
        TotalSizeWithout(outside, k);
        assert inside == rest - (rest.Keys - keys) && outside - {k} == rest - keys;
      }
    }
  }

  lemma {:induction false} TotalSizeZero(rows: Table)
    requires forall k <- rows :: rows[k].info.bodySize == 0
    ensures TotalSize(rows) == 0
    decreases |rows|
  {
    if rows != map[] {
      TotalSizeZero(rows - {SomeKey(rows)});
    }
  }
}
