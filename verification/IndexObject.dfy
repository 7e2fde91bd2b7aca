/** The index object: SQL rows, the buffer of pending hits and the flush signal. */
module IndexObject {
  import opened Common
  import opened IndexTable
  import opened SqlLike

  const DEFAULT_FLUSH_THRESHOLD: nat := 1000

  datatype Entry = Entry(key: string, row: Row)

  datatype RowResult = RowFound(row: Row) | NoRow | RowError

  /** Where a flush's transaction fails, if it does. */
  datatype FlushFault = Works | BeginFails | ExecFails(after: nat) | CommitFails

  predicate FlushSucceeds(pending: Batch, fault: FlushFault) {
    pending == map[] || fault.Works? || (fault.ExecFails? && fault.after >= |pending|)
  }

  /** Exactly one of the first three is set; empty means unset. */
  datatype ListFilter = ListFilter(key: string, url: string, urlPrefix: string, verb: string)

  /** The WHERE clause `List` builds. */
  predicate Matches(f: ListFilter, e: Entry) {
    (if f.key != "" then e.key == f.key
     else if f.url != "" then e.row.info.url == f.url
     else if f.urlPrefix != "" then Like(f.urlPrefix + "%", e.row.info.url)
     else true)
    && (f.verb != "" ==> e.row.info.verb == f.verb)
  }

  function Matching(rows: Table, f: ListFilter): set<string> {
    set k | k in rows && Matches(f, Entry(k, rows[k]))
  }

  predicate InOrder(ascending: bool, a: nat, b: nat) {
    if ascending then a <= b else a >= b
  }

  function KeysOf(out: seq<Entry>): seq<string> {
    Project(out, (e: Entry) => e.key)
  }

  /** The answer to a SELECT over `wanted` with ORDER BY last_accessed_at and LIMIT:
      rows of the table, each once, in order, as many as asked for, and none left
      out that sorts before one listed. */
  ghost predicate IsSelection(out: seq<Entry>, rows: Table, wanted: set<string>, limit: nat, ascending: bool) {
    && (forall e <- out :: e.key in wanted && e.key in rows && e.row == rows[e.key])
    && Distinct(KeysOf(out))
    && |out| == (if limit > 0 && limit < |wanted| then limit else |wanted|)
    && (forall i, j :: 0 <= i < j < |out| ==>
          InOrder(ascending, out[i].row.lastAccessedAt, out[j].row.lastAccessedAt))
    && (forall k, i :: k in wanted && k in rows && k !in KeysOf(out) && 0 <= i < |out| ==>
          InOrder(ascending, out[i].row.lastAccessedAt, rows[k].lastAccessedAt))
  }

  ghost predicate IsFirst(rows: Table, todo: set<string>, ascending: bool, key: string) {
    key in todo && key in rows &&
    forall j <- todo :: j in rows ==> InOrder(ascending, rows[key].lastAccessedAt, rows[j].lastAccessedAt)
  }

  lemma {:induction false} FirstExists(rows: Table, todo: set<string>, ascending: bool) returns (key: string)
    requires todo != {} && todo <= rows.Keys
    ensures IsFirst(rows, todo, ascending, key)
    decreases |todo|
  {
    var k :| k in todo;
    if todo == {k} {
      key := k;
    } else {
      var rest := todo - {k};
      assert todo == {k} + rest;
      key := FirstExists(rows, rest, ascending);
      if InOrder(ascending, rows[k].lastAccessedAt, rows[key].lastAccessedAt) {
        key := k;
      }
    }
  }

  /** A selection without a limit lists exactly the rows wanted. */
  lemma SelectsAll(out: seq<Entry>, rows: Table, wanted: set<string>, ascending: bool)
    requires wanted <= rows.Keys
    requires IsSelection(out, rows, wanted, 0, ascending)
    ensures Elements(KeysOf(out)) == wanted
  {
    DistinctCount(KeysOf(out));
    SubsetOfSameSize(Elements(KeysOf(out)), wanted);
  }

  /** Part of a selection: what is listed comes before everything still to do. */
  ghost predicate Selected(out: seq<Entry>, rows: Table, wanted: set<string>, todo: set<string>, ascending: bool)
    requires wanted <= rows.Keys && todo <= wanted
  {
    && (forall e <- out :: e.key in wanted && e.key !in todo && e.row == rows[e.key])
    && (forall k <- wanted :: k in todo || k in KeysOf(out))
    && Distinct(KeysOf(out))
    && (forall i, j :: 0 <= i < j < |out| ==>
          InOrder(ascending, out[i].row.lastAccessedAt, out[j].row.lastAccessedAt))
    && (forall k, i :: k in todo && 0 <= i < |out| ==>
          InOrder(ascending, out[i].row.lastAccessedAt, rows[k].lastAccessedAt))
  }

  lemma SelectOneMore(out: seq<Entry>, rows: Table, wanted: set<string>, todo: set<string>, ascending: bool, key: string)
    requires wanted <= rows.Keys && todo <= wanted
    requires Selected(out, rows, wanted, todo, ascending) && IsFirst(rows, todo, ascending, key)
    ensures Selected(out + [Entry(key, rows[key])], rows, wanted, todo - {key}, ascending)
  {
    assert KeysOf(out + [Entry(key, rows[key])]) == KeysOf(out) + [key];
  }

  /** The part of a batch already visited grows by one delta at a time to the whole. */
  lemma OneMoreVisited(pending: Batch, todo: set<string>, key: string)
    requires key in todo && todo <= pending.Keys
    ensures pending - (todo - {key}) == (pending - todo)[key := pending[key]]
  {
  }

  lemma AllOrNoneVisited(pending: Batch)
    ensures pending - pending.Keys == map[] && pending - {} == pending
  {
  }

  lemma SetTwice(batch: Batch, key: string, first: HitDelta, second: HitDelta)
    ensures batch[key := first][key := second] == batch[key := second]
  {
  }

  class Index {
    var rows: Table
    var dirty: Batch
    var signalled: bool
    const threshold: nat

    constructor (flushThreshold: nat)
      ensures rows == map[] && dirty == map[] && !signalled
      ensures threshold == if flushThreshold == 0 then DEFAULT_FLUSH_THRESHOLD else flushThreshold
    {
      rows, dirty, signalled := map[], map[], false;
      threshold := if flushThreshold == 0 then DEFAULT_FLUSH_THRESHOLD else flushThreshold;
    }

    method RecordHit(key: string, info: Info, now: nat)
      modifies this`dirty, this`signalled
      ensures dirty == IndexTable.BufferHit(old(dirty), key, Some(info), now)
      ensures signalled == (old(signalled) || |dirty| >= threshold)
    {
      BufferHit(key, Some(info), now);
    }

    method Touch(key: string, now: nat)
      modifies this`dirty, this`signalled
      ensures dirty == IndexTable.BufferHit(old(dirty), key, None, now)
      ensures signalled == (old(signalled) || |dirty| >= threshold)
    {
      BufferHit(key, None, now);
    }

    method BufferHit(key: string, info: Option<Info>, now: nat)
      modifies this`dirty, this`signalled
      ensures dirty == IndexTable.BufferHit(old(dirty), key, info, now)
      ensures signalled == (old(signalled) || |dirty| >= threshold)
    {
      ghost var before := dirty;
      if key !in dirty {
        dirty := dirty[key := HitDelta(0, 0, None)];
      }
      var d := dirty[key];
      d := d.(hits := d.hits + 1);
      if now > d.lastAccessedAt {
        d := d.(lastAccessedAt := now);
      }
      if info.Some? {
        d := d.(info := info);
      }
      SetTwice(before, key, HitDelta(0, 0, None), d);
      dirty := dirty[key := d];
      if |dirty| >= threshold {
        signalled := true;
      }
    }

    /** The critical section of a flush: the buffer is swapped for an empty one. */
    method TakeBuffer() returns (pending: Batch)
      modifies this`dirty
      ensures pending == old(dirty) && dirty == map[]
    {
      pending := dirty;
      dirty := map[];
    }

    /** The transaction of a flush; a failure anywhere leaves the table as it was. */
    method WriteBatch(pending: Batch, fault: FlushFault) returns (ok: bool)
      modifies this`rows
      ensures ok == FlushSucceeds(pending, fault)
      ensures rows == if ok then Commit(old(rows), pending) else old(rows)
    {
      var tx := rows;
      if fault.BeginFails? && pending != map[] {
        return false;
      }
      tx, ok := ExecAll(rows, pending, if fault.ExecFails? then Some(fault.after) else None);
      if fault.CommitFails? && pending != map[] {
        ok := false;
      }
      if ok {
        rows := tx;
      }
    }

    /** A failed batch goes back under whatever was buffered since. */
    method RequeueBatch(pending: Batch)
      modifies this`dirty
      ensures dirty == Requeue(old(dirty), pending)
    {
      var todo := pending.Keys;
      AllOrNoneVisited(pending);
      while todo != {}
        invariant todo <= pending.Keys
        invariant dirty == Requeue(old(dirty), pending - todo)
        decreases todo
      {
        var key :| key in todo;
        OneMoreVisited(pending, todo, key);
        var d := pending[key];
        if key !in dirty {
          dirty := dirty[key := d];
        } else {
          var e := dirty[key];
          e := e.(hits := e.hits + d.hits);
          if d.lastAccessedAt > e.lastAccessedAt {
            e := e.(lastAccessedAt := d.lastAccessedAt);
          }
          dirty := dirty[key := e];
        }
        todo := todo - {key};
      }
    }

    method Flush(fault: FlushFault) returns (ok: bool)
      modifies this`rows, this`dirty
      ensures ok == FlushSucceeds(old(dirty), fault)
      ensures ok ==> rows == Commit(old(rows), old(dirty)) && dirty == map[]
      ensures !ok ==> rows == old(rows) && dirty == old(dirty)
    {
      if dirty == map[] {
        assert Commit(rows, map[]) == rows;
        return true;
      }
      var pending := TakeBuffer();
      ok := WriteBatch(pending, fault);
      if !ok {
        RequeueBatch(pending);
      }
    }

    /** A statement that fails changes nothing; `fails` says that it does. */
    method Insert(key: string, row: Row, fails: bool) returns (ok: bool)
      modifies this`rows
      ensures ok == !fails
      ensures rows == if ok then InsertRow(old(rows), key, row) else old(rows)
    {
      ok := !fails;
      if ok {
        rows := rows[key := row];
      }
    }

    method Upsert(key: string, info: Info, now: nat, fails: bool) returns (ok: bool)
      modifies this`rows
      ensures ok == !fails
      ensures rows == if ok then UpsertRow(old(rows), key, info, now) else old(rows)
    {
      ok := !fails;
      if ok {
        if key in rows {
          rows := rows[key := rows[key].(info := info)];
        } else {
          rows := rows[key := Row(info, now, now, 0)];
        }
      }
    }

    method Get(key: string, fails: bool) returns (r: RowResult)
      ensures r.RowError? <==> fails
      ensures r.NoRow? ==> key !in rows
      ensures r.RowFound? ==> key in rows && r.row == rows[key]
    {
      r := if fails then RowError else if key in rows then RowFound(rows[key]) else NoRow;
    }

    /** The buffered hits go only once the statement has succeeded. */
    method Delete(key: string, fails: bool) returns (ok: bool)
      modifies this`rows, this`dirty
      ensures ok == !fails
      ensures ok ==> rows == old(rows) - {key} && dirty == old(dirty) - {key}
      ensures !ok ==> rows == old(rows) && dirty == old(dirty)
    {
      if fails {
        return false;
      }
      rows := rows - {key};
      dirty := dirty - {key};
      return true;
    }

    method Select(wanted: set<string>, limit: nat, ascending: bool) returns (out: seq<Entry>)
      requires wanted <= rows.Keys
      ensures IsSelection(out, rows, wanted, limit, ascending)
    {
      out := [];
      var todo := wanted;
      while todo != {} && (limit == 0 || |out| < limit)
        invariant todo <= wanted && |out| + |todo| == |wanted|
        invariant limit > 0 ==> |out| <= limit
        invariant Selected(out, rows, wanted, todo, ascending)
        decreases todo
      {
        ghost var witnessed := FirstExists(rows, todo, ascending);
        assert forall j <- todo :: InOrder(ascending, rows[witnessed].lastAccessedAt, rows[j].lastAccessedAt);
        var key :| key in todo &&
                   forall j <- todo :: InOrder(ascending, rows[key].lastAccessedAt, rows[j].lastAccessedAt);
        SelectOneMore(out, rows, wanted, todo, ascending, key);
        out := out + [Entry(key, rows[key])];
        todo := todo - {key};
      }
    }

    method List(f: ListFilter, limit: nat, fails: bool) returns (r: Option<seq<Entry>>)
      ensures r.None? <==> fails
      ensures r.Some? ==> IsSelection(r.value, rows, Matching(rows, f), limit, false)
    {
      if fails {
        return None;
      }
      var out := Select(Matching(rows, f), limit, false);
      return Some(out);
    }

    method LRUEntries(cutoff: int, limit: nat, fails: bool) returns (r: Option<seq<Entry>>)
      ensures r.None? <==> fails
      ensures r.Some? ==> IsSelection(r.value, rows, Eligible(rows, cutoff), limit, true)
    {
      if fails {
        return None;
      }
      var out := Select(Eligible(rows, cutoff), limit, true);
      return Some(out);
    }

    method TotalBodySize(fails: bool) returns (r: Option<nat>)
      ensures r == if fails then None else Some(TotalSize(rows))
    {
      if fails {
        return None;
      }
      var total: nat := 0;
      var todo := rows.Keys;
      assert rows - (rows.Keys - todo) == rows;
      while todo != {}
        invariant todo <= rows.Keys
        invariant total + TotalSize(rows - (rows.Keys - todo)) == TotalSize(rows)
        decreases todo
      {
        var key :| key in todo;
        ghost var left := rows - (rows.Keys - todo);
        TotalSizeWithout(left, key);
        total := total + rows[key].info.bodySize;
        todo := todo - {key};
        assert rows - (rows.Keys - todo) == left - {key};
      }
      assert rows - (rows.Keys - todo) == map[];
      return Some(total);
    }

    method AllKeys(fails: bool) returns (r: Option<seq<string>>)
      ensures r.None? <==> fails
      ensures r.Some? ==> Distinct(r.value) && Elements(r.value) == rows.Keys
    {
      if fails {
        return None;
      }
      var keys := Enumerate(rows.Keys);
      return Some(keys);
    }
  }

  /** The rows an eviction may look at: a cutoff that is not positive means all. */
  function Eligible(rows: Table, cutoff: int): set<string> {
    set k | k in rows && (cutoff > 0 ==> rows[k].lastAccessedAt < cutoff)
  }

  /** The statements of one flush transaction. The batch is visited in no particular
      order; a statement may fail after some others went through. */
  method ExecAll(rows: Table, pending: Batch, failAfter: Option<nat>) returns (tx: Table, ok: bool)
    ensures ok == (failAfter == None || failAfter.value >= |pending|)
    ensures ok ==> tx == Commit(rows, pending)
  {
    tx := rows;
    var todo := pending.Keys;
    var done: nat := 0;
    AllOrNoneVisited(pending);
    ghost var written: Batch := map[];
    assert tx == Commit(rows, written);
    while todo != {}
      invariant todo <= pending.Keys && done + |todo| == |pending|
      invariant failAfter.Some? ==> done <= failAfter.value
      invariant written == pending - todo
      invariant tx == Commit(rows, written)
      decreases todo
    {
      if failAfter.Some? && failAfter.value == done {
        return tx, false;
      }
      var key :| key in todo;
      OneMoreVisited(pending, todo, key);
      tx := ExecOne(rows, tx, written, key, pending[key]);
      written := written[key := pending[key]];
      todo := todo - {key};
      done := done + 1;
    }
    return tx, true;
  }

  /** One statement: an upsert for a recorded hit, a plain update for a touch. */
  method ExecOne(ghost rows: Table, tx: Table, ghost written: Batch, key: string, d: HitDelta) returns (tx': Table)
    requires key !in written && tx == Commit(rows, written)
    ensures tx' == Commit(rows, written[key := d])
  {
    if d.info.Some? {
      tx' := tx[key := if key in tx then Bump(tx[key], d) else Row(d.info.value, d.lastAccessedAt, d.lastAccessedAt, d.hits)];
    } else if key in tx {
      tx' := tx[key := Bump(tx[key], d)];
    } else {
      tx' := tx;
    }
  }
}
