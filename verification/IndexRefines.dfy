/** The buffered index against a write-through one. In a run with no overlapping
    flushes, applying the buffer to the table at any moment gives the same keys and
    the same usage columns as writing every hit through at once. */
module IndexRefines {
  import opened Common
  import opened IndexTable
  import opened IndexRuns

  datatype Op =
    | Hit(key: string, info: Info, now: nat)
    | Flush(ok: bool)
    | Delete(key: string)
    | Write(key: string, row: Row)

  /** A sequential call as steps of the protocol. */
  function StepsOf(op: Op): seq<Step> {
    match op
    case Hit(key, info, now) => [RecordHit(key, info, now)]
    case Flush(ok) => [Swap, if ok then CommitBatch(0) else FailBatch(0)]
    case Delete(key) => [DeleteRow(key), ForgetHits(key)]
    case Write(key, row) => [Insert(key, row)]
  }

  function Buffered(s: Sys, ops: seq<Op>): Sys
    decreases |ops|
  {
    if ops == [] then s else Buffered(Run(s, StepsOf(ops[0])), ops[1..])
  }

  /** One call on an index that has no buffer. */
  function DirectOne(rows: Table, op: Op): Table {
    match op
    case Hit(key, info, now) => FlushRow(rows, key, HitDelta(1, now, Some(info)))
    case Flush(_) => rows
    case Delete(key) => rows - {key}
    case Write(key, row) => InsertRow(rows, key, row)
  }

  function Direct(rows: Table, ops: seq<Op>): Table
    decreases |ops|
  {
    if ops == [] then rows else Direct(DirectOne(rows, ops[0]), ops[1..])
  }

  datatype Usage = Usage(hitCount: nat, lastAccessedAt: nat)

  function UsageOf(rows: Table): map<string, Usage> {
    map k | k in rows :: Usage(rows[k].hitCount, rows[k].lastAccessedAt)
  }

  /** The table as it will be once the buffer lands. */
  function Applied(s: Sys): Table {
    Commit(s.rows, s.dirty)
  }

  ghost predicate Carries(batch: Batch) {
    forall k <- batch :: batch[k].info.Some?
  }

  /** No flush is open, and every buffered delta came from RecordHit. */
  ghost predicate Quiet(s: Sys) {
    s.inFlight == [] && Carries(s.dirty) && forall k <- s.dirty :: s.dirty[k].hits > 0
  }

  lemma RunTwo(s: Sys, a: Step, b: Step)
    ensures Run(s, [a, b]) == Next(Next(s, a), b)
  {
    assert [a, b][1..] == [b] && [b][1..] == [];
    assert Run(Next(s, a), [b]) == Run(Next(Next(s, a), b), []);
  }

  /** What one sequential call leaves behind. */
  lemma OpEffect(s: Sys, op: Op)
    requires Quiet(s)
    ensures var s' := Run(s, StepsOf(op));
            Quiet(s') &&
            match op
            case Hit(key, info, now) => s' == s.(dirty := BufferHit(s.dirty, key, Some(info), now))
            case Flush(ok) => s' == if ok then Sys(Commit(s.rows, s.dirty), map[], []) else s
            case Delete(key) => s' == s.(rows := s.rows - {key}, dirty := s.dirty - {key})
            case Write(key, row) => s' == s.(rows := s.rows[key := row])
  {
    match op
    case Flush(ok) => FlushEffect(s, ok);
    case Delete(key) => RunTwo(s, DeleteRow(key), ForgetHits(key));
    case Hit(key, info, now) =>
    case Write(key, row) =>
  }

  lemma FlushEffect(s: Sys, ok: bool)
    requires s.inFlight == []
    ensures Run(s, StepsOf(Flush(ok))) == if ok then Sys(Commit(s.rows, s.dirty), map[], []) else s
  {
    var last := if ok then CommitBatch(0) else FailBatch(0);
    RunTwo(s, Swap, last);
    assert Requeue(map[], s.dirty) == s.dirty;
    if s.dirty == map[] {
      assert Commit(s.rows, map[]) == s.rows;
    } else {
      assert [] + [s.dirty] == [s.dirty] && Without([s.dirty], 0) == [];
    }
  }

  lemma HitThroughBuffer(rows: Table, dirty: Batch, key: string, info: Info, now: nat)
    requires Carries(dirty)
    ensures UsageOf(Commit(rows, BufferHit(dirty, key, Some(info), now))) ==
            UsageOf(FlushRow(Commit(rows, dirty), key, HitDelta(1, now, Some(info))))
  {
    var buffered := Commit(rows, BufferHit(dirty, key, Some(info), now));
    var direct := FlushRow(Commit(rows, dirty), key, HitDelta(1, now, Some(info)));
    assert buffered.Keys == direct.Keys;
    forall k | k in buffered
      ensures UsageOf(buffered)[k] == UsageOf(direct)[k]
    {
      if k != key { assert buffered[k] == direct[k]; }
    }
  }

  lemma EmptyBuffer(rows: Table)
    ensures Commit(rows, map[]) == rows
  {
  }

  lemma DeleteThroughBuffer(rows: Table, dirty: Batch, key: string)
    ensures Commit(rows - {key}, dirty - {key}) == Commit(rows, dirty) - {key}
  {
  }

  lemma WriteThroughBuffer(rows: Table, dirty: Batch, key: string, row: Row)
    requires key !in dirty
    ensures Commit(rows[key := row], dirty) == Commit(rows, dirty)[key := row]
  {
  }

  /** A call on the buffered index looks, through the buffer, like the direct call. */
  lemma OneCallRefines(s: Sys, op: Op)
    requires Quiet(s)
    requires op.Write? ==> op.key !in s.dirty
    ensures UsageOf(Applied(Run(s, StepsOf(op)))) == UsageOf(DirectOne(Applied(s), op))
  {
    OpEffect(s, op);
    if op.Hit? {
      HitThroughBuffer(s.rows, s.dirty, op.key, op.info, op.now);
    } else if op.Flush? {
      EmptyBuffer(Applied(s));
    } else if op.Delete? {
      DeleteThroughBuffer(s.rows, s.dirty, op.key);
    } else {
      WriteThroughBuffer(s.rows, s.dirty, op.key, op.row);
    }
  }

  /** The direct call moves usage by usage alone. */
  lemma UsageDeterminesUsage(a: Table, b: Table, op: Op)
    requires UsageOf(a) == UsageOf(b)
    ensures UsageOf(DirectOne(a, op)) == UsageOf(DirectOne(b, op))
  {
    assert a.Keys == UsageOf(a).Keys && b.Keys == UsageOf(b).Keys;
    forall k | k in a
      ensures a[k].hitCount == b[k].hitCount && a[k].lastAccessedAt == b[k].lastAccessedAt
    {
      assert UsageOf(a)[k] == UsageOf(b)[k];
    }
  }

  lemma {:induction false} DirectDependsOnUsage(a: Table, b: Table, ops: seq<Op>)
    requires UsageOf(a) == UsageOf(b)
    ensures UsageOf(Direct(a, ops)) == UsageOf(Direct(b, ops))
    decreases |ops|
  {
    if ops != [] {
      UsageDeterminesUsage(a, b, ops[0]);
      DirectDependsOnUsage(DirectOne(a, ops[0]), DirectOne(b, ops[0]), ops[1..]);
    }
  }

  /** Refinement over every sequential run of hits, deletes and flushes, whether the
      flushes succeed or fail. */
  lemma {:induction false} BufferRefinesWriteThrough(s: Sys, ops: seq<Op>)
    requires Quiet(s)
    requires forall op <- ops :: !op.Write?
    ensures Quiet(Buffered(s, ops))
    ensures UsageOf(Applied(Buffered(s, ops))) == UsageOf(Direct(Applied(s), ops))
    decreases |ops|
  {
    if ops != [] {
      var s' := Run(s, StepsOf(ops[0]));
      OpEffect(s, ops[0]);
      OneCallRefines(s, ops[0]);
      BufferRefinesWriteThrough(s', ops[1..]);
      DirectDependsOnUsage(Applied(s'), DirectOne(Applied(s), ops[0]), ops[1..]);
    }
  }

  /** After a flush that succeeds, the stored table itself is the direct one. */
  lemma FlushedTableIsDirect(s: Sys, ops: seq<Op>)
    requires Quiet(s)
    requires forall op <- ops :: !op.Write?
    ensures UsageOf(Buffered(s, ops + [Flush(true)]).rows) == UsageOf(Direct(Applied(s), ops))
  {
    BufferRefinesWriteThrough(s, ops);
    BufferedSplits(s, ops, [Flush(true)]);
    OpEffect(Buffered(s, ops), Flush(true));
  }

  lemma {:induction false} BufferedSplits(s: Sys, a: seq<Op>, b: seq<Op>)
    ensures Buffered(s, a + b) == Buffered(Buffered(s, a), b)
    decreases |a|
  {
    if a == [] {
      assert a + b == b;
    } else {
      assert (a + b)[1..] == a[1..] + b;
      BufferedSplits(Run(s, StepsOf(a[0])), a[1..], b);
    }
  }

  /** Insert resets the usage columns in the table but leaves buffered hits in place,
      so it acts like a direct write exactly when the key has none pending. */
  lemma WriteIsDirectIff(s: Sys, key: string, row: Row)
    requires Quiet(s)
    ensures UsageOf(Applied(Run(s, StepsOf(Write(key, row))))) == UsageOf(DirectOne(Applied(s), Write(key, row)))
            <==> key !in s.dirty
  {
    OpEffect(s, Write(key, row));
    var after := Applied(Run(s, StepsOf(Write(key, row))));
    if key !in s.dirty {
      OneCallRefines(s, Write(key, row));
    } else {
      assert UsageOf(after)[key].hitCount == row.hitCount + s.dirty[key].hits;
      assert UsageOf(DirectOne(Applied(s), Write(key, row)))[key].hitCount == row.hitCount;
    }
  }

  /** A key deleted with no flush open stays gone until it is hit or written again. */
  lemma DeletedStaysGone(s: Sys, key: string, ops: seq<Op>)
    requires Quiet(s)
    requires forall op <- ops :: (op.Hit? || op.Write?) ==> op.key != key
    ensures key !in Applied(Buffered(Run(s, StepsOf(Delete(key))), ops))
  {
    OpEffect(s, Delete(key));
    OthersLeaveItGone(Run(s, StepsOf(Delete(key))), key, ops);
  }

  lemma {:induction false} OthersLeaveItGone(s: Sys, key: string, ops: seq<Op>)
    requires Quiet(s) && key !in s.rows && key !in s.dirty
    requires forall op <- ops :: (op.Hit? || op.Write?) ==> op.key != key
    ensures key !in Applied(Buffered(s, ops))
    decreases |ops|
  {
    if ops != [] {
      OpEffect(s, ops[0]);
      OthersLeaveItGone(Run(s, StepsOf(ops[0])), key, ops[1..]);
    }
  }
}
