/** The hit buffer as a concurrent protocol. Hits are buffered, a flush swaps the
    buffer out, and any number of swapped-out batches may commit or fail (and be
    merged back) in any order while new hits arrive. */
module IndexRuns {
  import opened Common
  import opened IndexTable

  datatype Sys = Sys(rows: Table, dirty: Batch, inFlight: seq<Batch>)

  datatype Step =
    | RecordHit(key: string, info: Info, now: nat)
    | Touch(key: string, now: nat)
    | Swap                          // a flush takes the buffer
    | CommitBatch(i: nat)           // the i-th open flush commits its transaction
    | FailBatch(i: nat)             // the i-th open flush rolls back and requeues
    | Insert(key: string, row: Row)
    | Upsert(key: string, info: Info, now: nat)
    | DeleteRow(key: string)        // first half of a delete: the SQL statement
    | ForgetHits(key: string)       // second half: the buffered hits are dropped

  function Without(batches: seq<Batch>, i: nat): seq<Batch>
    requires i < |batches|
  {
    batches[..i] + batches[i + 1..]
  }

  function Next(s: Sys, step: Step): Sys {
    match step
    case RecordHit(key, info, now) => s.(dirty := BufferHit(s.dirty, key, Some(info), now))
    case Touch(key, now) => s.(dirty := BufferHit(s.dirty, key, None, now))
    case Swap => if s.dirty == map[] then s else Sys(s.rows, map[], s.inFlight + [s.dirty])
    case CommitBatch(i) =>
      if i >= |s.inFlight| then s
      else Sys(Commit(s.rows, s.inFlight[i]), s.dirty, Without(s.inFlight, i))
    case FailBatch(i) =>
      if i >= |s.inFlight| then s
      else Sys(s.rows, Requeue(s.dirty, s.inFlight[i]), Without(s.inFlight, i))
    case Insert(key, row) => s.(rows := InsertRow(s.rows, key, row))
    case Upsert(key, info, now) => s.(rows := UpsertRow(s.rows, key, info, now))
    case DeleteRow(key) => s.(rows := s.rows - {key})
    case ForgetHits(key) => s.(dirty := s.dirty - {key})
  }

  function Run(s: Sys, steps: seq<Step>): Sys
    decreases |steps|
  {
    if steps == [] then s else Run(Next(s, steps[0]), steps[1..])
  }

  // ---- what is counted ----

  function RowHits(rows: Table, key: string): nat {
    if key in rows then rows[key].hitCount else 0
  }

  function RowLatest(rows: Table, key: string): nat {
    if key in rows then rows[key].lastAccessedAt else 0
  }

  function HitsIn(batch: Batch, key: string): nat {
    if key in batch then batch[key].hits else 0
  }

  function LatestIn(batch: Batch, key: string): nat {
    if key in batch then batch[key].lastAccessedAt else 0
  }

  function HitsAmong(batches: seq<Batch>, key: string): nat {
    if batches == [] then 0 else HitsIn(batches[0], key) + HitsAmong(batches[1..], key)
  }

  function LatestAmong(batches: seq<Batch>, key: string): nat {
    if batches == [] then 0 else Max(LatestIn(batches[0], key), LatestAmong(batches[1..], key))
  }

  /** Every hit of `key` the system still knows about: row, buffer, open flushes. */
  function Hits(s: Sys, key: string): nat {
    RowHits(s.rows, key) + HitsIn(s.dirty, key) + HitsAmong(s.inFlight, key)
  }

  /** The latest access of `key` recorded anywhere in the system; 0 if none. */
  function Latest(s: Sys, key: string): nat {
    Max(RowLatest(s.rows, key), Max(LatestIn(s.dirty, key), LatestAmong(s.inFlight, key)))
  }

  lemma {:induction false} AmongWithout(batches: seq<Batch>, i: nat, key: string)
    requires i < |batches|
    ensures HitsAmong(batches, key) == HitsIn(batches[i], key) + HitsAmong(Without(batches, i), key)
    ensures LatestAmong(batches, key) == Max(LatestIn(batches[i], key), LatestAmong(Without(batches, i), key))
  {
    if i == 0 {
      assert Without(batches, 0) == batches[1..];
    } else {
      AmongWithout(batches[1..], i - 1, key);
      assert Without(batches, i)[1..] == Without(batches[1..], i - 1);
    }
  }

  lemma {:induction false} AmongAppend(batches: seq<Batch>, batch: Batch, key: string)
    ensures HitsAmong(batches + [batch], key) == HitsAmong(batches, key) + HitsIn(batch, key)
    ensures LatestAmong(batches + [batch], key) == Max(LatestAmong(batches, key), LatestIn(batch, key))
  {
    if batches != [] {
      AmongAppend(batches[1..], batch, key);
      assert (batches + [batch])[1..] == batches[1..] + [batch];
    }
  }

  // ---- conservation ----

  /** Hits and flushes: everything except the steps that write or remove rows directly. */
  predicate IsFlow(step: Step) {
    step.RecordHit? || step.Touch? || step.Swap? || step.CommitBatch? || step.FailBatch?
  }

  function HitOf(step: Step, key: string): nat {
    if (step.RecordHit? || step.Touch?) && step.key == key then 1 else 0
  }

  function HitTime(step: Step, key: string): nat {
    if HitOf(step, key) == 1 then step.now else 0
  }

  function CountHits(steps: seq<Step>, key: string): nat {
    if steps == [] then 0 else HitOf(steps[0], key) + CountHits(steps[1..], key)
  }

  function LatestHit(steps: seq<Step>, key: string): nat {
    if steps == [] then 0 else Max(HitTime(steps[0], key), LatestHit(steps[1..], key))
  }

  /** A step throws hits of `key` away: a committed delta that carries no info
      finds no row to update. */
  predicate Drops(s: Sys, step: Step, key: string) {
    step.CommitBatch? && step.i < |s.inFlight| && key !in s.rows &&
    key in s.inFlight[step.i] && s.inFlight[step.i][key].info.None?
  }

  function DroppedBy(s: Sys, step: Step, key: string): nat {
    if Drops(s, step, key) then s.inFlight[step.i][key].hits else 0
  }

  function DroppedAlong(s: Sys, steps: seq<Step>, key: string): nat
    decreases |steps|
  {
    if steps == [] then 0
    else DroppedBy(s, steps[0], key) + DroppedAlong(Next(s, steps[0]), steps[1..], key)
  }

  lemma CommitAccounts(rows: Table, batch: Batch, key: string)
    requires key in rows || key !in batch || batch[key].info.Some?
    ensures RowHits(Commit(rows, batch), key) == RowHits(rows, key) + HitsIn(batch, key)
    ensures RowLatest(Commit(rows, batch), key) == Max(RowLatest(rows, key), LatestIn(batch, key))
  {
  }

  lemma RequeueAccounts(dirty: Batch, pending: Batch, key: string)
    ensures HitsIn(Requeue(dirty, pending), key) == HitsIn(dirty, key) + HitsIn(pending, key)
    ensures LatestIn(Requeue(dirty, pending), key) == Max(LatestIn(dirty, key), LatestIn(pending, key))
  {
  }

  /** The accounts of one step: hits known after it plus hits it dropped are the hits
      known before plus its own; unless it dropped some, the latest access moves likewise. */
  ghost predicate Accounts(s: Sys, step: Step, key: string) {
    var s' := Next(s, step);
    && Hits(s', key) + DroppedBy(s, step, key) == Hits(s, key) + HitOf(step, key)
    && (!Drops(s, step, key) ==> Latest(s', key) == Max(Latest(s, key), HitTime(step, key)))
  }

  lemma CommitStepAccounts(s: Sys, i: nat, key: string)
    ensures Accounts(s, CommitBatch(i), key)
  {
    if i < |s.inFlight| {
      AmongWithout(s.inFlight, i, key);
      if !Drops(s, CommitBatch(i), key) {
        CommitAccounts(s.rows, s.inFlight[i], key);
      }
    }
  }

  lemma FailStepAccounts(s: Sys, i: nat, key: string)
    ensures Accounts(s, FailBatch(i), key)
  {
    if i < |s.inFlight| {
      AmongWithout(s.inFlight, i, key);
      RequeueAccounts(s.dirty, s.inFlight[i], key);
    }
  }

  lemma StepAccounts(s: Sys, step: Step, key: string)
    requires IsFlow(step)
    ensures Accounts(s, step, key)
  {
    match step
    case Swap => AmongAppend(s.inFlight, s.dirty, key);
    case CommitBatch(i) => CommitStepAccounts(s, i, key);
    case FailBatch(i) => FailStepAccounts(s, i, key);
    case _ =>
  }

  /** Exact accounting over every interleaving of hits and overlapping flushes. */
  lemma {:induction false} HitsAccounted(s: Sys, steps: seq<Step>, key: string)
    requires forall step <- steps :: IsFlow(step)
    ensures Hits(Run(s, steps), key) + DroppedAlong(s, steps, key) == Hits(s, key) + CountHits(steps, key)
    decreases |steps|
  {
    if steps != [] {
      StepAccounts(s, steps[0], key);
      HitsAccounted(Next(s, steps[0]), steps[1..], key);
    }
  }

  /** Every pending delta of `key`, buffered or in flight, can recreate its row. */
  predicate AllCarry(s: Sys, key: string) {
    (key in s.dirty ==> CanRecreate(s.dirty, key)) &&
    forall b <- s.inFlight :: key in b ==> CanRecreate(b, key)
  }

  predicate IsTouchOf(step: Step, key: string) {
    step.Touch? && step.key == key
  }

  lemma CarryKept(s: Sys, step: Step, key: string)
    requires AllCarry(s, key) && IsFlow(step) && !IsTouchOf(step, key)
    ensures AllCarry(Next(s, step), key)
    ensures !Drops(s, step, key)
  {
    var s' := Next(s, step);
    if (step.CommitBatch? || step.FailBatch?) && step.i < |s.inFlight| {
      assert s.inFlight[step.i] in s.inFlight;
    }
    forall b | b in s'.inFlight
      ensures key in b ==> CanRecreate(b, key)
    {
      if b !in s.inFlight { assert step.Swap? && b == s.dirty; }
    }
  }

  /** Hit conservation: for a key that has a row, and for any key whose hits all arrive
      through RecordHit, each hit adds one to the system's count and nothing else moves it,
      and the latest access is the latest hit or what was there before. */
  lemma {:induction false} HitsConserved(s: Sys, steps: seq<Step>, key: string)
    requires forall step <- steps :: IsFlow(step)
    requires key in s.rows || (AllCarry(s, key) && forall step <- steps :: !IsTouchOf(step, key))
    ensures Hits(Run(s, steps), key) == Hits(s, key) + CountHits(steps, key)
    ensures Latest(Run(s, steps), key) == Max(Latest(s, key), LatestHit(steps, key))
    decreases |steps|
  {
    if steps != [] {
      if key !in s.rows {
        CarryKept(s, steps[0], key);
      }
      StepAccounts(s, steps[0], key);
      HitsConserved(Next(s, steps[0]), steps[1..], key);
    }
  }

  /** Once every flush has landed, the table alone holds the whole count. */
  lemma TableHoldsEveryHit(s: Sys, steps: seq<Step>, key: string)
    requires s.dirty == map[] && s.inFlight == []
    requires forall step <- steps :: IsFlow(step)
    requires key in s.rows || forall step <- steps :: !IsTouchOf(step, key)
    requires Run(s, steps).dirty == map[] && Run(s, steps).inFlight == []
    requires CountHits(steps, key) > 0
    ensures var rows := Run(s, steps).rows;
            key in rows &&
            rows[key].hitCount == RowHits(s.rows, key) + CountHits(steps, key) &&
            rows[key].lastAccessedAt == Max(RowLatest(s.rows, key), LatestHit(steps, key))
  {
    HitsConserved(s, steps, key);
  }

  /** Touch is excluded for a reason: when a failed batch meets a newer Touch, the
      merge keeps the Touch's missing info, and both hits are lost on the next commit. */
  lemma TouchCanLoseARecordedHit(info: Info)
    ensures var steps := [RecordHit("k", info, 1), Swap, Touch("k", 2), FailBatch(0), Swap, CommitBatch(0)];
            Hits(Run(Sys(map[], map[], []), steps), "k") == 0 && CountHits(steps, "k") == 2
  {
    var steps := [RecordHit("k", info, 1), Swap, Touch("k", 2), FailBatch(0), Swap, CommitBatch(0)];
    var s0 := Sys(map[], map[], []);
    var b := map["k" := HitDelta(1, 1, Some(info))];
    var s1 := Sys(map[], b, []);
    var s2 := Sys(map[], map[], [b]);
    var t := map["k" := HitDelta(1, 2, None)];
    var s3 := Sys(map[], t, [b]);
    var merged := map["k" := HitDelta(2, 2, None)];
    var s4 := Sys(map[], merged, []);
    var s5 := Sys(map[], map[], [merged]);
    assert Next(s0, steps[0]) == s1;
    assert Next(s1, steps[1]) == s2;
    assert Next(s2, steps[2]) == s3;
    assert Next(s3, steps[3]) == s4 by { assert Requeue(t, b) == merged; }
    assert Next(s4, steps[4]) == s5;
    assert Next(s5, steps[5]) == Sys(map[], map[], []) by { assert Commit(map[], merged) == map[]; }
    calc {
      Run(s0, steps);
      Run(s1, steps[1..]);
      { assert steps[1..][1..] == steps[2..]; }
      Run(s2, steps[2..]);
      { assert steps[2..][1..] == steps[3..]; }
      Run(s3, steps[3..]);
      { assert steps[3..][1..] == steps[4..]; }
      Run(s4, steps[4..]);
      { assert steps[4..][1..] == steps[5..]; }
      Run(s5, steps[5..]);
      Sys(map[], map[], []);
    }
    assert CountHits(steps[5..], "k") == 0;
    assert CountHits(steps[4..], "k") == 0;
    assert CountHits(steps[3..], "k") == 0;
    assert CountHits(steps[2..], "k") == 1;
    assert CountHits(steps[1..], "k") == 1;
  }

  // ---- deletion ----

  /** Steps that may bring `key` into being: a hit, an insert or an upsert of it. */
  predicate Revives(step: Step, key: string) {
    (step.RecordHit? || step.Touch? || step.Insert? || step.Upsert?) && step.key == key
  }

  /** No row, and nothing buffered or in flight able to recreate it. */
  predicate Gone(s: Sys, key: string) {
    key !in s.rows && !CanRecreate(s.dirty, key) && forall b <- s.inFlight :: !CanRecreate(b, key)
  }

  lemma GoneKept(s: Sys, step: Step, key: string)
    requires Gone(s, key) && !Revives(step, key)
    ensures Gone(Next(s, step), key)
  {
    var s' := Next(s, step);
    if (step.CommitBatch? || step.FailBatch?) && step.i < |s.inFlight| {
      assert s.inFlight[step.i] in s.inFlight;
    }
    forall b | b in s'.inFlight
      ensures !CanRecreate(b, key)
    {
      if b !in s.inFlight { assert step.Swap? && b == s.dirty; }
    }
  }

  lemma {:induction false} GoneForever(s: Sys, steps: seq<Step>, key: string)
    requires Gone(s, key)
    requires forall step <- steps :: !Revives(step, key)
    ensures Gone(Run(s, steps), key)
    decreases |steps|
  {
    if steps != [] {
      GoneKept(s, steps[0], key);
      GoneForever(Next(s, steps[0]), steps[1..], key);
    }
  }

  /** The state right after Index.Delete(key) ran both of its halves. */
  function Deleted(s: Sys, key: string): Sys {
    Next(Next(s, DeleteRow(key)), ForgetHits(key))
  }

  ghost predicate StaysGone(s: Sys, key: string) {
    forall steps: seq<Step> :: (forall step <- steps :: !Revives(step, key)) ==> key !in Run(s, steps).rows
  }

  /** A deleted key stays gone until it is hit or written again exactly when no
      flush was already carrying an upsert for it. */
  lemma DeleteIsFinalIff(s: Sys, key: string)
    ensures StaysGone(Deleted(s, key), key) <==>
            forall b <- s.inFlight :: !CanRecreate(b, key)
  {
    var d := Deleted(s, key);
    if forall b <- s.inFlight :: !CanRecreate(b, key) {
      forall steps: seq<Step> | forall step <- steps :: !Revives(step, key)
        ensures key !in Run(d, steps).rows
      {
        GoneForever(d, steps, key);
      }
    } else {
      var i :| 0 <= i < |s.inFlight| && CanRecreate(s.inFlight[i], key);
      var steps := [CommitBatch(i)];
      assert Run(d, steps) == Next(d, CommitBatch(i));
      assert key in Run(d, steps).rows;
    }
  }
}
