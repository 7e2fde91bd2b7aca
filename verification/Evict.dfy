/** Eviction: shrink the cache to a target by deleting least recently used entries. */
module Evict {
  import opened Common
  import opened IndexTable
  import opened IndexObject
  import opened CacheSpec
  import opened CacheObject

  // ---- the sweep ----

  /** What a sweep adds up: bytes and number of the entries deleted, bytes of the orphan
      rows dropped, bytes of deleted entries whose row could not be dropped, candidates
      tried, and candidates skipped as orphans. */
  datatype Tally = Tally(freed: nat, orphanBytes: nat, stale: nat, tried: nat, deleted: nat, skipped: nat)

  datatype Swept = Swept(state: State, sum: Tally)

  const NOTHING := Tally(0, 0, 0, 0, 0, 0)

  function Bytes(e: Entry): nat {
    e.row.info.bodySize
  }

  /** The row goes with the entry, unless the statement failed; that of an orphan gets a
      second try. */
  predicate RowGoes(outcome: DeleteOutcome, f: Faults) {
    !outcome.DeleteFailed? && (!f.index || (outcome.DeleteNotFound? && !f.dropRow))
  }

  function AfterDelete(s: State, key: string, f: Faults): State {
    State(Erased(s.objects, key, f), if RowGoes(EraseOutcome(s.objects, key, f), f) then Forget(s.ix, key) else s.ix)
  }

  /** What becomes of one candidate; a dry run counts it and deletes nothing. */
  function OutcomeOf(s: State, c: Entry, f: Faults, dryRun: bool): DeleteOutcome {
    if dryRun then Deleted else EraseOutcome(s.objects, c.key, f)
  }

  function StateAfter(s: State, c: Entry, f: Faults, dryRun: bool): State {
    if dryRun then s else AfterDelete(s, c.key, f)
  }

  function Gain(outcome: DeleteOutcome, c: Entry): nat {
    if outcome.Deleted? then Bytes(c) else 0
  }

  function TallyOf(outcome: DeleteOutcome, c: Entry, f: Faults, dryRun: bool): Tally {
    match outcome
    case Deleted => Tally(Bytes(c), 0, if dryRun || RowGoes(outcome, f) then 0 else Bytes(c), 1, 1, 0)
    case DeleteNotFound => Tally(0, if RowGoes(outcome, f) then Bytes(c) else 0, 0, 1, 0, 1)
    case DeleteFailed => Tally(0, 0, 0, 1, 0, 0)
  }

  function Sum(a: Tally, b: Tally): Tally {
    Tally(a.freed + b.freed, a.orphanBytes + b.orphanBytes, a.stale + b.stale,
          a.tried + b.tried, a.deleted + b.deleted, a.skipped + b.skipped)
  }

  function Plus(r: Swept, t: Tally): Swept {
    Swept(r.state, Sum(r.sum, t))
  }

  /** What trying one candidate leaves, still needs, and adds to the tally. */
  datatype Turn = Turn(state: State, left: int, tally: Tally)

  function TurnOf(s: State, c: Entry, need: int, f: Faults, dryRun: bool): (turn: Turn)
    ensures turn.left == need - turn.tally.freed && turn.tally.tried == 1
  {
    var outcome := OutcomeOf(s, c, f, dryRun);
    Turn(StateAfter(s, c, f, dryRun), need - Gain(outcome, c), TallyOf(outcome, c, f, dryRun))
  }

  /** Tries candidates in order until `need` bytes are freed. An orphan row (no meta in
      storage) is dropped without counting as freed; a failed deletion is passed over. */
  function Sweep(s: State, candidates: seq<Entry>, need: int, faults: string -> Faults, dryRun: bool): Swept
    decreases |candidates|
  {
    if candidates == [] || need <= 0 then Swept(s, NOTHING)
    else
      var turn := TurnOf(s, candidates[0], need, faults(candidates[0].key), dryRun);
      Plus(Sweep(turn.state, candidates[1..], turn.left, faults, dryRun), turn.tally)
  }

  /** A sweep is its first turn and the sweep over the rest. */
  lemma SweepTurn(s: State, candidates: seq<Entry>, need: int, faults: string -> Faults, dryRun: bool, turn: Turn)
    requires candidates != [] && need > 0
    requires turn == TurnOf(s, candidates[0], need, faults(candidates[0].key), dryRun)
    ensures Sweep(s, candidates, need, faults, dryRun) ==
            Plus(Sweep(turn.state, candidates[1..], turn.left, faults, dryRun), turn.tally)
  {
  }

  lemma PlusPlus(r: Swept, t: Tally, u: Tally)
    ensures Plus(Plus(r, t), u) == Plus(r, Sum(t, u))
  {
  }

  lemma PlusNothing(r: Swept)
    ensures Plus(r, NOTHING) == r
  {
  }

  function PrefixBytes(entries: seq<Entry>, n: nat): nat
    requires n <= |entries|
  {
    if n == 0 then 0 else Bytes(entries[0]) + PrefixBytes(entries[1..], n - 1)
  }

  /** The candidates are rows of the table, each once. */
  ghost predicate AreRows(rows: Table, candidates: seq<Entry>) {
    Distinct(KeysOf(candidates)) && forall c <- candidates :: c.key in rows && c.row == rows[c.key]
  }

  lemma RestAreRows(rows: Table, rows': Table, candidates: seq<Entry>)
    requires AreRows(rows, candidates) && candidates != []
    requires rows' == rows || rows' == rows - {candidates[0].key}
    ensures AreRows(rows', candidates[1..])
  {
    var keys := KeysOf(candidates);
    assert KeysOf(candidates[1..]) == keys[1..];
    forall c | c in candidates[1..]
      ensures c.key in rows' && c.row == rows'[c.key]
    {
      var i :| 1 <= i < |candidates| && candidates[i] == c;
      assert keys[0] != keys[i];
    }
  }

  lemma DeleteConserves(s: State, c: Entry, need: int, f: Faults)
    requires c.key in s.ix.rows && c.row == s.ix.rows[c.key]
    ensures var turn := TurnOf(s, c, need, f, false);
            var rows, t := turn.state.ix.rows, turn.tally;
            && (rows == s.ix.rows || rows == s.ix.rows - {c.key})
            && TotalSize(rows) + t.freed + t.orphanBytes == TotalSize(s.ix.rows) + t.stale
  {
    TotalSizeWithout(s.ix.rows, c.key);
  }

  /** Bytes are conserved: what left the index was freed or was orphaned, and what was
      freed left it unless its row could not be dropped. */
  lemma {:induction false} SweepConserves(s: State, candidates: seq<Entry>, need: int, faults: string -> Faults)
    requires AreRows(s.ix.rows, candidates)
    ensures var r := Sweep(s, candidates, need, faults, false);
            TotalSize(r.state.ix.rows) + r.sum.freed + r.sum.orphanBytes == TotalSize(s.ix.rows) + r.sum.stale
    decreases |candidates|
  {
    if candidates != [] && need > 0 {
      var c := candidates[0];
      var turn := TurnOf(s, c, need, faults(c.key), false);
      DeleteConserves(s, c, need, faults(c.key));
      RestAreRows(s.ix.rows, turn.state.ix.rows, candidates);
      SweepConserves(turn.state, candidates[1..], turn.left, faults);
      SweepTurn(s, candidates, need, faults, false, turn);
    }
  }

  /** The sweep stops only when enough is freed or nothing is left to try. */
  lemma {:induction false} SweepStops(s: State, candidates: seq<Entry>, need: int, faults: string -> Faults, dryRun: bool)
    ensures var r := Sweep(s, candidates, need, faults, dryRun);
            && r.sum.tried <= |candidates| && (r.sum.tried == |candidates| || r.sum.freed >= need)
            && r.sum.deleted + r.sum.skipped <= r.sum.tried
    decreases |candidates|
  {
    if candidates != [] && need > 0 {
      var turn := TurnOf(s, candidates[0], need, faults(candidates[0].key), dryRun);
      SweepStops(turn.state, candidates[1..], turn.left, faults, dryRun);
      SweepTurn(s, candidates, need, faults, dryRun, turn);
    }
  }

  /** It never tries one candidate too many: before the last one tried, less than
      enough had been freed. */
  lemma SweepTriesNoExtra(s: State, candidates: seq<Entry>, need: int, faults: string -> Faults, dryRun: bool)
    ensures var r := Sweep(s, candidates, need, faults, dryRun);
            0 < r.sum.tried <= |candidates| ==> Sweep(s, candidates[..r.sum.tried - 1], need, faults, dryRun).sum.freed < need
  {
    var tried := Sweep(s, candidates, need, faults, dryRun).sum.tried;
    if 0 < tried <= |candidates| {
      SweepFallsShort(s, candidates, need, faults, dryRun, tried - 1);
    }
  }

  /** Fewer candidates than are tried fall short. */
  lemma {:induction false} SweepFallsShort(s: State, candidates: seq<Entry>, need: int, faults: string -> Faults, dryRun: bool, n: nat)
    requires n < |candidates| && n < Sweep(s, candidates, need, faults, dryRun).sum.tried
    ensures Sweep(s, candidates[..n], need, faults, dryRun).sum.freed < need
    decreases n
  {
    if need <= 0 {
      SweepOver(s, candidates, need, faults, dryRun);
    } else if n == 0 {
      SweepOver(s, candidates[..0], need, faults, dryRun);
    } else {
      var turn := TurnOf(s, candidates[0], need, faults(candidates[0].key), dryRun);
      SweepTurn(s, candidates, need, faults, dryRun, turn);
      SweepFallsShort(turn.state, candidates[1..], turn.left, faults, dryRun, n - 1);
      HeadTurn(s, candidates, need, faults, dryRun, n, turn);
    }
  }

  /** The first turn of a sweep over the first `n` candidates. */
  lemma HeadTurn(s: State, candidates: seq<Entry>, need: int, faults: string -> Faults, dryRun: bool, n: nat, turn: Turn)
    requires 0 < n <= |candidates| && need > 0
    requires turn == TurnOf(s, candidates[0], need, faults(candidates[0].key), dryRun)
    ensures Sweep(s, candidates[..n], need, faults, dryRun) ==
            Plus(Sweep(turn.state, candidates[1..][..n - 1], turn.left, faults, dryRun), turn.tally)
  {
    var head := candidates[..n];
    assert head[0] == candidates[0] && head[1..] == candidates[1..][..n - 1];
    SweepTurn(s, head, need, faults, dryRun, turn);
  }

  /** Rows that were not tried survive as they were, and no row appears. */
  lemma {:induction false} SweepSparesTheRest(s: State, candidates: seq<Entry>, need: int, faults: string -> Faults, key: string)
    ensures var r := Sweep(s, candidates, need, faults, false);
            && (key in r.state.ix.rows ==> key in s.ix.rows && r.state.ix.rows[key] == s.ix.rows[key])
            && r.sum.tried <= |candidates|
            && (key in s.ix.rows && key !in KeysOf(candidates[..r.sum.tried]) ==> key in r.state.ix.rows)
    decreases |candidates|
  {
    if candidates != [] && need > 0 {
      var turn := TurnOf(s, candidates[0], need, faults(candidates[0].key), false);
      SweepSparesTheRest(turn.state, candidates[1..], turn.left, faults, key);
      SweepTurn(s, candidates, need, faults, false, turn);
      TriedKeys(candidates, Sweep(s, candidates, need, faults, false).sum.tried, key);
    }
  }

  /** The keys tried are the first one and those tried after it. */
  lemma TriedKeys(candidates: seq<Entry>, n: nat, key: string)
    requires 0 < n <= |candidates|
    ensures key in KeysOf(candidates[..n]) <==> key == candidates[0].key || key in KeysOf(candidates[1..][..n - 1])
  {
    var tried := KeysOf(candidates[..n]);
    assert tried[0] == candidates[0].key && tried[1..] == KeysOf(candidates[1..][..n - 1]);
    assert tried == [tried[0]] + tried[1..];
  }

  const FAULT_FREE: string -> Faults := _ => NO_FAULTS

  /** Every candidate still has its meta in storage, so none is an orphan. */
  ghost predicate NoOrphans(objects: Objects, candidates: seq<Entry>) {
    Distinct(KeysOf(candidates)) && forall c <- candidates :: MetaName(c.key) in objects
  }

  lemma CleanStep(objects: Objects, candidates: seq<Entry>)
    requires NoOrphans(objects, candidates) && candidates != []
    ensures EraseOutcome(objects, candidates[0].key, NO_FAULTS) == Deleted
    ensures NoOrphans(Erased(objects, candidates[0].key, NO_FAULTS), candidates[1..])
  {
    var keys := KeysOf(candidates);
    assert candidates[0] in candidates;
    assert KeysOf(candidates[1..]) == keys[1..];
    forall c | c in candidates[1..]
      ensures MetaName(c.key) in Erased(objects, candidates[0].key, NO_FAULTS)
    {
      var i :| 1 <= i < |candidates| && candidates[i] == c;
      assert keys[0] != keys[i] && c in candidates;
    }
  }

  /** With storage working and no orphans, everything tried is freed. */
  lemma {:induction false} CleanSweep(s: State, candidates: seq<Entry>, need: int)
    requires NoOrphans(s.objects, candidates)
    ensures var r := Sweep(s, candidates, need, FAULT_FREE, false);
            r.sum.tried <= |candidates| && r.sum.orphanBytes == r.sum.stale == 0 && r.sum.freed == PrefixBytes(candidates, r.sum.tried)
    decreases |candidates|
  {
    if candidates != [] && need > 0 {
      CleanStep(s.objects, candidates);
      CleanSweep(AfterDelete(s, candidates[0].key, NO_FAULTS), candidates[1..], need - Bytes(candidates[0]));
    }
  }

  /** The tried prefix is the shortest one that reaches the need. */
  lemma {:induction false} ShortestPrefix(s: State, candidates: seq<Entry>, need: int, n: nat)
    requires NoOrphans(s.objects, candidates)
    requires n < Sweep(s, candidates, need, FAULT_FREE, false).sum.tried && n <= |candidates|
    ensures PrefixBytes(candidates, n) < need
    decreases |candidates|
  {
    if n > 0 {
      CleanStep(s.objects, candidates);
      ShortestPrefix(AfterDelete(s, candidates[0].key, NO_FAULTS), candidates[1..], need - Bytes(candidates[0]), n - 1);
    }
  }

  /** A dry run announces exactly the entries and bytes the clean run then deletes. */
  lemma {:induction false} DryRunPredicts(s: State, t: State, candidates: seq<Entry>, need: int)
    requires NoOrphans(s.objects, candidates)
    ensures var dry, done := Sweep(t, candidates, need, FAULT_FREE, true), Sweep(s, candidates, need, FAULT_FREE, false);
            dry.sum.tried == done.sum.tried && dry.sum.freed == done.sum.freed && dry.sum.deleted == done.sum.deleted && dry.state == t
    decreases |candidates|
  {
    if candidates != [] && need > 0 {
      CleanStep(s.objects, candidates);
      DryRunPredicts(AfterDelete(s, candidates[0].key, NO_FAULTS), t, candidates[1..], need - Bytes(candidates[0]));
    }
  }

  /** Deleting with storage working keeps the index agreeing with storage. */
  lemma DeleteKeepsAgreement(codec: Codec, s: State, key: string)
    requires IndexAgrees(codec, s.objects, s.ix.rows)
    ensures var s' := AfterDelete(s, key, NO_FAULTS);
            IndexAgrees(codec, s'.objects, s'.ix.rows)
  {
    var s' := AfterDelete(s, key, NO_FAULTS);
    WalkedIff(codec, s.objects, key);
    forall k
      ensures k in WalkedKeys(codec, s'.objects) <==> k in s'.ix.rows
      ensures k in s'.ix.rows ==>
                IsReadableMeta(codec, s'.objects, MetaName(k)) && s'.ix.rows[k].info == InfoOf(codec, s'.objects, k)
    {
      WalkedIff(codec, s.objects, k);
      WalkedIff(codec, s'.objects, k);
      if k != key { OthersUntouched(codec, s.objects, key, EntryMeta("", "", 0, map[], 0), [], NO_FAULTS, k); }
    }
  }

  lemma {:induction false} SweepKeepsAgreement(codec: Codec, s: State, candidates: seq<Entry>, need: int)
    requires IndexAgrees(codec, s.objects, s.ix.rows)
    ensures var r := Sweep(s, candidates, need, FAULT_FREE, false);
            IndexAgrees(codec, r.state.objects, r.state.ix.rows)
    decreases |candidates|
  {
    if candidates != [] && need > 0 {
      var turn := TurnOf(s, candidates[0], need, NO_FAULTS, false);
      DeleteKeepsAgreement(codec, s, candidates[0].key);
      SweepKeepsAgreement(codec, turn.state, candidates[1..], turn.left);
      SweepTurn(s, candidates, need, FAULT_FREE, false, turn);
    }
  }

  lemma AgreementLeavesNoOrphans(codec: Codec, objects: Objects, rows: Table, candidates: seq<Entry>)
    requires IndexAgrees(codec, objects, rows) && AreRows(rows, candidates)
    ensures NoOrphans(objects, candidates)
  {
  }

  // ---- stored bytes ----

  /** The body bytes of the readable entries of storage. */
  ghost function StoredBytes(codec: Codec, objects: Objects): nat {
    TotalSize(ReindexedRows(codec, objects, map[], _ => 0))
  }

  /** Every body object as a row of its size. */
  function BodyTable(objects: Objects): Table {
    map k | k in (set name | name in objects && name.BodyName? :: name.key) && BodyName(k) in objects ::
      Row(Info("", "", 0, |objects[BodyName(k)]|), 0, 0, 0)
  }

  /** The bytes of all body objects. */
  ghost function BodyBytes(objects: Objects): nat {
    TotalSize(BodyTable(objects))
  }

  /** Those of bodies without a readable meta, which no walk and no row ever shows. */
  ghost function OrphanBodyBytes(codec: Codec, objects: Objects): nat {
    TotalSize(BodyTable(objects) - WalkedKeys(codec, objects))
  }

  lemma BodyTableKeys(objects: Objects, key: string)
    ensures key in BodyTable(objects) <==> BodyName(key) in objects
  {
    if BodyName(key) in objects {
      assert BodyName(key).key in (set name | name in objects && name.BodyName? :: name.key);
    }
  }

  /** Every body byte belongs to a readable entry or is orphaned. */
  lemma BodiesSplit(codec: Codec, objects: Objects)
    ensures BodyBytes(objects) == StoredBytes(codec, objects) + OrphanBodyBytes(codec, objects)
  {
    var rows, bodies := ReindexedRows(codec, objects, map[], _ => 0), BodyTable(objects);
    var walked := WalkedKeys(codec, objects);
    ReindexRepairs(codec, objects, map[], _ => 0);
    TotalSizeSplit(bodies, walked);
    TotalSizeSplit(rows, bodies.Keys);
    forall k | k in rows - bodies.Keys
      ensures rows[k].info.bodySize == 0
    {
      BodyTableKeys(objects, k);
    }
    TotalSizeZero(rows - bodies.Keys);
    TotalSizeDepends(rows - (rows.Keys - bodies.Keys), bodies - (bodies.Keys - walked));
  }

  lemma AgreedTotalIsStored(codec: Codec, objects: Objects, rows: Table)
    requires IndexAgrees(codec, objects, rows)
    ensures TotalSize(rows) == StoredBytes(codec, objects)
  {
    ReindexRepairs(codec, objects, map[], _ => 0);
    TotalSizeDepends(rows, ReindexedRows(codec, objects, map[], _ => 0));
  }

  /** Deleting a readable entry touches no orphaned body. */
  lemma DeleteKeepsOrphanBodies(codec: Codec, objects: Objects, key: string)
    requires key in WalkedKeys(codec, objects)
    ensures var after := Erased(objects, key, NO_FAULTS);
            BodyTable(after) - WalkedKeys(codec, after) == BodyTable(objects) - WalkedKeys(codec, objects)
  {
    var after := Erased(objects, key, NO_FAULTS);
    var left, left' := BodyTable(objects) - WalkedKeys(codec, objects), BodyTable(after) - WalkedKeys(codec, after);
    forall k
      ensures k in left <==> k in left'
      ensures k in left ==> left[k] == left'[k]
    {
      BodyTableKeys(objects, k);
      BodyTableKeys(after, k);
      WalkedIff(codec, objects, k);
      WalkedIff(codec, after, k);
      WalkedIff(codec, objects, key);
    }
  }

  lemma {:induction false} SweepKeepsOrphanBodies(codec: Codec, s: State, candidates: seq<Entry>, need: int)
    requires IndexAgrees(codec, s.objects, s.ix.rows) && AreRows(s.ix.rows, candidates)
    ensures OrphanBodyBytes(codec, Sweep(s, candidates, need, FAULT_FREE, false).state.objects) ==
            OrphanBodyBytes(codec, s.objects)
    decreases |candidates|
  {
    if candidates != [] && need > 0 {
      var c := candidates[0];
      var turn := TurnOf(s, c, need, NO_FAULTS, false);
      DeleteKeepsAgreement(codec, s, c.key);
      assert AreRows(turn.state.ix.rows, candidates[1..]) by {
        RestAreRows(s.ix.rows, turn.state.ix.rows, candidates);
      }
      DeleteKeepsOrphanBodies(codec, s.objects, c.key);
      SweepKeepsOrphanBodies(codec, turn.state, candidates[1..], turn.left);
      SweepTurn(s, candidates, need, FAULT_FREE, false, turn);
    }
  }

  /** After a reindex, evicting with working storage brings all the bodies in storage down
      to the target, except for the orphaned ones, which it leaves as they are, unless
      every eligible entry was already tried. */
  lemma ReindexThenEvict(codec: Codec, s: State, flushed: Table, stamp: string -> nat,
                         candidates: seq<Entry>, cutoff: int, target: nat, need: int)
    requires s.ix.rows == ReindexedRows(codec, s.objects, flushed, stamp)
    requires IsSelection(candidates, s.ix.rows, Eligible(s.ix.rows, cutoff), 0, true)
    requires need == TotalSize(s.ix.rows) - target
    ensures var r, orphaned := Sweep(s, candidates, need, FAULT_FREE, false), OrphanBodyBytes(codec, s.objects);
            && BodyBytes(s.objects) == TotalSize(s.ix.rows) + orphaned
            && BodyBytes(r.state.objects) == TotalSize(r.state.ix.rows) + orphaned
            && BodyBytes(r.state.objects) + r.sum.freed == BodyBytes(s.objects)
            && (BodyBytes(r.state.objects) <= target + orphaned || r.sum.tried == |candidates|)
  {
    ReindexRepairs(codec, s.objects, flushed, stamp);
    AgreedTotalIsStored(codec, s.objects, s.ix.rows);
    AgreedEvict(codec, s, candidates, need);
    BodiesSplit(codec, s.objects);
    BodiesSplit(codec, Sweep(s, candidates, need, FAULT_FREE, false).state.objects);
    SweepKeepsOrphanBodies(codec, s, candidates, need);
  }

  lemma AgreedEvict(codec: Codec, s: State, candidates: seq<Entry>, need: int)
    requires IndexAgrees(codec, s.objects, s.ix.rows) && AreRows(s.ix.rows, candidates)
    ensures var r := Sweep(s, candidates, need, FAULT_FREE, false);
            && TotalSize(r.state.ix.rows) == StoredBytes(codec, r.state.objects)
            && TotalSize(r.state.ix.rows) + r.sum.freed == TotalSize(s.ix.rows)
            && (r.sum.freed >= need || r.sum.tried == |candidates|)
  {
    var r := Sweep(s, candidates, need, FAULT_FREE, false);
    assert r.sum.orphanBytes == r.sum.stale == 0 by {
      AgreementLeavesNoOrphans(codec, s.objects, s.ix.rows, candidates);
      CleanSweep(s, candidates, need);
    }
    SweepConserves(s, candidates, need, FAULT_FREE);
    SweepStops(s, candidates, need, FAULT_FREE, false);
    assert TotalSize(r.state.ix.rows) == StoredBytes(codec, r.state.objects) by {
      SweepKeepsAgreement(codec, s, candidates, need);
      AgreedTotalIsStored(codec, r.state.objects, r.state.ix.rows);
    }
  }

  // ---- the command ----

  datatype Options = Options(targetSize: int, targetSizeSet: bool, minAge: int, dryRun: bool)

  datatype Report =
    | Refused                       // bad flags, no index, or a flush or query that failed
    | NothingToDo
    | Finished(candidates: seq<Entry>, tried: nat, freed: nat, deleted: nat, skipped: nat)

  /** Where the command fails: its flush, its two queries, or single deletions. */
  datatype EvictFaults = EvictFaults(flush: FlushFault, total: bool, list: bool, each: string -> Faults)

  function Cutoff(minAge: int, now: int): int {
    if minAge > 0 then now - minAge else 0
  }

  predicate Accepts(o: Options) {
    o.targetSizeSet && o.targetSize >= 0 && o.minAge >= 0
  }

  ghost function StateOf(cache: Cache): State
    requires cache.index != null
    reads cache.storage, cache.index
  {
    State(cache.storage.objects, cache.IndexView())
  }

  /** The index as the initial flush leaves it. */
  function FlushedIndex(ix: IndexState): IndexState {
    IndexState(Commit(ix.rows, ix.dirty), map[])
  }

  datatype Plan = NoPlan | AlreadySmall | Try(need: nat, candidates: seq<Entry>)

  /** The index is flushed before anything is asked of it. */
  predicate Starts(o: Options, hasIndex: bool, dirty: Batch, f: EvictFaults) {
    Accepts(o) && hasIndex && FlushSucceeds(dirty, f.flush)
  }

  /** The queries work as far as they are needed. */
  predicate Answers(total: nat, target: int, f: EvictFaults) {
    !f.total && (total > target ==> !f.list)
  }

  /** Flag checks, the initial flush, the size check and the candidate query. */
  method PlanEvict(cache: Cache, o: Options, now: int, f: EvictFaults) returns (plan: Plan)
    modifies cache.index
    ensures cache.index != null ==>
              cache.IndexView() ==
                if Starts(o, true, old(cache.index.dirty), f) then FlushedIndex(old(cache.IndexView())) else old(cache.IndexView())
    ensures plan.NoPlan? <==> cache.index == null || !Starts(o, true, old(cache.index.dirty), f) ||
                              !Answers(TotalSize(cache.index.rows), o.targetSize, f)
    ensures !plan.NoPlan? ==>
              var total := TotalSize(cache.index.rows);
              && (plan.AlreadySmall? <==> total <= o.targetSize)
              && (plan.Try? ==> plan.need == total - o.targetSize)
              && (plan.Try? ==> IsSelection(plan.candidates, cache.index.rows,
                                            Eligible(cache.index.rows, Cutoff(o.minAge, now)), 0, true))
  {
    if !o.targetSizeSet || o.targetSize < 0 || o.minAge < 0 || cache.index == null {
      return NoPlan;
    }
    var ok := cache.index.Flush(f.flush);
    if !ok {
      return NoPlan;
    }
    var total := cache.index.TotalBodySize(f.total);
    if total.None? {
      return NoPlan;
    }
    if total.value <= o.targetSize {
      return AlreadySmall;
    }
    var candidates := cache.index.LRUEntries(Cutoff(o.minAge, now), 0, f.list);
    if candidates.None? {
      return NoPlan;
    }
    return Try(total.value - o.targetSize, candidates.value);
  }

  method RunEvict(cache: Cache, o: Options, now: int, f: EvictFaults) returns (report: Report, ghost sum: Tally, ghost need: int)
    modifies cache.storage, cache.index
    ensures report.Refused? <==> cache.index == null || !Starts(o, true, old(cache.index.dirty), f) ||
                                 !Answers(TotalSize(FlushedIndex(old(cache.IndexView())).rows), o.targetSize, f)
    ensures !report.Finished? ==> cache.storage.objects == old(cache.storage.objects)
    ensures !report.Finished? && cache.index != null ==>
              cache.IndexView() ==
                if Starts(o, true, old(cache.index.dirty), f) then FlushedIndex(old(cache.IndexView())) else old(cache.IndexView())
    ensures !report.Refused? ==>
              (report.NothingToDo? <==> TotalSize(FlushedIndex(old(cache.IndexView())).rows) <= o.targetSize)
    ensures report.Finished? ==>
              var flushed := FlushedIndex(old(cache.IndexView())).rows;
              IsSelection(report.candidates, flushed, Eligible(flushed, Cutoff(o.minAge, now)), 0, true)
    ensures report.Finished? ==>
              var flushed := FlushedIndex(old(cache.IndexView()));
              need == TotalSize(flushed.rows) - o.targetSize &&
              IsSweep(State(old(cache.storage.objects), flushed), StateOf(cache), report, sum, need,
                      SeenFaults(cache.storage.readOnly, f.each), o.dryRun)
    ensures report.Finished? && !o.dryRun ==>
              var flushed := FlushedIndex(old(cache.IndexView())).rows;
              Kept(flushed, cache.index.rows, report, sum, Cutoff(o.minAge, now), o.targetSize)
  {
    sum, need := NOTHING, 0;
    var plan := PlanEvict(cache, o, now, f);
    match plan
    case NoPlan => return Refused, NOTHING, 0;
    case AlreadySmall => return NothingToDo, NOTHING, 0;
    case Try(excess, candidates) =>
      need := excess;
      report, sum := ExecutePlan(cache, excess, candidates, o, Cutoff(o.minAge, now), f.each);
  }

  /** The sweep of a plan and its report. */
  method ExecutePlan(cache: Cache, need: nat, candidates: seq<Entry>, o: Options, ghost cutoff: int, faults: string -> Faults)
    returns (report: Report, ghost sum: Tally)
    requires cache.index != null && need > 0 && need == TotalSize(cache.index.rows) - o.targetSize
    requires IsSelection(candidates, cache.index.rows, Eligible(cache.index.rows, cutoff), 0, true)
    modifies cache.storage, cache.index
    ensures report.Finished? && report.candidates == candidates
    ensures IsSweep(old(StateOf(cache)), StateOf(cache), report, sum, need, SeenFaults(cache.storage.readOnly, faults), o.dryRun)
    ensures !o.dryRun ==> Kept(old(cache.index.rows), cache.index.rows, report, sum, cutoff, o.targetSize)
  {
    ghost var start := StateOf(cache);
    report, sum := SweepCache(cache, candidates, need, o.dryRun, faults);
    ghost var seen := SeenFaults(cache.storage.readOnly, faults);
    assert IsSweep(start, StateOf(cache), report, sum, need, seen, o.dryRun);
    if !o.dryRun {
      SweepKeepsPromise(start, StateOf(cache), report, sum, need, o.targetSize, cutoff, seen);
    }
  }

  function SeenFaults(readOnly: bool, faults: string -> Faults): string -> Faults {
    key => Seen(readOnly, faults(key))
  }

  /** What the command promises about the index: bytes are conserved, the target is met up
      to rows that could not be dropped or every eligible row was tried, and no row used
      since a positive cutoff is gone. */
  ghost predicate Kept(before: Table, after: Table, report: Report, sum: Tally, cutoff: int, target: int) {
    && report.Finished? && Tells(report, sum)
    && TotalSize(after) + sum.freed + sum.orphanBytes == TotalSize(before) + sum.stale
    && sum.tried <= |report.candidates|
    && (TotalSize(after) <= target + sum.stale || sum.tried == |report.candidates|)
    && (forall k <- after :: k in before && after[k] == before[k])
    && (forall k <- before :: cutoff > 0 && before[k].lastAccessedAt >= cutoff ==> k in after)
  }

  /** The counters the command prints. */
  predicate Tells(report: Report, sum: Tally)
    requires report.Finished?
  {
    report.tried == sum.tried && report.freed == sum.freed && report.deleted == sum.deleted && report.skipped == sum.skipped
  }

  /** The report tells how the sweep over its candidates went. */
  predicate IsSweep(before: State, after: State, report: Report, sum: Tally, need: int, faults: string -> Faults, dryRun: bool) {
    && report.Finished? && Tells(report, sum)
    && Swept(after, sum) == Sweep(before, report.candidates, need, faults, dryRun)
  }

  lemma SweepKeepsPromise(s: State, after: State, report: Report, sum: Tally, need: int, target: int, cutoff: int,
                          faults: string -> Faults)
    requires IsSweep(s, after, report, sum, need, faults, false) && need == TotalSize(s.ix.rows) - target && need > 0
    requires IsSelection(report.candidates, s.ix.rows, Eligible(s.ix.rows, cutoff), 0, true)
    ensures Kept(s.ix.rows, after.ix.rows, report, sum, cutoff, target)
  {
    var r := Sweep(s, report.candidates, need, faults, false);
    SweepConserves(s, report.candidates, need, faults);
    SweepStops(s, report.candidates, need, faults, false);
    forall k
      ensures k in r.state.ix.rows ==> k in s.ix.rows && r.state.ix.rows[k] == s.ix.rows[k]
      ensures k in s.ix.rows && cutoff > 0 && s.ix.rows[k].lastAccessedAt >= cutoff ==> k in r.state.ix.rows
    {
      SweepSparesRecent(s, report.candidates, need, faults, cutoff, k);
    }
  }

  lemma SweepSparesRecent(s: State, candidates: seq<Entry>, need: int, faults: string -> Faults, cutoff: int, key: string)
    requires IsSelection(candidates, s.ix.rows, Eligible(s.ix.rows, cutoff), 0, true)
    ensures var rows := Sweep(s, candidates, need, faults, false).state.ix.rows;
            && (key in rows ==> key in s.ix.rows && rows[key] == s.ix.rows[key])
            && (key in s.ix.rows && cutoff > 0 && s.ix.rows[key].lastAccessedAt >= cutoff ==> key in rows)
  {
    SweepSparesTheRest(s, candidates, need, faults, key);
    if key !in Eligible(s.ix.rows, cutoff) {
      NotACandidate(candidates, Sweep(s, candidates, need, faults, false).sum.tried, Eligible(s.ix.rows, cutoff), key);
    }
  }

  lemma NotACandidate(candidates: seq<Entry>, n: nat, wanted: set<string>, key: string)
    requires n <= |candidates| && key !in wanted && forall c <- candidates :: c.key in wanted
    ensures key !in KeysOf(candidates[..n])
  {
    forall i | 0 <= i < n
      ensures KeysOf(candidates[..n])[i] != key
    {
      assert candidates[i] in candidates;
    }
  }

  /** The deletion loop of the command. */
  method SweepCache(cache: Cache, candidates: seq<Entry>, need: nat, dryRun: bool, faults: string -> Faults)
    returns (report: Report, ghost sum: Tally)
    requires cache.index != null
    modifies cache.storage, cache.index
    ensures report.Finished? && report.candidates == candidates && Tells(report, sum)
    ensures Swept(StateOf(cache), sum) ==
            Sweep(old(StateOf(cache)), candidates, need, SeenFaults(cache.storage.readOnly, faults), dryRun)
  {
    ghost var seen := SeenFaults(cache.storage.readOnly, faults);
    ghost var at := Progress(StateOf(cache), candidates, need, NOTHING);
    ghost var whole := Outlook(at, seen, dryRun);
    var tried: nat, freed: nat, deleted: nat, skipped: nat := 0, 0, 0, 0;
    OutlookAtFirst(at.s, candidates, need, seen, dryRun);
    while tried < |candidates| && freed < need
      invariant at.s == StateOf(cache) && IsPast(at, candidates, need, tried, Counted(freed, deleted, skipped))
      invariant Outlook(at, seen, dryRun) == whole
    {
      var one;
      one, at := TryNext(cache, candidates, need, tried, dryRun, faults, at, Counted(freed, deleted, skipped));
      tried, freed, deleted, skipped := tried + 1, freed + one.freed, deleted + one.deleted, skipped + one.skipped;
    }
    OutlookAtLast(at, seen, dryRun);
    report, sum := Finished(candidates, tried, freed, deleted, skipped), at.sum;
  }

  /** One turn of the loop, with what it does to the outlook. */
  method TryNext(cache: Cache, candidates: seq<Entry>, ghost need: nat, tried: nat, dryRun: bool, faults: string -> Faults,
                 ghost at: Progress, ghost n: Counted)
    returns (one: Counted, ghost next: Progress)
    requires cache.index != null && at.s == StateOf(cache)
    requires IsPast(at, candidates, need, tried, n) && tried < |candidates| && n.freed < need
    modifies cache.storage, cache.index
    ensures next.s == StateOf(cache)
    ensures IsPast(next, candidates, need, tried + 1,
                   Counted(n.freed + one.freed, n.deleted + one.deleted, n.skipped + one.skipped))
    ensures var seen := SeenFaults(cache.storage.readOnly, faults); Outlook(next, seen, dryRun) == Outlook(at, seen, dryRun)
  {
    ghost var seen := SeenFaults(cache.storage.readOnly, faults);
    var c := candidates[tried];
    ghost var turn := TurnOf(at.s, c, at.left, seen(c.key), dryRun);
    OutlookKept(at, seen, dryRun, turn);
    one := TryCandidate(cache, c, dryRun, faults(c.key), at.s, at.left, seen(c.key), turn);
    PastOneMore(at, candidates, need, tried, n, turn, one);
    next := Advanced(at, turn);
  }

  /** A sweep part way: the state, the candidates still to try, the need still to meet and
      the sums so far. */
  datatype Progress = Progress(s: State, todo: seq<Entry>, left: int, sum: Tally)

  /** Where it will end. */
  function Outlook(p: Progress, faults: string -> Faults, dryRun: bool): Swept {
    Plus(Sweep(p.s, p.todo, p.left, faults, dryRun), p.sum)
  }

  function Advanced(p: Progress, turn: Turn): Progress
    requires p.todo != []
  {
    Progress(turn.state, p.todo[1..], turn.left, Sum(turn.tally, p.sum))
  }

  /** The sweep is past the first `tried` candidates, and the loop has counted them. */
  predicate IsPast(p: Progress, candidates: seq<Entry>, need: nat, tried: nat, n: Counted) {
    && tried <= |candidates| && p.todo == candidates[tried..] && p.left == need - n.freed
    && p.sum.tried == tried && p.sum.freed == n.freed && p.sum.deleted == n.deleted && p.sum.skipped == n.skipped
  }

  lemma PastOneMore(p: Progress, candidates: seq<Entry>, need: nat, tried: nat, n: Counted, turn: Turn, one: Counted)
    requires IsPast(p, candidates, need, tried, n) && tried < |candidates|
    requires turn.left == p.left - turn.tally.freed && turn.tally.tried == 1
    requires one == Counted(turn.tally.freed, turn.tally.deleted, turn.tally.skipped)
    ensures p.todo != [] && p.todo[0] == candidates[tried]
    ensures IsPast(Advanced(p, turn), candidates, need, tried + 1,
                   Counted(n.freed + one.freed, n.deleted + one.deleted, n.skipped + one.skipped))
  {
  }

  lemma OutlookAtFirst(s: State, todo: seq<Entry>, left: int, faults: string -> Faults, dryRun: bool)
    ensures Outlook(Progress(s, todo, left, NOTHING), faults, dryRun) == Sweep(s, todo, left, faults, dryRun)
  {
    PlusNothing(Sweep(s, todo, left, faults, dryRun));
  }

  lemma OutlookAtLast(p: Progress, faults: string -> Faults, dryRun: bool)
    requires p.todo == [] || p.left <= 0
    ensures Outlook(p, faults, dryRun) == Swept(p.s, p.sum)
  {
    SweepOver(p.s, p.todo, p.left, faults, dryRun);
    NothingPlus(p.s, p.sum);
  }

  lemma SweepOver(s: State, todo: seq<Entry>, left: int, faults: string -> Faults, dryRun: bool)
    requires todo == [] || left <= 0
    ensures Sweep(s, todo, left, faults, dryRun) == Swept(s, NOTHING)
  {
  }

  lemma NothingPlus(s: State, t: Tally)
    ensures Plus(Swept(s, NOTHING), t) == Swept(s, t)
  {
  }

  lemma OutlookKept(p: Progress, faults: string -> Faults, dryRun: bool, turn: Turn)
    requires p.todo != [] && p.left > 0
    requires turn == TurnOf(p.s, p.todo[0], p.left, faults(p.todo[0].key), dryRun)
    ensures Outlook(Advanced(p, turn), faults, dryRun) == Outlook(p, faults, dryRun)
    ensures turn.left == p.left - turn.tally.freed && turn.tally.tried == 1
  {
    SweepTurn(p.s, p.todo, p.left, faults, dryRun, turn);
    PlusPlus(Sweep(turn.state, p.todo[1..], turn.left, faults, dryRun), turn.tally, p.sum);
  }

  /** What the loop counts for one candidate. */
  datatype Counted = Counted(freed: nat, deleted: nat, skipped: nat)

  /** `s` is the state before and `g` the faults as the store shows them. */
  method TryCandidate(cache: Cache, c: Entry, dryRun: bool, f: Faults,
                      ghost s: State, ghost left: int, ghost g: Faults, ghost turn: Turn) returns (one: Counted)
    requires cache.index != null && s == StateOf(cache) && g == Seen(cache.storage.readOnly, f)
    requires turn == TurnOf(s, c, left, g, dryRun)
    modifies cache.storage, cache.index
    ensures StateOf(cache) == turn.state
    ensures one == Counted(turn.tally.freed, turn.tally.deleted, turn.tally.skipped)
  {
    var outcome := Deleted;
    if !dryRun {
      outcome := TryDelete(cache, c.key, f);
    }
    match outcome
    case Deleted => return Counted(Bytes(c), 1, 0);
    case DeleteNotFound => return Counted(0, 0, 1);
    case DeleteFailed => return Counted(0, 0, 0);
  }

  /** One deletion; the row of an entry that is not in storage is dropped as well. */
  method TryDelete(cache: Cache, key: string, f: Faults) returns (outcome: DeleteOutcome)
    requires cache.index != null
    modifies cache.storage, cache.index
    ensures outcome == EraseOutcome(old(cache.storage.objects), key, Seen(cache.storage.readOnly, f))
    ensures StateOf(cache) ==
            AfterDelete(old(StateOf(cache)), key, Seen(cache.storage.readOnly, f))
  {
    SeenWrites(cache.storage.readOnly, f);
    outcome := cache.Delete(key, f);
    if outcome.DeleteNotFound? {
      var _ := cache.index.Delete(key, f.dropRow);
      ForgetTwice(old(cache.IndexView()), key);
    }
  }

  lemma ForgetTwice(ix: IndexState, key: string)
    ensures Forget(Forget(ix, key), key) == Forget(ix, key)
  {
  }

  /** The age guard is lost when it reaches back past the start of the clock: the
      cutoff is then not positive and even the entry used last is eligible. */
  lemma AgeGuardHoldsIff(rows: Table, minAge: int, now: int)
    requires minAge > 0
    ensures (forall k <- Eligible(rows, Cutoff(minAge, now)) :: rows[k].lastAccessedAt < now - minAge)
            <==> (minAge < now || rows == map[])
  {
    if minAge >= now && rows != map[] {
      var k := SomeKey(rows);
      assert k in Eligible(rows, Cutoff(minAge, now));
    }
  }
}
