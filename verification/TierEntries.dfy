/** One cache entry over tiered storage: its two halves are read, written and erased one
    after the other, each by a call that may fail in some tiers and work in others. */
module TierEntries {
  import opened Common
  import opened CacheSpec
  import opened TieredStorage

  /** How each tier answers the calls of one cache operation. */
  datatype TierFaults = TierFaults(
    meta: nat -> ReadFault, copyMeta: nat -> WriteFault, body: nat -> ReadFault, copyBody: nat -> WriteFault,
    putMeta: nat -> WriteFault, putBody: nat -> WriteFault,
    probe: nat -> bool, dropMeta: nat -> DropFault, dropBody: nat -> DropFault)

  const NO_TIER_FAULTS :=
    TierFaults(NO_READ_FAULT, NO_WRITE_FAULT, NO_READ_FAULT, NO_WRITE_FAULT, NO_WRITE_FAULT, NO_WRITE_FAULT,
               NO_FAULT, NO_DROP_FAULT, NO_DROP_FAULT)

  predicate AllWrite(n: nat, puts: nat -> WriteFault) {
    forall i: nat :: i < n ==> puts(i).Writes?
  }

  predicate AllDrop(n: nat, drops: nat -> DropFault) {
    forall i: nat :: i < n ==> drops(i).Drops?
  }

  lemma NoPutFails(n: nat, puts: nat -> WriteFault, err: Option<nat>)
    requires IsFirstFailure(n, PutsWork(puts), err)
    ensures err.None? <==> AllWrite(n, puts)
  {
    if err.Some? { assert !PutsWork(puts)(err.value); }
    assert forall i: nat :: PutsWork(puts)(i) <==> puts(i).Writes?;
  }

  lemma NoDropFails(n: nat, drops: nat -> DropFault, err: Option<nat>)
    requires IsFirstFailure(n, DropsWork(drops), err)
    ensures err.None? <==> AllDrop(n, drops)
  {
    if err.Some? { assert !DropsWork(drops)(err.value); }
    assert forall i: nat :: DropsWork(drops)(i) <==> drops(i).Drops?;
  }

  // ---- the operations ----

  /** What a cache lookup finds. The meta is read in full; the body of a first tier is
      handed on as a stream, so what breaks off there is taken for the whole body. */
  function LookupOver(codec: Codec, tiers: seq<Objects>, key: string, f: TierFaults): GetOutcome {
    HitOf(codec, GetAnswer(tiers, MetaName(key), f.meta),
          GetAnswer(AfterGet(tiers, MetaName(key), f.meta, f.copyMeta), BodyName(key), f.body))
  }

  /** The outcome, given the answers for the two halves; the second is asked for only once the
      first was read and decodes. */
  function HitOf(codec: Codec, meta: GetResult, body: GetResult): GetOutcome {
    match meta
    case NotFound => Absent
    case ReadError(_) => Broken
    case Partial(_) => Broken
    case Found(data) =>
      if codec.decode(data).None? then Broken
      else
        match body
        case NotFound => Absent
        case ReadError(_) => Broken
        case Partial(part) => Hit(codec.decode(data).value, part)
        case Found(whole) => Hit(codec.decode(data).value, whole)
  }

  /** The tiers after a lookup: each half that is read is backfilled. */
  function LookedUpOver(codec: Codec, tiers: seq<Objects>, key: string, f: TierFaults): seq<Objects> {
    var fetched := AfterGet(tiers, MetaName(key), f.meta, f.copyMeta);
    var found := GetAnswer(tiers, MetaName(key), f.meta);
    if found.Found? && codec.decode(found.data).Some? then AfterGet(fetched, BodyName(key), f.body, f.copyBody) else fetched
  }

  /** The body is written only if every tier took the meta. */
  function StoredOver(codec: Codec, tiers: seq<Objects>, key: string, meta: EntryMeta, body: Bytes, f: TierFaults): seq<Objects> {
    var begun := AfterPut(tiers, MetaName(key), codec.encode(meta), f.putMeta);
    if AllWrite(|tiers|, f.putMeta) then AfterPut(begun, BodyName(key), body, f.putBody) else begun
  }

  predicate ExistsOver(tiers: seq<Objects>, name: Name, fails: nat -> bool) {
    exists i: nat :: i < |tiers| && !fails(i) && name in tiers[i]
  }

  /** The body is deleted only if every tier gave the meta up. */
  function ErasedOver(tiers: seq<Objects>, key: string, f: TierFaults): seq<Objects> {
    if !ExistsOver(tiers, MetaName(key), f.probe) then tiers
    else
      var begun := AfterDelete(tiers, MetaName(key), f.dropMeta);
      if AllDrop(|tiers|, f.dropMeta) then AfterDelete(begun, BodyName(key), f.dropBody) else begun
  }

  /** Cache.Get over a tiered backend. */
  method GetEntry(codec: Codec, t: Tiered, key: string, f: TierFaults) returns (r: GetOutcome)
    modifies t
    ensures r == LookupOver(codec, old(t.tiers), key, f)
    ensures t.tiers == LookedUpOver(codec, old(t.tiers), key, f)
  {
    var found := t.Get(MetaName(key), f.meta, f.copyMeta);
    if found.NotFound? {
      return Absent;
    }
    if !found.Found? || codec.decode(found.data).None? {
      return Broken;
    }
    var meta := codec.decode(found.data).value;
    var body := t.Get(BodyName(key), f.body, f.copyBody);
    match body
    case NotFound => return Absent;
    case ReadError(_) => return Broken;
    case Partial(part) => return Hit(meta, part);
    case Found(data) => return Hit(meta, data);
  }

  /** Cache.Put over a tiered backend. */
  method PutEntry(codec: Codec, t: Tiered, key: string, meta: EntryMeta, body: Bytes, f: TierFaults) returns (ok: bool)
    modifies t
    ensures t.tiers == StoredOver(codec, old(t.tiers), key, meta, body, f)
    ensures ok == (AllWrite(|t.tiers|, f.putMeta) && AllWrite(|t.tiers|, f.putBody))
  {
    var err := t.Put(MetaName(key), codec.encode(meta), f.putMeta);
    NoPutFails(|t.tiers|, f.putMeta, err);
    if err.None? {
      err := t.Put(BodyName(key), body, f.putBody);
      NoPutFails(|t.tiers|, f.putBody, err);
    }
    ok := err.None?;
  }

  /** Cache.Delete over a tiered backend. */
  method DeleteEntry(t: Tiered, key: string, f: TierFaults) returns (r: DeleteOutcome)
    modifies t
    ensures t.tiers == ErasedOver(old(t.tiers), key, f)
    ensures r.DeleteNotFound? <==> !ExistsOver(old(t.tiers), MetaName(key), f.probe)
    ensures r.Deleted? ==> AllDrop(|t.tiers|, f.dropMeta) && AllDrop(|t.tiers|, f.dropBody)
    ensures r.DeleteFailed? ==> !AllDrop(|t.tiers|, f.dropMeta) || !AllDrop(|t.tiers|, f.dropBody)
  {
    var found := t.Exists(MetaName(key), f.probe);
    if !found {
      return DeleteNotFound;
    }
    var err := t.Delete(MetaName(key), f.dropMeta);
    NoDropFails(|t.tiers|, f.dropMeta, err);
    if err.None? {
      err := t.Delete(BodyName(key), f.dropBody);
      NoDropFails(|t.tiers|, f.dropBody, err);
    }
    return if err.None? then Deleted else DeleteFailed;
  }

  // ---- seen as one map ----

  /** The first tier at or after `from` that takes the object or holds it already: the one
      that answers once it is put. */
  function Answering(tiers: seq<Objects>, name: Name, puts: nat -> WriteFault, from: nat): (t: nat)
    requires from <= |tiers|
    ensures from <= t <= |tiers|
    ensures t < |tiers| ==> !puts(t).Refuses? || name in tiers[t]
    ensures forall j: nat :: from <= j < t ==> puts(j).Refuses? && name !in tiers[j]
    decreases |tiers| - from
  {
    if from == |tiers| || !puts(from).Refuses? || name in tiers[from] then from
    else Answering(tiers, name, puts, from + 1)
  }

  /** What readers see of an object that is put, if they see anything of it. */
  function Sight(tiers: seq<Objects>, name: Name, data: Bytes, puts: nat -> WriteFault): Option<Bytes> {
    var t := Answering(tiers, name, puts, 0);
    if t < |tiers| then BytesTaken(data, puts(t)) else None
  }

  /** A fan-out put, as one put to the map. */
  function PutSeen(tiers: seq<Objects>, name: Name, data: Bytes, puts: nat -> WriteFault): PutFault {
    if AllWrite(|tiers|, puts) then PutWorks
    else match Sight(tiers, name, data, puts)
         case None => PutRefused
         case Some(part) => PutTorn(|part|)
  }

  lemma PutIsWritten(tiers: seq<Objects>, name: Name, data: Bytes, puts: nat -> WriteFault)
    requires tiers != []
    ensures View(AfterPut(tiers, name, data, puts)) == Written(View(tiers), name, data, PutSeen(tiers, name, data, puts))
  {
    var after := AfterPut(tiers, name, data, puts);
    var seen := Written(View(tiers), name, data, PutSeen(tiers, name, data, puts));
    PutForName(tiers, name, data, puts);
    forall other
      ensures SameAnswer(View(after), seen, other)
    {
      if other != name {
        forall t: nat | t < |tiers|
          ensures SameAnswer(tiers[t], after[t], other)
        {
        }
        SameTiersSameView(tiers, after, other);
      }
    }
    SameMap(View(after), seen);
  }

  lemma PutForName(tiers: seq<Objects>, name: Name, data: Bytes, puts: nat -> WriteFault)
    ensures var after := View(AfterPut(tiers, name, data, puts));
            match Sight(tiers, name, data, puts)
            case None => SameAnswer(View(tiers), after, name)
            case Some(part) => name in after && after[name] == part
  {
    var after, t := AfterPut(tiers, name, data, puts), Answering(tiers, name, puts, 0);
    if t < |tiers| {
      ViewIsFirst(after, t, name);
      if puts(t).Refuses? { ViewIsFirst(tiers, t, name); }
    } else {
      ViewMisses(after, name);
      ViewMisses(tiers, name);
    }
  }

  /** The first tier that keeps the object although asked to delete it. */
  function Keeper(tiers: seq<Objects>, name: Name, drops: nat -> DropFault): (i: nat)
    ensures i <= |tiers|
    ensures i < |tiers| ==> name in tiers[i] && drops(i).Keeps?
    ensures forall j: nat :: j < i ==> name !in tiers[j] || !drops(j).Keeps?
  {
    FirstServing(tiers, name, (j: nat) => if drops(j).Keeps? then Reads else OpenFails, 0)
  }

  /** A fan-out deletion, as one deletion from the map. */
  function DeleteSeen(tiers: seq<Objects>, name: Name, drops: nat -> DropFault): DeleteFault {
    var i := Keeper(tiers, name, drops);
    if AllDrop(|tiers|, drops) then DeleteWorks
    else DeleteTorn(if i < |tiers| then Some(tiers[i][name]) else None)
  }

  lemma DeleteIsDropped(tiers: seq<Objects>, name: Name, drops: nat -> DropFault)
    ensures View(AfterDelete(tiers, name, drops)) == Dropped(View(tiers), name, DeleteSeen(tiers, name, drops))
  {
    var after := AfterDelete(tiers, name, drops);
    var seen := Dropped(View(tiers), name, DeleteSeen(tiers, name, drops));
    var i := Keeper(tiers, name, drops);
    if i < |tiers| { ViewIsFirst(after, i, name); } else { ViewMisses(after, name); }
    forall other
      ensures SameAnswer(View(after), seen, other)
    {
      if other != name {
        forall t: nat | t < |tiers|
          ensures SameAnswer(tiers[t], after[t], other)
        {
        }
        SameTiersSameView(tiers, after, other);
      }
    }
    SameMap(View(after), seen);
  }

  /** The storage faults of one operation as the map shows them. */
  function StoreSeen(codec: Codec, tiers: seq<Objects>, key: string, meta: EntryMeta, body: Bytes, f: TierFaults): Faults {
    var begun := AfterPut(tiers, MetaName(key), codec.encode(meta), f.putMeta);
    NO_FAULTS.(putMeta := PutSeen(tiers, MetaName(key), codec.encode(meta), f.putMeta),
               putBody := PutSeen(begun, BodyName(key), body, f.putBody))
  }

  function EraseSeen(tiers: seq<Objects>, key: string, f: TierFaults): Faults {
    var begun := AfterDelete(tiers, MetaName(key), f.dropMeta);
    NO_FAULTS.(existsMeta := if ExistsOver(tiers, MetaName(key), f.probe) then AskWorks else AskMisses,
               deleteMeta := DeleteSeen(tiers, MetaName(key), f.dropMeta),
               deleteBody := DeleteSeen(begun, BodyName(key), f.dropBody))
  }

  /** Storing over tiers is storing in the map they stand for, whichever tiers fail. */
  lemma StoredOverIsStored(codec: Codec, tiers: seq<Objects>, key: string, meta: EntryMeta, body: Bytes, f: TierFaults)
    requires tiers != []
    ensures View(StoredOver(codec, tiers, key, meta, body, f)) ==
            Stored(codec, View(tiers), key, meta, body, StoreSeen(codec, tiers, key, meta, body, f))
  {
    var begun := AfterPut(tiers, MetaName(key), codec.encode(meta), f.putMeta);
    PutIsWritten(tiers, MetaName(key), codec.encode(meta), f.putMeta);
    PutIsWritten(begun, BodyName(key), body, f.putBody);
  }

  /** Erasing over tiers is erasing from the map they stand for, whichever tiers fail. */
  lemma ErasedOverIsErased(tiers: seq<Objects>, key: string, f: TierFaults)
    ensures View(ErasedOver(tiers, key, f)) == Erased(View(tiers), key, EraseSeen(tiers, key, f))
  {
    var begun := AfterDelete(tiers, MetaName(key), f.dropMeta);
    ViewMisses(tiers, MetaName(key));
    DeleteIsDropped(tiers, MetaName(key), f.dropMeta);
    DeleteIsDropped(begun, BodyName(key), f.dropBody);
  }

  // ---- working reads, and other keys ----

  lemma WorkingGet(tiers: seq<Objects>, name: Name, faults: nat -> ReadFault, puts: nat -> WriteFault)
    requires NoCuts(|tiers|, puts) && forall i: nat :: i < |tiers| ==> faults(i).Reads?
    ensures GetAnswer(tiers, name, faults) == if name in View(tiers) then Found(View(tiers)[name]) else NotFound
    ensures View(AfterGet(tiers, name, faults, puts)) == View(tiers)
  {
    GetIsLookup(tiers, name);
    var i := FirstServing(tiers, name, faults, 0);
    assert i == FirstServing(tiers, name, NO_READ_FAULT, 0);
    BackfillKeepsView(tiers, name, puts);
  }

  /** A lookup with working reads is a lookup in the map the tiers stand for and leaves that
      map as it is, whichever backfills fail. */
  lemma LookupOverIsLookup(codec: Codec, tiers: seq<Objects>, key: string, f: TierFaults)
    requires ReadsAre(Working, |tiers|, f)
    ensures LookupOver(codec, tiers, key, f) == Lookup(codec, View(tiers), key, NO_FAULTS)
    ensures View(LookedUpOver(codec, tiers, key, f)) == View(tiers)
  {
    var fetched := AfterGet(tiers, MetaName(key), f.meta, f.copyMeta);
    WorkingGet(tiers, MetaName(key), f.meta, f.copyMeta);
    WorkingGet(fetched, BodyName(key), f.body, f.copyBody);
    AnswersMakeLookup(codec, View(tiers), key, GetAnswer(tiers, MetaName(key), f.meta), GetAnswer(fetched, BodyName(key), f.body));
  }

  /** The answers of the map make up the lookup in it. */
  lemma AnswersMakeLookup(codec: Codec, objects: Objects, key: string, meta: GetResult, body: GetResult)
    requires meta == if MetaName(key) in objects then Found(objects[MetaName(key)]) else NotFound
    requires body == if BodyName(key) in objects then Found(objects[BodyName(key)]) else NotFound
    ensures HitOf(codec, meta, body) == Lookup(codec, objects, key, NO_FAULTS)
  {
  }

  /** So are a deletion and a store that work. */
  lemma WorkingErase(tiers: seq<Objects>, key: string)
    ensures View(ErasedOver(tiers, key, NO_TIER_FAULTS)) == Erased(View(tiers), key, NO_FAULTS)
  {
    ErasedOverIsErased(tiers, key, NO_TIER_FAULTS);
    ViewMisses(tiers, MetaName(key));
  }

  lemma WorkingStore(codec: Codec, tiers: seq<Objects>, key: string, meta: EntryMeta, body: Bytes)
    requires tiers != []
    ensures View(StoredOver(codec, tiers, key, meta, body, NO_TIER_FAULTS)) ==
            Stored(codec, View(tiers), key, meta, body, NO_FAULTS)
  {
    StoredOverIsStored(codec, tiers, key, meta, body, NO_TIER_FAULTS);
  }

  lemma GetLeavesOthers(tiers: seq<Objects>, read: Name, faults: nat -> ReadFault, puts: nat -> WriteFault, name: Name)
    requires name != read
    ensures SameAnswer(View(tiers), View(AfterGet(tiers, read, faults, puts)), name)
  {
    var after := AfterGet(tiers, read, faults, puts);
    forall t: nat | t < |tiers|
      ensures SameAnswer(tiers[t], after[t], name)
    {
    }
    SameTiersSameView(tiers, after, name);
  }

  /** Whatever is done to one key, with whatever faults, readers see the same entry under
      another. */
  lemma OthersUntouchedOver(codec: Codec, tiers: seq<Objects>, key: string, meta: EntryMeta, body: Bytes, f: TierFaults,
                            other: string)
    requires other != key && tiers != []
    ensures SameEntry(View(tiers), View(LookedUpOver(codec, tiers, key, f)), other)
    ensures SameEntry(View(tiers), View(StoredOver(codec, tiers, key, meta, body, f)), other)
    ensures SameEntry(View(tiers), View(ErasedOver(tiers, key, f)), other)
  {
    LookupLeavesOthers(codec, tiers, key, f, MetaName(other));
    LookupLeavesOthers(codec, tiers, key, f, BodyName(other));
    StoredOverIsStored(codec, tiers, key, meta, body, f);
    ErasedOverIsErased(tiers, key, f);
    OthersUntouched(codec, View(tiers), key, meta, body, StoreSeen(codec, tiers, key, meta, body, f), other);
    OthersUntouched(codec, View(tiers), key, meta, body, EraseSeen(tiers, key, f), other);
  }

  lemma LookupLeavesOthers(codec: Codec, tiers: seq<Objects>, key: string, f: TierFaults, name: Name)
    requires name != MetaName(key) && name != BodyName(key)
    ensures SameAnswer(View(tiers), View(LookedUpOver(codec, tiers, key, f)), name)
  {
    var fetched := AfterGet(tiers, MetaName(key), f.meta, f.copyMeta);
    GetLeavesOthers(tiers, MetaName(key), f.meta, f.copyMeta, name);
    GetLeavesOthers(fetched, BodyName(key), f.body, f.copyBody, name);
  }

  // ---- one write ----

  /** A hit is the old entry or the new one. */
  predicate IsOneOf(found: GetOutcome, before: EntryMeta, stale: Bytes, meta: EntryMeta, body: Bytes) {
    found.Hit? ==> found in {Hit(before, stale), Hit(meta, body)}
  }

  /** Nothing of the meta shows, or only a part of it, or both halves show whole. */
  predicate StaysWhole(codec: Codec, meta: EntryMeta, body: Bytes, f: Faults) {
    match f.putMeta
    case PutRefused => true
    case PutTorn(taken) => taken < |codec.encode(meta)|
    case PutWorks => f.putBody.PutWorks? || (f.putBody.PutTorn? && f.putBody.taken >= |body|)
  }

  /** The body that shows beside a new meta whose own body does not show whole. */
  function OtherBody(stale: Bytes, body: Bytes, f: Faults): Bytes {
    if f.putMeta.PutWorks? && f.putBody.PutTorn? then FirstBytes(body, f.putBody.taken) else stale
  }

  /** A lookup with working reads after storing over an entry hits that entry or the new one
      exactly when the write stays whole, or the halves that show are one of them anyway.
      Otherwise another body stands under the new time stamp. */
  lemma RefreshIsWholeIff(codec: Codec, objects: Objects, key: string, before: EntryMeta, stale: Bytes,
                          meta: EntryMeta, body: Bytes, f: Faults)
    requires codec.RoundTrips() && codec.TellsCuts() && Lookup(codec, objects, key, NO_FAULTS) == Hit(before, stale)
    ensures var found := Lookup(codec, Stored(codec, objects, key, meta, body, f), key, NO_FAULTS);
            && (IsOneOf(found, before, stale, meta, body) <==>
                StaysWhole(codec, meta, body, f) || IsOneOf(Hit(meta, OtherBody(stale, body, f)), before, stale, meta, body))
            && (!StaysWhole(codec, meta, body, f) ==> found == Hit(meta, OtherBody(stale, body, f)))
  {
    var text := codec.encode(meta);
    assert codec.decode(text) == Some(meta);
    if f.putMeta.PutTorn? && f.putMeta.taken < |text| {
      assert codec.decode(FirstBytes(text, f.putMeta.taken)) == None;
    }
  }

  // ---- what readers may be shown ----

  /** Whether reads are known to work: then readers see the map; otherwise any tier may be
      the one that answers. */
  datatype Reading = Working | Faulty

  ghost predicate Shows(r: Reading, tiers: seq<Objects>, name: Name, data: Bytes) {
    match r
    case Working => name in View(tiers) && View(tiers)[name] == data
    case Faulty => Holds(tiers, name, data)
  }

  ghost predicate Holds(tiers: seq<Objects>, name: Name, data: Bytes) {
    exists i: nat :: i < |tiers| && name in tiers[i] && tiers[i][name] == data
  }

  /** The reads of a lookup are as the reading says, and its backfills are not cut short. */
  predicate ReadsAre(r: Reading, n: nat, f: TierFaults) {
    && NoCuts(n, f.copyMeta) && NoCuts(n, f.copyBody)
    && (r.Working? ==> forall i: nat :: i < n ==> f.meta(i).Reads? && f.body(i).Reads?)
  }

  /** The first tier opens the object and its stream breaks off before the end. */
  predicate StreamBreaks(tiers: seq<Objects>, name: Name, faults: nat -> ReadFault) {
    tiers != [] && name in tiers[0] && faults(0).ReadFails? && faults(0).after < |tiers[0][name]|
  }

  lemma AnswerIsShown(r: Reading, tiers: seq<Objects>, name: Name, faults: nat -> ReadFault) returns (data: Bytes)
    requires r.Working? ==> forall i: nat :: i < |tiers| ==> faults(i).Reads?
    requires GetAnswer(tiers, name, faults).Found? || GetAnswer(tiers, name, faults).Partial?
    ensures Shows(r, tiers, name, data)
    ensures var answer := GetAnswer(tiers, name, faults);
            answer.data <= data && (answer.data == data <==> !StreamBreaks(tiers, name, faults))
  {
    var i := FirstServing(tiers, name, faults, 0);
    data := tiers[i][name];
    if r.Working? { ViewIsFirst(tiers, i, name); }
  }

  /** A backfill shows readers nothing they could not see before. */
  lemma BackfillShows(r: Reading, tiers: seq<Objects>, read: Name, faults: nat -> ReadFault, puts: nat -> WriteFault,
                      name: Name, data: Bytes)
    requires NoCuts(|tiers|, puts) && (r.Working? ==> forall i: nat :: i < |tiers| ==> faults(i).Reads?)
    requires Shows(r, AfterGet(tiers, read, faults, puts), name, data)
    ensures Shows(r, tiers, name, data)
  {
    var i := FirstServing(tiers, read, faults, 0);
    match r
    case Working => if i < |tiers| { CopyKeepsAnswer(tiers, read, i, puts, name); }
    case Faulty =>
      var after := AfterGet(tiers, read, faults, puts);
      var t: nat :| t < |after| && name in after[t] && after[t][name] == data;
      if after[t] != tiers[t] && name == read { assert tiers[i][name] == data; }
  }

  /** A hit is made of a meta and a body that readers could see, and carries all of that
      body unless the first tier's stream breaks off. */
  lemma HitIsShown(r: Reading, codec: Codec, tiers: seq<Objects>, key: string, f: TierFaults) returns (m: Bytes, b: Bytes)
    requires ReadsAre(r, |tiers|, f) && LookupOver(codec, tiers, key, f).Hit?
    ensures Shows(r, tiers, MetaName(key), m) && Shows(r, tiers, BodyName(key), b)
    ensures var hit := LookupOver(codec, tiers, key, f);
            && codec.decode(m) == Some(hit.meta)
            && hit.body <= b && (hit.body == b <==> !StreamBreaks(tiers, BodyName(key), f.body))
  {
    var fetched := AfterGet(tiers, MetaName(key), f.meta, f.copyMeta);
    m := AnswerIsShown(r, tiers, MetaName(key), f.meta);
    b := AnswerIsShown(r, fetched, BodyName(key), f.body);
    BackfillShows(r, tiers, MetaName(key), f.meta, f.copyMeta, BodyName(key), b);
  }

  lemma LookupShows(r: Reading, codec: Codec, tiers: seq<Objects>, key: string, f: TierFaults, name: Name, data: Bytes)
    requires ReadsAre(r, |tiers|, f) && Shows(r, LookedUpOver(codec, tiers, key, f), name, data)
    ensures Shows(r, tiers, name, data)
  {
    var fetched := AfterGet(tiers, MetaName(key), f.meta, f.copyMeta);
    if LookedUpOver(codec, tiers, key, f) != fetched {
      BackfillShows(r, fetched, BodyName(key), f.body, f.copyBody, name, data);
    }
    BackfillShows(r, tiers, MetaName(key), f.meta, f.copyMeta, name, data);
  }

  /** The condition on a store: readers never get to see the new meta with another body than
      its own. With working reads: if every tier takes the meta, the whole body shows, or
      nothing of it and there was none; if not, nothing of the meta shows, or only a part,
      or there is no body. With reads that may fail the same holds tier by tier. */
  predicate WritesWhole(r: Reading, codec: Codec, tiers: seq<Objects>, key: string, meta: EntryMeta, body: Bytes, f: TierFaults) {
    var text, n := codec.encode(meta), |tiers|;
    match r
    case Working =>
      if AllWrite(n, f.putMeta) then
        || Sight(tiers, BodyName(key), body, f.putBody) == Some(body)
        || (Sight(tiers, BodyName(key), body, f.putBody) == None && BodyName(key) !in View(tiers))
      else
        Sight(tiers, MetaName(key), text, f.putMeta) != Some(text) || BodyName(key) !in View(tiers)
    case Faulty =>
      if AllWrite(n, f.putMeta) then
        forall i: nat :: i < n ==> BytesTaken(body, f.putBody(i)) == Some(body) || (f.putBody(i).Refuses? && BodyName(key) !in tiers[i])
      else
        || (forall i: nat :: i < n ==> BytesTaken(text, f.putMeta(i)) != Some(text))
        || (forall i: nat :: i < n ==> BodyName(key) !in tiers[i])
  }

  /** After such a store, a meta that decodes and a body that readers may see are the new
      entry or both were there before. */
  lemma StoreShows(r: Reading, codec: Codec, tiers: seq<Objects>, key: string, meta: EntryMeta, body: Bytes, f: TierFaults,
                   m: Bytes, b: Bytes)
    requires codec.TellsCuts() && tiers != [] && WritesWhole(r, codec, tiers, key, meta, body, f) && codec.decode(m).Some?
    requires var after := StoredOver(codec, tiers, key, meta, body, f);
             Shows(r, after, MetaName(key), m) && Shows(r, after, BodyName(key), b)
    ensures (m == codec.encode(meta) && b == body) || (Shows(r, tiers, MetaName(key), m) && Shows(r, tiers, BodyName(key), b))
  {
    match r
    case Working => StoreShowsWorking(codec, tiers, key, meta, body, f, m, b);
    case Faulty => StoreShowsFaulty(codec, tiers, key, meta, body, f, m, b);
  }

  /** Part of an encoded meta does not decode. */
  lemma PartDoesNotDecode(codec: Codec, meta: EntryMeta, fault: WriteFault)
    requires codec.TellsCuts()
    ensures var part := BytesTaken(codec.encode(meta), fault);
            part.Some? && codec.decode(part.value).Some? ==> part.value == codec.encode(meta)
  {
  }

  lemma StoreShowsWorking(codec: Codec, tiers: seq<Objects>, key: string, meta: EntryMeta, body: Bytes, f: TierFaults,
                          m: Bytes, b: Bytes)
    requires codec.TellsCuts() && tiers != [] && WritesWhole(Working, codec, tiers, key, meta, body, f) && codec.decode(m).Some?
    requires var after := StoredOver(codec, tiers, key, meta, body, f);
             Shows(Working, after, MetaName(key), m) && Shows(Working, after, BodyName(key), b)
    ensures || (m == codec.encode(meta) && b == body)
            || (Shows(Working, tiers, MetaName(key), m) && Shows(Working, tiers, BodyName(key), b))
  {
    var text := codec.encode(meta);
    var begun := AfterPut(tiers, MetaName(key), text, f.putMeta);
    PutForName(tiers, MetaName(key), text, f.putMeta);
    PutIsWritten(tiers, MetaName(key), text, f.putMeta);
    if AllWrite(|tiers|, f.putMeta) {
      PutForName(begun, BodyName(key), body, f.putBody);
      PutIsWritten(begun, BodyName(key), body, f.putBody);
      assert Answering(begun, BodyName(key), f.putBody, 0) == Answering(tiers, BodyName(key), f.putBody, 0);
    } else {
      var t := Answering(tiers, MetaName(key), f.putMeta, 0);
      if t < |tiers| { PartDoesNotDecode(codec, meta, f.putMeta(t)); }
    }
  }

  lemma StoreShowsFaulty(codec: Codec, tiers: seq<Objects>, key: string, meta: EntryMeta, body: Bytes, f: TierFaults,
                         m: Bytes, b: Bytes)
    requires codec.TellsCuts() && tiers != [] && WritesWhole(Faulty, codec, tiers, key, meta, body, f) && codec.decode(m).Some?
    requires var after := StoredOver(codec, tiers, key, meta, body, f);
             Holds(after, MetaName(key), m) && Holds(after, BodyName(key), b)
    ensures (m == codec.encode(meta) && b == body) || (Holds(tiers, MetaName(key), m) && Holds(tiers, BodyName(key), b))
  {
    var after := StoredOver(codec, tiers, key, meta, body, f);
    var i: nat :| i < |after| && MetaName(key) in after[i] && after[i][MetaName(key)] == m;
    PartDoesNotDecode(codec, meta, f.putMeta(i));
  }

  lemma StoreShowsOthers(r: Reading, codec: Codec, tiers: seq<Objects>, key: string, meta: EntryMeta, body: Bytes, f: TierFaults,
                         name: Name, data: Bytes)
    requires tiers != [] && name != MetaName(key) && name != BodyName(key)
    requires Shows(r, StoredOver(codec, tiers, key, meta, body, f), name, data)
    ensures Shows(r, tiers, name, data)
  {
    StoredOverIsStored(codec, tiers, key, meta, body, f);
  }

  lemma StoreHolds(codec: Codec, tiers: seq<Objects>, key: string, meta: EntryMeta, body: Bytes, f: TierFaults,
                   name: Name, data: Bytes)
    requires Holds(StoredOver(codec, tiers, key, meta, body, f), name, data)
    ensures || Holds(tiers, name, data) || name == BodyName(key)
            || (name == MetaName(key) && data <= codec.encode(meta))
  {
  }

  lemma EraseHolds(tiers: seq<Objects>, key: string, f: TierFaults, name: Name, data: Bytes)
    requires Holds(ErasedOver(tiers, key, f), name, data)
    ensures Holds(tiers, name, data)
  {
  }

  /** The condition on a deletion with working reads: if a tier keeps its meta, the first
      that does has the meta readers saw or one that does not decode, or there is no body to
      go with it. */
  ghost predicate ErasesWhole(r: Reading, codec: Codec, tiers: seq<Objects>, key: string, f: TierFaults) {
    var i := Keeper(tiers, MetaName(key), f.dropMeta);
    r.Working? && ExistsOver(tiers, MetaName(key), f.probe) && i < |tiers| && BodyName(key) in View(tiers) ==>
      codec.decode(tiers[i][MetaName(key)]).None? || Shows(r, tiers, MetaName(key), tiers[i][MetaName(key)])
  }

  lemma EraseShowsWorking(codec: Codec, tiers: seq<Objects>, key: string, f: TierFaults, other: string, m: Bytes, b: Bytes)
    requires ErasesWhole(Working, codec, tiers, key, f) && codec.decode(m).Some?
    requires var after := View(ErasedOver(tiers, key, f));
             && MetaName(other) in after && after[MetaName(other)] == m
             && BodyName(other) in after && after[BodyName(other)] == b
    ensures Shows(Working, tiers, MetaName(other), m) && Shows(Working, tiers, BodyName(other), b)
  {
    var seen := EraseSeen(tiers, key, f);
    assert View(ErasedOver(tiers, key, f)) == Erased(View(tiers), key, seen) by { ErasedOverIsErased(tiers, key, f); }
    if other != key {
      OthersUntouched(codec, View(tiers), key, EntryMeta("", "", 0, map[], 0), [], seen, other);
    } else if seen.existsMeta.AskWorks? {
      ViewMisses(tiers, MetaName(key));
    }
  }

  lemma EraseShows(r: Reading, codec: Codec, tiers: seq<Objects>, key: string, f: TierFaults, other: string, m: Bytes, b: Bytes)
    requires ErasesWhole(r, codec, tiers, key, f) && codec.decode(m).Some?
    requires var after := ErasedOver(tiers, key, f);
             Shows(r, after, MetaName(other), m) && Shows(r, after, BodyName(other), b)
    ensures Shows(r, tiers, MetaName(other), m) && Shows(r, tiers, BodyName(other), b)
  {
    match r
    case Working => EraseShowsWorking(codec, tiers, key, f, other, m, b);
    case Faulty =>
      EraseHolds(tiers, key, f, MetaName(other), m);
      EraseHolds(tiers, key, f, BodyName(other), b);
  }

  /** Whatever fails, a lookup leaves no more in the tiers than parts of what they held. */
  lemma LookupHoldsParts(codec: Codec, tiers: seq<Objects>, key: string, f: TierFaults, name: Name, data: Bytes)
    returns (whole: Bytes)
    requires Holds(LookedUpOver(codec, tiers, key, f), name, data)
    ensures Holds(tiers, name, whole) && data <= whole
  {
    var fetched := AfterGet(tiers, MetaName(key), f.meta, f.copyMeta);
    if LookedUpOver(codec, tiers, key, f) == fetched {
      whole := BackfillHoldsParts(tiers, MetaName(key), f.meta, f.copyMeta, name, data);
    } else {
      var part := BackfillHoldsParts(fetched, BodyName(key), f.body, f.copyBody, name, data);
      whole := BackfillHoldsParts(tiers, MetaName(key), f.meta, f.copyMeta, name, part);
    }
  }

  lemma BackfillHoldsParts(tiers: seq<Objects>, read: Name, faults: nat -> ReadFault, puts: nat -> WriteFault,
                           name: Name, data: Bytes) returns (whole: Bytes)
    requires Holds(AfterGet(tiers, read, faults, puts), name, data)
    ensures Holds(tiers, name, whole) && data <= whole
  {
    var after, i := AfterGet(tiers, read, faults, puts), FirstServing(tiers, read, faults, 0);
    var t: nat :| t < |after| && name in after[t] && after[t][name] == data;
    if after[t] == tiers[t] { whole := data; } else { whole := if name == read then tiers[i][read] else data; }
  }

  // ---- the conditions are exact ----

  /** With working reads, a lookup after a refresh hits the old entry or the new one exactly
      when the write stays whole over the tiers, or the halves that show are one of them
      anyway; otherwise another body stands under the new time stamp, to be served as fresh. */
  lemma RefreshOverIff(codec: Codec, tiers: seq<Objects>, key: string, before: EntryMeta, stale: Bytes,
                       meta: EntryMeta, body: Bytes, f: TierFaults)
    requires codec.RoundTrips() && codec.TellsCuts() && tiers != []
    requires Lookup(codec, View(tiers), key, NO_FAULTS) == Hit(before, stale)
    ensures var found := Lookup(codec, View(StoredOver(codec, tiers, key, meta, body, f)), key, NO_FAULTS);
            var shown := OtherBody(stale, body, StoreSeen(codec, tiers, key, meta, body, f));
            && (IsOneOf(found, before, stale, meta, body) <==>
                WritesWhole(Working, codec, tiers, key, meta, body, f) || IsOneOf(Hit(meta, shown), before, stale, meta, body))
            && (!WritesWhole(Working, codec, tiers, key, meta, body, f) ==> found == Hit(meta, shown))
  {
    StoredOverIsStored(codec, tiers, key, meta, body, f);
    RefreshIsWholeIff(codec, View(tiers), key, before, stale, meta, body, StoreSeen(codec, tiers, key, meta, body, f));
    WholeAsSeen(codec, tiers, key, meta, body, f);
  }

  /** The condition on the tiers is the one on the map they stand for. */
  lemma WholeAsSeen(codec: Codec, tiers: seq<Objects>, key: string, meta: EntryMeta, body: Bytes, f: TierFaults)
    requires tiers != [] && BodyName(key) in View(tiers)
    ensures WritesWhole(Working, codec, tiers, key, meta, body, f) <==>
            StaysWhole(codec, meta, body, StoreSeen(codec, tiers, key, meta, body, f))
  {
    var begun := AfterPut(tiers, MetaName(key), codec.encode(meta), f.putMeta);
    SameSight(tiers, begun, BodyName(key), body, f.putBody);
    WholeSeenIff(tiers, MetaName(key), codec.encode(meta), f.putMeta);
    WholeSeenIff(begun, BodyName(key), body, f.putBody);
  }

  lemma SameSight(tiers: seq<Objects>, others: seq<Objects>, name: Name, data: Bytes, puts: nat -> WriteFault)
    requires |tiers| == |others| && forall i: nat :: i < |tiers| ==> (name in tiers[i] <==> name in others[i])
    ensures Sight(tiers, name, data, puts) == Sight(others, name, data, puts)
  {
    assert Answering(tiers, name, puts, 0) == Answering(others, name, puts, 0);
  }

  lemma WholeSeenIff(tiers: seq<Objects>, name: Name, data: Bytes, puts: nat -> WriteFault)
    requires tiers != []
    ensures var seen := PutSeen(tiers, name, data, puts);
            && (seen.PutWorks? <==> AllWrite(|tiers|, puts))
            && (Sight(tiers, name, data, puts) == Some(data) <==>
                seen.PutWorks? || (seen.PutTorn? && seen.taken >= |data|))
  {
    var t := Answering(tiers, name, puts, 0);
    if AllWrite(|tiers|, puts) { assert t == 0; }
  }

  /** Every tier holds the halves of one entry, or none. */
  ghost predicate HoldsOnly(codec: Codec, tiers: seq<Objects>, key: string, meta: EntryMeta, body: Bytes) {
    && (forall i: nat :: i < |tiers| && MetaName(key) in tiers[i] ==> codec.decode(tiers[i][MetaName(key)]) == Some(meta))
    && (forall i: nat :: i < |tiers| && BodyName(key) in tiers[i] ==> tiers[i][BodyName(key)] == body)
  }

  /** The reads of some lookup answer with `i`'s meta and `j`'s body. */
  function ReadFrom(i: nat, j: nat): TierFaults {
    NO_TIER_FAULTS.(meta := (t: nat) => if t < i then OpenFails else Reads, copyMeta := _ => Refuses,
                    body := (t: nat) => if t < j then OpenFails else Reads)
  }

  lemma ReadFromFinds(codec: Codec, tiers: seq<Objects>, key: string, i: nat, j: nat)
    requires i < |tiers| && MetaName(key) in tiers[i] && codec.decode(tiers[i][MetaName(key)]).Some?
    requires j < |tiers| && BodyName(key) in tiers[j]
    ensures LookupOver(codec, tiers, key, ReadFrom(i, j)) ==
            Hit(codec.decode(tiers[i][MetaName(key)]).value, tiers[j][BodyName(key)])
  {
    var f := ReadFrom(i, j);
    assert FirstServing(tiers, MetaName(key), f.meta, 0) == i;
    var fetched := AfterGet(tiers, MetaName(key), f.meta, f.copyMeta);
    assert forall t: nat :: t < |tiers| ==> fetched[t] == tiers[t];
    assert fetched == tiers;
    assert FirstServing(tiers, BodyName(key), f.body, 0) == j;
  }

  /** With reads that may fail in any tiers, every hit after a refresh of an entry that all
      its holders agree on is the old entry or the new one exactly when the write stays
      whole tier by tier. */
  lemma RefreshUnderAnyReadIff(codec: Codec, tiers: seq<Objects>, key: string, before: EntryMeta, stale: Bytes,
                               meta: EntryMeta, body: Bytes, f: TierFaults)
    requires codec.RoundTrips() && codec.TellsCuts() && tiers != [] && HoldsOnly(codec, tiers, key, before, stale)
    requires meta != before && body != stale
    ensures (forall g: TierFaults :: AnswersWhole(|tiers|, g) ==>
               IsOneOf(LookupOver(codec, StoredOver(codec, tiers, key, meta, body, f), key, g), before, stale, meta, body))
            <==> WritesWhole(Faulty, codec, tiers, key, meta, body, f)
  {
    var after := StoredOver(codec, tiers, key, meta, body, f);
    if WritesWhole(Faulty, codec, tiers, key, meta, body, f) {
      forall g: TierFaults | AnswersWhole(|tiers|, g)
        ensures IsOneOf(LookupOver(codec, after, key, g), before, stale, meta, body)
      {
        if LookupOver(codec, after, key, g).Hit? {
          var m, b := HitIsShown(Faulty, codec, after, key, g);
          StoreShows(Faulty, codec, tiers, key, meta, body, f, m, b);
        }
      }
    } else {
      var i, j := MixedHalves(codec, tiers, key, before, stale, meta, body, f);
      ReadFromFinds(codec, after, key, i, j);
      assert AnswersWhole(|tiers|, ReadFrom(i, j));
    }
  }

  /** Reads may fail in any tiers; the first tier's stream and the backfills are not cut. */
  predicate AnswersWhole(n: nat, g: TierFaults) {
    !g.body(0).ReadFails? && ReadsAre(Faulty, n, g)
  }

  /** A write that does not stay whole leaves the new meta in one tier and in one tier a body
      that is not its own. */
  lemma MixedHalves(codec: Codec, tiers: seq<Objects>, key: string, before: EntryMeta, stale: Bytes,
                    meta: EntryMeta, body: Bytes, f: TierFaults) returns (i: nat, j: nat)
    requires codec.RoundTrips() && HoldsOnly(codec, tiers, key, before, stale) && body != stale
    requires !WritesWhole(Faulty, codec, tiers, key, meta, body, f)
    ensures var after := StoredOver(codec, tiers, key, meta, body, f);
            && i < |after| && MetaName(key) in after[i] && codec.decode(after[i][MetaName(key)]) == Some(meta)
            && j < |after| && BodyName(key) in after[j] && after[j][BodyName(key)] != body
  {
    var text := codec.encode(meta);
    if AllWrite(|tiers|, f.putMeta) {
      j :| j < |tiers| && !(BytesTaken(body, f.putBody(j)) == Some(body) || (f.putBody(j).Refuses? && BodyName(key) !in tiers[j]));
      i := j;
    } else {
      i :| i < |tiers| && BytesTaken(text, f.putMeta(i)) == Some(text);
      j :| j < |tiers| && BodyName(key) in tiers[j];
    }
  }

  /** With working reads, what is found after erasing an entry is nothing or the entry as it
      was exactly when no tier brings back another meta for its body. */
  lemma EraseOverIff(codec: Codec, tiers: seq<Objects>, key: string, before: EntryMeta, stale: Bytes, f: TierFaults)
    requires Lookup(codec, View(tiers), key, NO_FAULTS) == Hit(before, stale)
    ensures var found := Lookup(codec, View(ErasedOver(tiers, key, f)), key, NO_FAULTS);
            var i := Keeper(tiers, MetaName(key), f.dropMeta);
            (found.Hit? ==> found == Hit(before, stale)) <==>
              (ExistsOver(tiers, MetaName(key), f.probe) && i < |tiers| ==>
                 codec.decode(tiers[i][MetaName(key)]) in {None, Some(before)})
  {
    ErasedOverIsErased(tiers, key, f);
    EraseIsWholeIff(codec, View(tiers), key, before, stale, EraseSeen(tiers, key, f));
  }

  lemma EraseIsWholeIff(codec: Codec, objects: Objects, key: string, before: EntryMeta, stale: Bytes, f: Faults)
    requires Lookup(codec, objects, key, NO_FAULTS) == Hit(before, stale)
    ensures var found := Lookup(codec, Erased(objects, key, f), key, NO_FAULTS);
            (found.Hit? ==> found == Hit(before, stale)) <==>
              (f.existsMeta.AskWorks? && f.deleteMeta.DeleteTorn? && f.deleteMeta.left.Some? ==>
                 codec.decode(f.deleteMeta.left.value) in {None, Some(before)})
  {
  }

  // ---- the failing inputs ----

  function EntryObjects(codec: Codec, key: string, meta: EntryMeta, body: Bytes): Objects {
    map[MetaName(key) := codec.encode(meta), BodyName(key) := body]
  }

  /** One entry in two tiers is what readers see. */
  lemma EntryIsSeen(codec: Codec, key: string, meta: EntryMeta, body: Bytes, other: Objects)
    requires codec.RoundTrips()
    ensures var tiers := [EntryObjects(codec, key, meta, body), other];
            Lookup(codec, View(tiers), key, NO_FAULTS) == Hit(meta, body) && BodyName(key) in View(tiers)
  {
    var tiers := [EntryObjects(codec, key, meta, body), other];
    assert codec.decode(codec.encode(meta)) == Some(meta);
    ViewIsFirst(tiers, 0, MetaName(key));
    ViewIsFirst(tiers, 0, BodyName(key));
  }

  /** A stale entry in two tiers, and a refresh whose meta put fails in the second only: the
      refresh reports an error, and the old body is found under the new time stamp. */
  lemma TornMetaLooksFresh(codec: Codec, key: string, before: EntryMeta, stale: Bytes, meta: EntryMeta, body: Bytes)
    requires codec.RoundTrips() && codec.TellsCuts()
    ensures var entry := EntryObjects(codec, key, before, stale);
            var f := NO_TIER_FAULTS.(putMeta := i => if i == 1 then Refuses else Writes);
            && !AllWrite(2, f.putMeta)
            && Lookup(codec, View(StoredOver(codec, [entry, entry], key, meta, body, f)), key, NO_FAULTS) == Hit(meta, stale)
  {
    var entry := EntryObjects(codec, key, before, stale);
    var f := NO_TIER_FAULTS.(putMeta := i => if i == 1 then Refuses else Writes);
    assert f.putMeta(1).Refuses? && f.putMeta(0).Writes?;
    EntryIsSeen(codec, key, before, stale, entry);
    RefreshOverIff(codec, [entry, entry], key, before, stale, meta, body, f);
  }

  /** A body put that fails in the second tier only reports an error, and the new entry is
      found whole. */
  lemma TornBodyStaysWhole(codec: Codec, key: string, before: EntryMeta, stale: Bytes, meta: EntryMeta, body: Bytes)
    requires codec.RoundTrips()
    ensures var entry := EntryObjects(codec, key, before, stale);
            var f := NO_TIER_FAULTS.(putBody := i => if i == 1 then Refuses else Writes);
            && !AllWrite(2, f.putBody)
            && Lookup(codec, View(StoredOver(codec, [entry, entry], key, meta, body, f)), key, NO_FAULTS) == Hit(meta, body)
  {
    var entry := EntryObjects(codec, key, before, stale);
    var f := NO_TIER_FAULTS.(putBody := i => if i == 1 then Refuses else Writes);
    var begun := AfterPut([entry, entry], MetaName(key), codec.encode(meta), f.putMeta);
    var after := AfterPut(begun, BodyName(key), body, f.putBody);
    assert f.putBody(1).Refuses? && f.putBody(0).Writes?;
    assert codec.decode(codec.encode(meta)) == Some(meta);
    ViewIsFirst(after, 0, MetaName(key));
    ViewIsFirst(after, 0, BodyName(key));
  }

  /** A body put that breaks off in the only tier: the part of the body it left is found
      under the new time stamp. */
  lemma CutBodyLooksFresh(codec: Codec, key: string, before: EntryMeta, stale: Bytes, meta: EntryMeta, body: Bytes, taken: nat)
    requires codec.RoundTrips() && codec.TellsCuts() && taken < |body|
    ensures var f := NO_TIER_FAULTS.(putBody := _ => Cuts(taken));
            Lookup(codec, View(StoredOver(codec, [EntryObjects(codec, key, before, stale)], key, meta, body, f)), key, NO_FAULTS)
            == Hit(meta, body[..taken])
  {
    var tiers := [EntryObjects(codec, key, before, stale)];
    var f := NO_TIER_FAULTS.(putBody := _ => Cuts(taken));
    var begun := AfterPut(tiers, MetaName(key), codec.encode(meta), f.putMeta);
    var after := AfterPut(begun, BodyName(key), body, f.putBody);
    assert codec.decode(codec.encode(meta)) == Some(meta);
    ViewIsFirst(after, 0, MetaName(key));
    ViewIsFirst(after, 0, BodyName(key));
  }

  /** An older entry left in the second tier, and a deletion that fails there only: the old
      meta comes back, with the new body. */
  lemma TornDeletionRevivesMeta(codec: Codec, key: string, older: EntryMeta, oldBody: Bytes, meta: EntryMeta, body: Bytes)
    requires codec.RoundTrips()
    ensures var tiers := [EntryObjects(codec, key, meta, body), EntryObjects(codec, key, older, oldBody)];
            var f := NO_TIER_FAULTS.(dropMeta := i => if i == 1 then Keeps else Drops);
            && Lookup(codec, View(tiers), key, NO_FAULTS) == Hit(meta, body)
            && Lookup(codec, View(ErasedOver(tiers, key, f)), key, NO_FAULTS) == Hit(older, body)
  {
    var tiers := [EntryObjects(codec, key, meta, body), EntryObjects(codec, key, older, oldBody)];
    var f := NO_TIER_FAULTS.(dropMeta := i => if i == 1 then Keeps else Drops);
    var begun := [map[BodyName(key) := body], tiers[1]];
    assert f.dropMeta(1).Keeps? && f.dropMeta(0).Drops? && !f.probe(0) && MetaName(key) in tiers[0];
    assert tiers[0] - {MetaName(key)} == begun[0];
    assert ErasedOver(tiers, key, f) == AfterDelete(tiers, MetaName(key), f.dropMeta) == begun;
    assert codec.decode(codec.encode(older)) == Some(older);
    EntryIsSeen(codec, key, meta, body, tiers[1]);
    ViewIsFirst(begun, 1, MetaName(key));
    ViewIsFirst(begun, 0, BodyName(key));
  }
}
