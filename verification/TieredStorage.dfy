/** Tiered storage: an ordered list of backends read through with backfill and
    written all at once. Seen from outside it is one map. */
module TieredStorage {
  import opened Common

  /** What a tier does when asked for an object: it may fail to open it, or hand out no
      more than the first `after` bytes before it fails. */
  datatype ReadFault = Reads | OpenFails | ReadFails(after: nat)

  /** The first tier's stream is handed on unread, so it may still break off: `Partial`. */
  datatype GetResult = Found(data: Bytes) | NotFound | ReadError(tier: nat) | Partial(data: Bytes)

  /** What a tier does with a write: take the object, refuse it, or report an error after
      taking its first `taken` bytes, all of them if there are no more. */
  datatype WriteFault = Writes | Refuses | Cuts(taken: nat)

  /** What a tier does with a deletion: drop the object, keep it with an error, or report an
      error although the object is gone. */
  datatype DropFault = Drops | Keeps | Loses

  datatype SizeResult = Sized(bytes: nat) | Missing | SizeError(tier: nat)

  /** The single map the tiers stand for: the first tier holding a name decides. */
  function View(tiers: seq<Objects>): Objects {
    if tiers == [] then map[] else View(tiers[1..]) + tiers[0]
  }

  /** The first tier at or after `from` that hands out `key`; |tiers| if none does. */
  function FirstServing(tiers: seq<Objects>, key: Name, faults: nat -> ReadFault, from: nat): (i: nat)
    requires from <= |tiers|
    ensures from <= i <= |tiers|
    ensures i < |tiers| ==> key in tiers[i] && !faults(i).OpenFails?
    ensures forall j :: from <= j < i ==> key !in tiers[j] || faults(j).OpenFails?
    decreases |tiers| - from
  {
    if from == |tiers| then from
    else if key in tiers[from] && !faults(from).OpenFails? then from
    else FirstServing(tiers, key, faults, from + 1)
  }

  function GetAnswer(tiers: seq<Objects>, key: Name, faults: nat -> ReadFault): GetResult {
    var i := FirstServing(tiers, key, faults, 0);
    if i == |tiers| then NotFound
    else if faults(i).ReadFails? then if i == 0 then Partial(FirstBytes(tiers[0][key], faults(0).after)) else ReadError(i)
    else Found(tiers[i][key])
  }

  /** The first tier at or after `from` that fails or holds `key` decides its size. */
  function SizeAnswer(tiers: seq<Objects>, key: Name, fails: nat -> bool, from: nat): (r: SizeResult)
    requires from <= |tiers|
    ensures r.Missing? <==> forall i: nat :: from <= i < |tiers| ==> key !in tiers[i] && !fails(i)
    decreases |tiers| - from
  {
    if from == |tiers| then Missing
    else if fails(from) then SizeError(from)
    else if key in tiers[from] then Sized(|tiers[from][key]|)
    else SizeAnswer(tiers, key, fails, from + 1)
  }

  /** The bytes of an object that a write leaves behind, if it leaves any. */
  function BytesTaken(data: Bytes, fault: WriteFault): Option<Bytes> {
    match fault
    case Writes => Some(data)
    case Refuses => None
    case Cuts(taken) => Some(FirstBytes(data, taken))
  }

  function TierAfterWrite(tier: Objects, key: Name, data: Bytes, fault: WriteFault): Objects {
    if fault.Refuses? then tier else tier[key := BytesTaken(data, fault).value]
  }

  /** The first `upTo` tiers are written a copy. */
  function Copied(tiers: seq<Objects>, key: Name, data: Bytes, upTo: nat, puts: nat -> WriteFault): (r: seq<Objects>)
    ensures |r| == |tiers|
    ensures forall t :: 0 <= t < |r| ==> r[t] == if t < upTo then TierAfterWrite(tiers[t], key, data, puts(t)) else tiers[t]
  {
    seq(|tiers|, t requires 0 <= t < |tiers| => if t < upTo then TierAfterWrite(tiers[t], key, data, puts(t)) else tiers[t])
  }

  /** No write takes an object in part. */
  predicate NoCuts(n: nat, puts: nat -> WriteFault) {
    forall t: nat :: t < n ==> !puts(t).Cuts?
  }

  /** The tiers before the one that answered are backfilled. */
  function AfterGet(tiers: seq<Objects>, key: Name, faults: nat -> ReadFault, puts: nat -> WriteFault): seq<Objects> {
    var i := FirstServing(tiers, key, faults, 0);
    if GetAnswer(tiers, key, faults).Found? then Copied(tiers, key, tiers[i][key], i, puts) else tiers
  }

  function AfterPut(tiers: seq<Objects>, key: Name, data: Bytes, puts: nat -> WriteFault): seq<Objects> {
    Copied(tiers, key, data, |tiers|, puts)
  }

  function AfterDelete(tiers: seq<Objects>, key: Name, drops: nat -> DropFault): (r: seq<Objects>)
    ensures |r| == |tiers|
  {
    seq(|tiers|, j requires 0 <= j < |tiers| => if drops(j).Keeps? then tiers[j] else tiers[j] - {key})
  }

  /** The error a fan-out reports: the lowest tier whose call did not work. */
  ghost predicate IsFirstFailure(n: nat, works: nat -> bool, err: Option<nat>) {
    match err
    case None => forall j: nat :: j < n ==> works(j)
    case Some(i) => i < n && !works(i) && forall j: nat :: j < i ==> works(j)
  }

  function PutsWork(puts: nat -> WriteFault): nat -> bool {
    (j: nat) => puts(j).Writes?
  }

  function DropsWork(drops: nat -> DropFault): nat -> bool {
    (j: nat) => drops(j).Drops?
  }

  class Tiered {
    var tiers: seq<Objects>

    constructor (backends: seq<Objects>)
      ensures tiers == backends
    {
      tiers := backends;
    }

    method Get(key: Name, faults: nat -> ReadFault, puts: nat -> WriteFault) returns (r: GetResult)
      modifies this
      ensures r == GetAnswer(old(tiers), key, faults)
      ensures tiers == AfterGet(old(tiers), key, faults, puts)
    {
      var i: nat := 0;
      while i < |tiers|
        invariant i <= |tiers| && tiers == old(tiers)
        invariant FirstServing(tiers, key, faults, 0) == FirstServing(tiers, key, faults, i)
      {
        if key !in tiers[i] || faults(i).OpenFails? {
          i := i + 1;
          continue;
        }
        if i == 0 {
          assert AfterGet(tiers, key, faults, puts) == tiers;
          if faults(0).ReadFails? {
            return Partial(FirstBytes(tiers[0][key], faults(0).after));
          }
          return Found(tiers[0][key]);
        }
        if faults(i).ReadFails? {
          return ReadError(i);
        }
        var data := tiers[i][key];
        var j: nat := 0;
        while j < i
          invariant j <= i < |tiers| == |old(tiers)|
          invariant forall t: nat :: t < |tiers| ==>
            tiers[t] == if t < j then TierAfterWrite(old(tiers)[t], key, data, puts(t)) else old(tiers)[t]
        {
          if !puts(j).Refuses? {
            tiers := tiers[j := tiers[j][key := BytesTaken(data, puts(j)).value]];
          }
          j := j + 1;
        }
        return Found(data);
      }
      return NotFound;
    }

    method Put(key: Name, data: Bytes, puts: nat -> WriteFault) returns (err: Option<nat>)
      modifies this
      ensures tiers == AfterPut(old(tiers), key, data, puts)
      ensures IsFirstFailure(|tiers|, PutsWork(puts), err)
    {
      err := None;
      var j: nat := 0;
      while j < |tiers|
        invariant j <= |tiers| == |old(tiers)|
        invariant IsFirstFailure(j, PutsWork(puts), err)
        invariant forall t: nat :: t < |tiers| ==>
          tiers[t] == if t < j then TierAfterWrite(old(tiers)[t], key, data, puts(t)) else old(tiers)[t]
      {
        if !puts(j).Refuses? {
          tiers := tiers[j := tiers[j][key := BytesTaken(data, puts(j)).value]];
        }
        if !puts(j).Writes? && err.None? {
          err := Some(j);
        }
        j := j + 1;
      }
    }

    method Delete(key: Name, drops: nat -> DropFault) returns (err: Option<nat>)
      modifies this
      ensures tiers == AfterDelete(old(tiers), key, drops)
      ensures IsFirstFailure(|tiers|, DropsWork(drops), err)
    {
      err := None;
      var j: nat := 0;
      while j < |tiers|
        invariant j <= |tiers| == |old(tiers)|
        invariant IsFirstFailure(j, DropsWork(drops), err)
        invariant forall t: nat :: t < |tiers| ==>
          tiers[t] == if t < j && !drops(t).Keeps? then old(tiers)[t] - {key} else old(tiers)[t]
      {
        if !drops(j).Keeps? {
          tiers := tiers[j := tiers[j] - {key}];
        }
        if !drops(j).Drops? && err.None? {
          err := Some(j);
        }
        j := j + 1;
      }
    }

    /** A tier that fails for any reason other than a missing object ends the search. */
    method Size(key: Name, fails: nat -> bool) returns (r: SizeResult)
      ensures r == SizeAnswer(tiers, key, fails, 0)
    {
      var i: nat := 0;
      while i < |tiers|
        invariant i <= |tiers|
        invariant SizeAnswer(tiers, key, fails, 0) == SizeAnswer(tiers, key, fails, i)
      {
        if fails(i) {
          return SizeError(i);
        }
        if key in tiers[i] {
          return Sized(|tiers[i][key]|);
        }
        i := i + 1;
      }
      return Missing;
    }

    method Exists(key: Name, fails: nat -> bool) returns (r: bool)
      ensures r <==> exists i: nat :: i < |tiers| && !fails(i) && key in tiers[i]
    {
      var i: nat := 0;
      while i < |tiers|
        invariant i <= |tiers|
        invariant forall j: nat :: j < i ==> fails(j) || key !in tiers[j]
      {
        if !fails(i) && key in tiers[i] {
          return true;
        }
        i := i + 1;
      }
      return false;
    }

    method List(prefix: string, fails: nat -> bool) returns (result: seq<Name>)
      ensures Distinct(result)
      ensures forall k :: k in result <==>
                HasPrefix(RenderName(k), prefix) && exists i: nat :: i < |tiers| && !fails(i) && k in tiers[i]
    {
      var seen: set<Name> := {};
      result := [];
      var i: nat := 0;
      while i < |tiers|
        invariant i <= |tiers|
        invariant Distinct(result) && Elements(result) == seen
        invariant forall k :: k in seen <==>
          HasPrefix(RenderName(k), prefix) && exists j: nat :: j < i && !fails(j) && k in tiers[j]
      {
        if !fails(i) {
          var keys := Enumerate(set k | k in tiers[i] && HasPrefix(RenderName(k), prefix));
          ghost var before := seen;
          for n := 0 to |keys|
            invariant Distinct(result) && Elements(result) == seen
            invariant seen == before + Elements(keys[..n])
          {
            ElementsAppend(keys[..n], keys[n]);
            assert keys[..n + 1] == keys[..n] + [keys[n]];
            if keys[n] !in seen {
              ElementsAppend(result, keys[n]);
              assert keys[n] !in Elements(result);
              seen := seen + {keys[n]};
              result := result + [keys[n]];
            }
          }
          assert keys[..|keys|] == keys;
          assert forall k :: k in Elements(keys) <==> k in tiers[i] && HasPrefix(RenderName(k), prefix);
        }
        i := i + 1;
      }
      assert forall k :: k in result <==> k in Elements(result);
    }
  }

  // ---- one map ----

  const NO_READ_FAULT: nat -> ReadFault := _ => Reads

  const NO_FAULT: nat -> bool := _ => false

  const NO_WRITE_FAULT: nat -> WriteFault := _ => Writes

  const NO_DROP_FAULT: nat -> DropFault := _ => Drops

  lemma {:induction false} ViewIsFirst(tiers: seq<Objects>, i: nat, key: Name)
    requires i < |tiers| && key in tiers[i]
    requires forall j: nat :: j < i ==> key !in tiers[j]
    ensures key in View(tiers) && View(tiers)[key] == tiers[i][key]
  {
    if i > 0 {
      assert forall j: nat :: j < i - 1 ==> tiers[1..][j] == tiers[j + 1];
      ViewIsFirst(tiers[1..], i - 1, key);
    }
  }

  lemma {:induction false} ViewMisses(tiers: seq<Objects>, key: Name)
    ensures key in View(tiers) <==> exists i: nat :: i < |tiers| && key in tiers[i]
  {
    if tiers != [] {
      ViewMisses(tiers[1..], key);
      if i: nat :| i < |tiers| && key in tiers[i] {
        if i > 0 { assert key in tiers[1..][i - 1]; }
      }
      if i: nat :| i < |tiers| - 1 && key in tiers[1..][i] {
        assert key in tiers[i + 1];
      }
    }
  }

  /** The view answers with the first holder, if there is one. */
  lemma ViewByFirst(tiers: seq<Objects>, key: Name)
    ensures var i := FirstServing(tiers, key, NO_READ_FAULT, 0);
            if i < |tiers| then key in View(tiers) && View(tiers)[key] == tiers[i][key] else key !in View(tiers)
  {
    var i := FirstServing(tiers, key, NO_READ_FAULT, 0);
    if i < |tiers| {
      ViewIsFirst(tiers, i, key);
    } else {
      ViewMisses(tiers, key);
    }
  }

  /** Two views answer alike for one name. */
  predicate SameAnswer(a: Objects, b: Objects, key: Name) {
    (key in a <==> key in b) && (key in a ==> a[key] == b[key])
  }

  lemma SameMap(a: Objects, b: Objects)
    requires forall key :: SameAnswer(a, b, key)
    ensures a == b
  {
    forall key
      ensures (key in a <==> key in b) && (key in a ==> a[key] == b[key])
    {
      assert SameAnswer(a, b, key);
    }
  }

  /** Every pair of tiers that both hold a name hold the same bytes for it. */
  predicate AgreeOn(tiers: seq<Objects>, key: Name) {
    forall i, j :: 0 <= i < j < |tiers| && key in tiers[i] && key in tiers[j] ==> tiers[i][key] == tiers[j][key]
  }

  ghost predicate Agree(tiers: seq<Objects>) {
    forall key :: AgreeOn(tiers, key)
  }

  lemma {:induction false} AgreedValue(tiers: seq<Objects>, i: nat, key: Name)
    requires i < |tiers| && key in tiers[i] && AgreeOn(tiers, key)
    ensures key in View(tiers) && View(tiers)[key] == tiers[i][key]
  {
    ViewMisses(tiers, key);
    var first := FirstServing(tiers, key, NO_READ_FAULT, 0);
    ViewIsFirst(tiers, first, key);
  }

  /** Fault-free reads: the answer is the map's, whatever the tiers disagree on. */
  lemma GetIsLookup(tiers: seq<Objects>, key: Name)
    ensures GetAnswer(tiers, key, NO_READ_FAULT) == if key in View(tiers) then Found(View(tiers)[key]) else NotFound
  {
    ViewByFirst(tiers, key);
  }

  /** Fault-free sizes: the size is that of the map's object. */
  lemma SizeIsLookup(tiers: seq<Objects>, key: Name)
    ensures SizeAnswer(tiers, key, NO_FAULT, 0) == if key in View(tiers) then Sized(|View(tiers)[key]|) else Missing
  {
    ViewByFirst(tiers, key);
    SizeByFirst(tiers, key, 0);
  }

  lemma {:induction false} SizeByFirst(tiers: seq<Objects>, key: Name, from: nat)
    requires from <= |tiers|
    ensures var i := FirstServing(tiers, key, NO_READ_FAULT, from);
            SizeAnswer(tiers, key, NO_FAULT, from) == if i < |tiers| then Sized(|tiers[i][key]|) else Missing
    decreases |tiers| - from
  {
    if from < |tiers| && key !in tiers[from] {
      SizeByFirst(tiers, key, from + 1);
    }
  }

  lemma CopyKeepsAnswer(tiers: seq<Objects>, key: Name, i: nat, puts: nat -> WriteFault, other: Name)
    requires i < |tiers| && key in tiers[i] && forall j: nat :: j < i ==> key !in tiers[j]
    requires FirstTakenWhole(i, |tiers[i][key]|, puts)
    ensures SameAnswer(View(tiers), View(Copied(tiers, key, tiers[i][key], i, puts)), other)
  {
    var after := Copied(tiers, key, tiers[i][key], i, puts);
    if other == key {
      ViewIsFirst(tiers, i, key);
      CopyAnswersWithCopy(tiers, key, i, puts);
    } else {
      forall t: nat | t < |tiers|
        ensures SameAnswer(tiers[t], after[t], other)
      {
      }
      SameTiersSameView(tiers, after, other);
    }
  }

  /** The first of the tiers before the i-th that takes anything takes `size` bytes. */
  predicate FirstTakenWhole(i: nat, size: nat, puts: nat -> WriteFault) {
    forall t: nat :: t < i && puts(t).Cuts? && (forall j: nat :: j < t ==> puts(j).Refuses?) ==> puts(t).taken >= size
  }

  /** Whether the copy or the original comes first, it holds the same bytes, exactly unless
      the first copy is cut. */
  lemma CopyAnswersWithCopy(tiers: seq<Objects>, key: Name, i: nat, puts: nat -> WriteFault)
    requires i < |tiers| && key in tiers[i] && forall j: nat :: j < i ==> key !in tiers[j]
    ensures var after := View(Copied(tiers, key, tiers[i][key], i, puts));
            key in after && (after[key] == tiers[i][key] <==> FirstTakenWhole(i, |tiers[i][key]|, puts))
  {
    var after := Copied(tiers, key, tiers[i][key], i, puts);
    var first := FirstHolder(after, key, i);
    assert forall j: nat :: j < first ==> puts(j).Refuses?;
    ViewIsFirst(after, first, key);
  }

  lemma FirstHolder(tiers: seq<Objects>, key: Name, i: nat) returns (first: nat)
    requires i < |tiers| && key in tiers[i]
    ensures first <= i && key in tiers[first] && forall j: nat :: j < first ==> key !in tiers[j]
  {
    first := 0;
    while key !in tiers[first]
      invariant first <= i && forall j: nat :: j < first ==> key !in tiers[j]
      decreases i - first
    {
      first := first + 1;
    }
  }

  /** Tiers that answer alike one by one answer alike together. */
  lemma {:induction false} SameTiersSameView(a: seq<Objects>, b: seq<Objects>, key: Name)
    requires |a| == |b| && forall t: nat :: t < |a| ==> SameAnswer(a[t], b[t], key)
    ensures SameAnswer(View(a), View(b), key)
    decreases |a|
  {
    if a != [] {
      forall t: nat | t < |a| - 1
        ensures SameAnswer(a[1..][t], b[1..][t], key)
      {
        assert SameAnswer(a[t + 1], b[t + 1], key);
      }
      SameTiersSameView(a[1..], b[1..], key);
      assert SameAnswer(a[0], b[0], key);
    }
  }

  /** Copying what the first holder has into earlier tiers changes no lookup, whichever
      tiers refuse the copy: exactly unless the first to take any of it cuts it short. */
  lemma BackfillKeepsViewIff(tiers: seq<Objects>, key: Name, puts: nat -> WriteFault)
    ensures var i := FirstServing(tiers, key, NO_READ_FAULT, 0);
            View(AfterGet(tiers, key, NO_READ_FAULT, puts)) == View(tiers) <==>
              (i < |tiers| ==> FirstTakenWhole(i, |tiers[i][key]|, puts))
  {
    var i := FirstServing(tiers, key, NO_READ_FAULT, 0);
    if i < |tiers| {
      ViewIsFirst(tiers, i, key);
      CopyAnswersWithCopy(tiers, key, i, puts);
      if FirstTakenWhole(i, |tiers[i][key]|, puts) {
        BackfillKeepsView(tiers, key, puts);
      }
    }
  }

  lemma BackfillKeepsView(tiers: seq<Objects>, key: Name, puts: nat -> WriteFault)
    requires var i := FirstServing(tiers, key, NO_READ_FAULT, 0);
             i < |tiers| ==> FirstTakenWhole(i, |tiers[i][key]|, puts)
    ensures View(AfterGet(tiers, key, NO_READ_FAULT, puts)) == View(tiers)
  {
    var after := AfterGet(tiers, key, NO_READ_FAULT, puts);
    var i := FirstServing(tiers, key, NO_READ_FAULT, 0);
    if i < |tiers| {
      forall other
        ensures SameAnswer(View(tiers), View(after), other)
      {
        CopyKeepsAnswer(tiers, key, i, puts, other);
      }
      SameMap(View(tiers), View(after));
    }
  }

  lemma PutIsUpdate(tiers: seq<Objects>, key: Name, data: Bytes)
    requires tiers != []
    ensures View(AfterPut(tiers, key, data, NO_WRITE_FAULT)) == View(tiers)[key := data]
  {
    var after := AfterPut(tiers, key, data, NO_WRITE_FAULT);
    var updated := View(tiers)[key := data];
    ViewIsFirst(after, 0, key);
    forall other
      ensures SameAnswer(View(after), updated, other)
    {
      if other != key {
        forall t: nat | t < |tiers|
          ensures SameAnswer(tiers[t], after[t], other)
        {
        }
        SameTiersSameView(tiers, after, other);
      }
    }
    SameMap(View(after), updated);
  }

  lemma {:induction false} DeleteIsRemoval(tiers: seq<Objects>, key: Name)
    ensures View(AfterDelete(tiers, key, NO_DROP_FAULT)) == View(tiers) - {key}
  {
    if tiers != [] {
      var after := AfterDelete(tiers, key, NO_DROP_FAULT);
      assert after[1..] == AfterDelete(tiers[1..], key, NO_DROP_FAULT);
      DeleteIsRemoval(tiers[1..], key);
    }
  }

  // ---- runs ----

  datatype Call = CGet(key: Name) | CPut(key: Name, data: Bytes) | CDelete(key: Name)
                | CExists(key: Name) | CSize(key: Name) | CList(prefix: string)

  datatype Reply = RData(r: GetResult) | RDone | RFlag(b: bool) | RSize(s: SizeResult) | RNames(names: set<Name>)

  /** A call on the tiers, every backend working. */
  function TierReply(tiers: seq<Objects>, call: Call): Reply {
    match call
    case CGet(key) => RData(GetAnswer(tiers, key, NO_READ_FAULT))
    case CPut(_, _) => RDone
    case CDelete(_) => RDone
    case CExists(key) => RFlag(FirstServing(tiers, key, NO_READ_FAULT, 0) < |tiers|)
    case CSize(key) => RSize(SizeAnswer(tiers, key, NO_FAULT, 0))
    case CList(prefix) => RNames(set t, k | t in tiers && k in t && HasPrefix(RenderName(k), prefix) :: k)
  }

  function TierAfter(tiers: seq<Objects>, call: Call): seq<Objects> {
    match call
    case CGet(key) => AfterGet(tiers, key, NO_READ_FAULT, NO_WRITE_FAULT)
    case CPut(key, data) => AfterPut(tiers, key, data, NO_WRITE_FAULT)
    case CDelete(key) => AfterDelete(tiers, key, NO_DROP_FAULT)
    case _ => tiers
  }

  /** The same call on one map. */
  function MapReply(m: Objects, call: Call): Reply {
    match call
    case CGet(key) => RData(if key in m then Found(m[key]) else NotFound)
    case CPut(_, _) => RDone
    case CDelete(_) => RDone
    case CExists(key) => RFlag(key in m)
    case CSize(key) => RSize(if key in m then Sized(|m[key]|) else Missing)
    case CList(prefix) => RNames(set k | k in m && HasPrefix(RenderName(k), prefix))
  }

  function MapAfter(m: Objects, call: Call): Objects {
    match call
    case CPut(key, data) => m[key := data]
    case CDelete(key) => m - {key}
    case _ => m
  }

  function TierReplies(tiers: seq<Objects>, calls: seq<Call>): seq<Reply>
    decreases |calls|
  {
    if calls == [] then [] else [TierReply(tiers, calls[0])] + TierReplies(TierAfter(tiers, calls[0]), calls[1..])
  }

  function MapReplies(m: Objects, calls: seq<Call>): seq<Reply>
    decreases |calls|
  {
    if calls == [] then [] else [MapReply(m, calls[0])] + MapReplies(MapAfter(m, calls[0]), calls[1..])
  }

  lemma OneCallIsMapCall(tiers: seq<Objects>, call: Call)
    requires tiers != []
    ensures TierReply(tiers, call) == MapReply(View(tiers), call)
    ensures TierAfter(tiers, call) != [] && View(TierAfter(tiers, call)) == MapAfter(View(tiers), call)
  {
    match call
    case CGet(key) => GetIsLookup(tiers, key); BackfillKeepsView(tiers, key, NO_WRITE_FAULT);
    case CPut(key, data) => PutIsUpdate(tiers, key, data);
    case CDelete(key) => DeleteIsRemoval(tiers, key);
    case CExists(key) => GetIsLookup(tiers, key);
    case CSize(key) => SizeIsLookup(tiers, key);
    case CList(prefix) =>
      forall k ensures k in View(tiers) <==> exists t :: t in tiers && k in t { ViewMisses(tiers, k); }
  }

  /** Tiered storage refines one map: every sequential run of calls with working
      backends gives the replies the map would give. */
  lemma {:induction false} TieredRefinesMap(tiers: seq<Objects>, calls: seq<Call>)
    requires tiers != []
    ensures TierReplies(tiers, calls) == MapReplies(View(tiers), calls)
    decreases |calls|
  {
    if calls != [] {
      OneCallIsMapCall(tiers, calls[0]);
      TieredRefinesMap(TierAfter(tiers, calls[0]), calls[1..]);
    }
  }

  /** With no tier at all a Put reports success and stores nothing, which is the only
      way the refinement fails. */
  lemma PutTakesEffectIff(tiers: seq<Objects>, key: Name, data: Bytes)
    ensures View(AfterPut(tiers, key, data, NO_WRITE_FAULT)) == View(tiers)[key := data] <==> tiers != []
  {
    if tiers != [] {
      PutIsUpdate(tiers, key, data);
    } else {
      assert key !in View(AfterPut(tiers, key, data, NO_WRITE_FAULT));
    }
  }

  // ---- faults ----

  /** A whole answer is the map's value, a broken one a prefix of it. */
  predicate IsRight(tiers: seq<Objects>, key: Name, r: GetResult) {
    (r.Found? || r.Partial? ==> key in View(tiers)) &&
    (r.Found? ==> r.data == View(tiers)[key]) && (r.Partial? ==> r.data <= View(tiers)[key])
  }

  /** Reads stay right under every pattern of failing reads exactly when the tiers
      holding the name agree on it. */
  lemma RightUnderFaultsIff(tiers: seq<Objects>, key: Name)
    ensures (forall faults :: IsRight(tiers, key, GetAnswer(tiers, key, faults))) <==> AgreeOn(tiers, key)
  {
    if AgreeOn(tiers, key) {
      forall faults
        ensures IsRight(tiers, key, GetAnswer(tiers, key, faults))
      {
        var i := FirstServing(tiers, key, faults, 0);
        if i < |tiers| { AgreedValue(tiers, i, key); }
      }
    } else {
      var first := FirstServing(tiers, key, NO_READ_FAULT, 0);
      ViewIsFirst(tiers, first, key);
      var other: nat :| other < |tiers| && key in tiers[other] && tiers[other][key] != tiers[first][key];
      var faults: nat -> ReadFault := (j: nat) => if j < other then OpenFails else Reads;
      assert FirstServing(tiers, key, faults, 0) == other;
      assert !IsRight(tiers, key, GetAnswer(tiers, key, faults));
    }
  }

  lemma CopyKeepsAgreement(tiers: seq<Objects>, key: Name, i: nat, puts: nat -> WriteFault, other: Name)
    requires i < |tiers| && key in tiers[i] && AgreeOn(tiers, key) && AgreeOn(tiers, other) && NoCuts(i, puts)
    ensures AgreeOn(Copied(tiers, key, tiers[i][key], i, puts), other)
  {
  }

  lemma AgreedCopyKeepsAnswer(tiers: seq<Objects>, key: Name, i: nat, puts: nat -> WriteFault, other: Name)
    requires i < |tiers| && key in tiers[i] && AgreeOn(tiers, key) && AgreeOn(tiers, other) && NoCuts(i, puts)
    ensures SameAnswer(View(tiers), View(Copied(tiers, key, tiers[i][key], i, puts)), other)
  {
    var after := Copied(tiers, key, tiers[i][key], i, puts);
    CopyKeepsAgreement(tiers, key, i, puts, other);
    ViewMisses(tiers, other);
    ViewMisses(after, other);
    if t: nat :| t < |tiers| && other in tiers[t] {
      AgreedValue(tiers, t, other);
      assert other in after[t] && after[t][other] == tiers[t][other];
      AgreedValue(after, t, other);
    } else {
      assert other != key;
      assert forall t: nat :: t < |after| ==> other !in after[t];
    }
  }

  /** A read under faults whose backfills are not cut keeps agreeing tiers agreeing and their
      map unchanged. */
  lemma FaultyGetKeepsAgreement(tiers: seq<Objects>, key: Name, faults: nat -> ReadFault, puts: nat -> WriteFault)
    requires Agree(tiers) && NoCuts(|tiers|, puts)
    ensures var after := AfterGet(tiers, key, faults, puts);
            Agree(after) && View(after) == View(tiers)
  {
    var after := AfterGet(tiers, key, faults, puts);
    var i := FirstServing(tiers, key, faults, 0);
    if GetAnswer(tiers, key, faults).Found? {
      forall other
        ensures AgreeOn(after, other) && SameAnswer(View(tiers), View(after), other)
      {
        assert AgreeOn(tiers, key) && AgreeOn(tiers, other);
        CopyKeepsAgreement(tiers, key, i, puts, other);
        AgreedCopyKeepsAnswer(tiers, key, i, puts, other);
      }
      SameMap(View(tiers), View(after));
    }
  }

  datatype FaultyCall = FGet(key: Name, faults: nat -> ReadFault, puts: nat -> WriteFault)
                      | FPut(key: Name, data: Bytes)
                      | FDelete(key: Name)

  function FaultyAfter(tiers: seq<Objects>, call: FaultyCall): (after: seq<Objects>)
    ensures |after| == |tiers|
  {
    match call
    case FGet(key, faults, puts) => AfterGet(tiers, key, faults, puts)
    case FPut(key, data) => AfterPut(tiers, key, data, NO_WRITE_FAULT)
    case FDelete(key) => AfterDelete(tiers, key, NO_DROP_FAULT)
  }

  function FaultyMapAfter(m: Objects, call: FaultyCall): Objects {
    match call
    case FGet(_, _, _) => m
    case FPut(key, data) => m[key := data]
    case FDelete(key) => m - {key}
  }

  function FaultyRun(tiers: seq<Objects>, calls: seq<FaultyCall>): seq<Objects>
    decreases |calls|
  {
    if calls == [] then tiers else FaultyRun(FaultyAfter(tiers, calls[0]), calls[1..])
  }

  function FaultyMapRun(m: Objects, calls: seq<FaultyCall>): Objects
    decreases |calls|
  {
    if calls == [] then m else FaultyMapRun(FaultyMapAfter(m, calls[0]), calls[1..])
  }

  /** Over any run of writes that succeed and reads that fail in any pattern, the next
      read gives the map's value, a prefix of it marked as broken off, or no value. */
  lemma {:induction false} NeverAnotherValue(
    tiers: seq<Objects>, calls: seq<FaultyCall>, key: Name, faults: nat -> ReadFault)
    requires tiers != [] && Agree(tiers)
    requires forall call <- calls :: call.FGet? ==> NoCuts(|tiers|, call.puts)
    ensures var m := FaultyMapRun(View(tiers), calls);
            var r := GetAnswer(FaultyRun(tiers, calls), key, faults);
            && (r.Found? || r.Partial? ==> key in m)
            && (r.Found? ==> r.data == m[key]) && (r.Partial? ==> r.data <= m[key])
    decreases |calls|
  {
    if calls == [] {
      assert AgreeOn(tiers, key);
      RightUnderFaultsIff(tiers, key);
      assert IsRight(tiers, key, GetAnswer(tiers, key, faults));
    } else {
      var after := FaultyAfter(tiers, calls[0]);
      assert calls[0] in calls;
      match calls[0] {
        case FGet(k, f, p) => FaultyGetKeepsAgreement(tiers, k, f, p);
        case FPut(k, data) =>
          PutIsUpdate(tiers, k, data);
          assert forall n :: AgreeOn(tiers, n) ==> AgreeOn(after, n);
        case FDelete(k) =>
          DeleteIsRemoval(tiers, k);
          assert forall n :: AgreeOn(tiers, n) ==> AgreeOn(after, n);
      }
      NeverAnotherValue(after, calls[1..], key, faults);
    }
  }
}
