/** Listing entries: the fast path asks the index, the slow path walks storage. */
module Listing {
  import opened Common
  import opened IndexTable
  import opened SqlLike
  import opened IndexObject
  import opened CacheSpec
  import opened CacheObject

  datatype ListEntry = ListEntry(key: string, verb: string, url: string, status: int, bodySize: int)

  /** `NotLocated` is the error for a key that could not be found or read, `Failed` that of
      the query or of the listing of storage. */
  datatype Listed = NotLocated | Failed | Listed(entries: seq<ListEntry>, truncated: bool)

  /** The match function of the slow path; letter case of the method does not matter there. */
  predicate UrlMethodMatch(f: ListFilter, meta: EntryMeta) {
    (f.verb != "" ==> EqualFold(meta.verb, f.verb)) &&
    (if f.url != "" then meta.url == f.url
     else f.urlPrefix != "" ==> HasPrefix(meta.url, f.urlPrefix))
  }

  function ListKeys(entries: seq<ListEntry>): seq<string> {
    Project(entries, (e: ListEntry) => e.key)
  }

  /** Capped at `limit` when it is positive. */
  function Shown(limit: nat, matches: nat): nat {
    if 0 < limit < matches then limit else matches
  }

  // ---- fast path ----

  function EntryOfRow(key: string, info: Info): ListEntry {
    ListEntry(key, info.verb, info.url, info.status, info.bodySize)
  }

  /** Entries with distinct keys, as many of the matching ones as the limit allows, with
      truncation reported exactly. */
  ghost predicate IsListing(matching: set<string>, limit: nat, r: Listed) {
    && r.Listed? && (r.truncated <==> limit > 0 && |matching| > limit)
    && Distinct(ListKeys(r.entries)) && |r.entries| == Shown(limit, |matching|)
    && forall e <- r.entries :: e.key in matching
  }

  /** What the fast path lists: rows as they are, last accessed first, and none left out
      that was accessed later than one shown. */
  ghost predicate IsFastListing(rows: Table, f: ListFilter, limit: nat, r: Listed) {
    && IsListing(Matching(rows, f), limit, r)
    && (forall e <- r.entries :: e.key in rows && e == EntryOfRow(e.key, rows[e.key].info))
    && (forall i, j :: 0 <= i < j < |r.entries| ==> AccessedNoEarlier(rows, r.entries[i].key, r.entries[j].key))
    && (forall i, k :: 0 <= i < |r.entries| && k in Matching(rows, f) && k !in ListKeys(r.entries) ==>
          AccessedNoEarlier(rows, r.entries[i].key, k))
  }

  predicate AccessedNoEarlier(rows: Table, a: string, b: string) {
    a in rows && b in rows && rows[a].lastAccessedAt >= rows[b].lastAccessedAt
  }

  /** One row more than the limit is asked for, so that truncation shows. */
  method FromIndex(index: Index, f: ListFilter, limit: nat, fails: bool) returns (r: Listed)
    ensures r.Failed? <==> fails
    ensures r.NotLocated? <==> !fails && f.key != "" && Matching(index.rows, f) == {}
    ensures r.Listed? ==> IsFastListing(index.rows, f, limit, r)
  {
    var answer := index.List(f, if limit > 0 then limit + 1 else 0, fails);
    if answer.None? {
      return Failed;
    }
    var rows := answer.value;
    if f.key != "" && |rows| == 0 {
      return NotLocated;
    }
    var truncated := false;
    ghost var keys := KeysOf(rows);
    if limit > 0 && |rows| > limit {
      rows := rows[..limit];
      truncated := true;
    }
    assert KeysOf(rows) == keys[..|rows|];
    var out := EntriesOf(rows);
    r := Listed(out, truncated);
    PrefixIsListed(index.rows, f, limit, answer.value, rows, r);
  }

  method EntriesOf(rows: seq<Entry>) returns (out: seq<ListEntry>)
    ensures |out| == |rows| && forall j :: 0 <= j < |rows| ==> out[j] == EntryOfRow(rows[j].key, rows[j].row.info)
  {
    out := [];
    for i := 0 to |rows|
      invariant |out| == i && forall j :: 0 <= j < i ==> out[j] == EntryOfRow(rows[j].key, rows[j].row.info)
    {
      out := out + [EntryOfRow(rows[i].key, rows[i].row.info)];
    }
  }

  lemma EntriesAreRows(table: Table, wanted: set<string>, rows: seq<Entry>, out: seq<ListEntry>)
    requires forall e <- rows :: e.key in wanted && e.key in table && e.row == table[e.key]
    requires |out| == |rows| && forall j :: 0 <= j < |rows| ==> out[j] == EntryOfRow(rows[j].key, rows[j].row.info)
    ensures ListKeys(out) == KeysOf(rows)
    ensures forall e <- out :: e.key in wanted && e.key in table && e == EntryOfRow(e.key, table[e.key].info)
  {
    forall e | e in out
      ensures e.key in wanted && e.key in table && e == EntryOfRow(e.key, table[e.key].info)
    {
      var j :| 0 <= j < |out| && out[j] == e;
      assert rows[j] in rows;
    }
  }

  /** The rows kept of an answer with one row to spare are the listing. */
  lemma PrefixIsListed(table: Table, f: ListFilter, limit: nat, answer: seq<Entry>, rows: seq<Entry>, r: Listed)
    requires IsSelection(answer, table, Matching(table, f), if limit > 0 then limit + 1 else 0, false)
    requires rows == (if limit > 0 && |answer| > limit then answer[..limit] else answer)
    requires r.Listed? && (r.truncated <==> limit > 0 && |answer| > limit)
    requires |r.entries| == |rows| && forall j :: 0 <= j < |rows| ==> r.entries[j] == EntryOfRow(rows[j].key, rows[j].row.info)
    ensures IsFastListing(table, f, limit, r)
  {
    assert KeysOf(rows) == KeysOf(answer)[..|rows|];
    assert forall e <- rows :: e in answer;
    EntriesAreRows(table, Matching(table, f), rows, r.entries);
    forall i, k | 0 <= i < |r.entries| && k in Matching(table, f) && k !in ListKeys(r.entries)
      ensures AccessedNoEarlier(table, r.entries[i].key, k)
    {
      LaterComeAfter(table, Matching(table, f), if limit > 0 then limit + 1 else 0, answer, |rows|, i, k);
    }
    forall i, j | 0 <= i < j < |r.entries|
      ensures AccessedNoEarlier(table, r.entries[i].key, r.entries[j].key)
    {
      assert rows[i] in rows && rows[j] in rows && answer[i] == rows[i] && answer[j] == rows[j];
    }
  }

  /** What is not among the first `n` rows of a selection was accessed no later than they. */
  lemma LaterComeAfter(table: Table, wanted: set<string>, limit: nat, answer: seq<Entry>, n: nat, i: nat, key: string)
    requires IsSelection(answer, table, wanted, limit, false) && i < n <= |answer|
    requires key in wanted && key in table && key !in KeysOf(answer)[..n]
    ensures AccessedNoEarlier(table, answer[i].key, key)
  {
    var keys := KeysOf(answer);
    assert answer[i] in answer;
    assert forall j :: 0 <= j < n ==> keys[j] in keys[..n];
    if key in keys {
      var j :| 0 <= j < |answer| && keys[j] == key;
      assert answer[j] in answer;
    }
  }

  // ---- slow path ----

  predicate WalkMatches(codec: Codec, objects: Objects, f: ListFilter, key: string) {
    IsReadableMeta(codec, objects, MetaName(key)) && UrlMethodMatch(f, codec.decode(objects[MetaName(key)]).value)
  }

  function WalkMatching(codec: Codec, objects: Objects, f: ListFilter): set<string> {
    set k | k in WalkedKeys(codec, objects) && WalkMatches(codec, objects, f, k)
  }

  /** What the walk shows of an entry: -1 stands for a body that could not be sized. */
  function EntryOfWalk(codec: Codec, objects: Objects, key: string): ListEntry
    requires IsReadableMeta(codec, objects, MetaName(key))
  {
    var meta := codec.decode(objects[MetaName(key)]).value;
    ListEntry(key, meta.verb, meta.url, meta.statusCode,
              if BodyName(key) in objects then |objects[BodyName(key)]| else -1)
  }

  /** The slow path, taken without an index. A key is looked up; anything else is walked
      for, and the walk stops at the first match past the limit. */
  method FromWalk(cache: Cache, f: ListFilter, limit: nat, faults: Faults, listFails: bool, unreadable: set<Name>)
    returns (r: Listed)
    requires cache.index == null
    ensures f.key != "" ==> r == LocatedByKey(cache.codec, cache.storage.objects, f.key, faults)
    ensures f.key == "" ==> (r.Failed? <==> listFails) && !r.NotLocated?
    ensures f.key == "" && !listFails ==>
              IsSlowListing(cache.codec, cache.storage.objects - unreadable, f, limit, r)
  {
    if f.key != "" {
      var found := cache.Get(f.key, 0, faults);
      if !found.Hit? || faults.sizeBody {
        return NotLocated;
      }
      var size := |cache.storage.objects[BodyName(f.key)]|;
      return Listed([ListEntry(f.key, found.meta.verb, found.meta.url, found.meta.statusCode, size)], false);
    }
    var visits := cache.Walk(listFails, unreadable);
    if visits.None? {
      return Failed;
    }
    var visible := cache.storage.objects - unreadable;
    r := Scan(cache.codec, visible, visits.value, f, limit, WalkMatching(cache.codec, visible, f));
    ScanIsListing(cache.codec, visible, f, limit, r);
  }

  /** What the slow path lists, in the order of the walk. */
  ghost predicate IsSlowListing(codec: Codec, objects: Objects, f: ListFilter, limit: nat, r: Listed) {
    && IsListing(WalkMatching(codec, objects, f), limit, r)
    && forall e <- r.entries :: WalkMatches(codec, objects, f, e.key) && e == EntryOfWalk(codec, objects, e.key)
  }

  lemma ScanIsListing(codec: Codec, objects: Objects, f: ListFilter, limit: nat, r: Listed)
    requires IsScan(codec, objects, f, limit, WalkMatching(codec, objects, f), r)
    ensures IsSlowListing(codec, objects, f, limit, r)
  {
    forall e | e in r.entries
      ensures e.key in WalkMatching(codec, objects, f)
    {
      WalkedIff(codec, objects, e.key);
    }
  }

  /** The body is asked for its size and not read. */
  function LocatedByKey(codec: Codec, objects: Objects, key: string, f: Faults): Listed {
    match Lookup(codec, objects, key, f)
    case Hit(meta, _) =>
      if f.sizeBody then NotLocated
      else Listed([ListEntry(key, meta.verb, meta.url, meta.statusCode, SizeOrZero(objects, key))], false)
    case _ => NotLocated
  }

  /** The entries listed so far are matches, each once; `met` is the set of their keys. */
  ghost predicate Collected(codec: Codec, objects: Objects, f: ListFilter, out: seq<ListEntry>, met: set<string>) {
    && Distinct(ListKeys(out)) && Elements(ListKeys(out)) == met && |met| == |out|
    && forall e <- out :: WalkMatches(codec, objects, f, e.key) && e == EntryOfWalk(codec, objects, e.key)
  }

  lemma CollectOneMore(codec: Codec, objects: Objects, f: ListFilter, out: seq<ListEntry>, met: set<string>, key: string)
    requires Collected(codec, objects, f, out, met)
    requires WalkMatches(codec, objects, f, key) && key !in met
    ensures Collected(codec, objects, f, out + [EntryOfWalk(codec, objects, key)], met + {key})
  {
    var e := EntryOfWalk(codec, objects, key);
    var keys, longer := ListKeys(out), ListKeys(out + [e]);
    assert longer == keys + [key];
    ElementsAppend(keys, key);
    assert key !in keys by { assert key !in Elements(keys); }
  }

  /** The matches among the keys visited before the i-th. */
  ghost function MetBefore(visits: seq<Visit>, i: nat, matching: set<string>): set<string>
    requires i <= |visits|
  {
    Elements(VisitedKeys(visits)[..i]) * matching
  }

  lemma NoneOrAllMet(codec: Codec, objects: Objects, visits: seq<Visit>, f: ListFilter)
    requires IsWalk(codec, objects, visits)
    ensures MetBefore(visits, 0, WalkMatching(codec, objects, f)) == {}
    ensures MetBefore(visits, |visits|, WalkMatching(codec, objects, f)) == WalkMatching(codec, objects, f)
  {
    WholePrefix(VisitedKeys(visits));
  }

  /** One more visit: a match is a key not met before. */
  lemma MeetOneMore(codec: Codec, objects: Objects, visits: seq<Visit>, i: nat, f: ListFilter)
    requires IsWalk(codec, objects, visits) && i < |visits|
    ensures var matching, v := WalkMatching(codec, objects, f), visits[i];
            var met, met' := MetBefore(visits, i, matching), MetBefore(visits, i + 1, matching);
            && IsReadableMeta(codec, objects, MetaName(v.key)) && codec.decode(objects[MetaName(v.key)]) == Some(v.meta)
            && if UrlMethodMatch(f, v.meta)
               then WalkMatches(codec, objects, f, v.key) && v.key !in met && met' == met + {v.key} && |met| < |matching|
               else met' == met
  {
    var keys, matching := VisitedKeys(visits), WalkMatching(codec, objects, f);
    PrefixStep(keys, i);
    assert visits[i] in visits;
    WalkedIff(codec, objects, visits[i].key);
    if UrlMethodMatch(f, visits[i].meta) {
      ProperlySmaller(MetBefore(visits, i, matching), matching, visits[i].key);
    }
  }

  /** Distinct matches, as many as the limit allows, with truncation reported exactly. */
  ghost predicate IsScan(codec: Codec, objects: Objects, f: ListFilter, limit: nat, matching: set<string>, r: Listed) {
    && r.Listed? && (r.truncated <==> limit > 0 && |matching| > limit)
    && |r.entries| == Shown(limit, |matching|)
    && Collected(codec, objects, f, r.entries, Elements(ListKeys(r.entries)))
  }

  method Scan(codec: Codec, objects: Objects, visits: seq<Visit>, f: ListFilter, limit: nat, ghost matching: set<string>)
    returns (r: Listed)
    requires IsWalk(codec, objects, visits) && matching == WalkMatching(codec, objects, f)
    ensures IsScan(codec, objects, f, limit, matching, r)
  {
    var out: seq<ListEntry> := [];
    NoneOrAllMet(codec, objects, visits, f);
    for i := 0 to |visits|
      invariant Collected(codec, objects, f, out, MetBefore(visits, i, matching))
      invariant limit > 0 ==> |out| <= limit
    {
      var stop;
      out, stop := Consider(codec, objects, visits, i, f, limit, out, matching);
      if stop {
        return Listed(out, true);
      }
    }
    r := Listed(out, false);
  }

  /** The callback of the walk: it asks to stop at a match for which there is no room. */
  method Consider(codec: Codec, objects: Objects, visits: seq<Visit>, i: nat, f: ListFilter, limit: nat, out: seq<ListEntry>,
                  ghost matching: set<string>)
    returns (longer: seq<ListEntry>, stop: bool)
    requires IsWalk(codec, objects, visits) && i < |visits| && matching == WalkMatching(codec, objects, f)
    requires Collected(codec, objects, f, out, MetBefore(visits, i, matching)) && (limit > 0 ==> |out| <= limit)
    ensures stop ==> IsScan(codec, objects, f, limit, matching, Listed(longer, true))
    ensures !stop ==> Collected(codec, objects, f, longer, MetBefore(visits, i + 1, matching)) && (limit > 0 ==> |longer| <= limit)
  {
    var v := visits[i];
    ghost var met := MetBefore(visits, i, matching);
    MeetOneMore(codec, objects, visits, i, f);
    if !UrlMethodMatch(f, v.meta) {
      return out, false;
    }
    if limit > 0 && |out| >= limit {
      return out, true;
    }
    CollectOneMore(codec, objects, f, out, met, v.key);
    var size := if BodyName(v.key) in objects then |objects[BodyName(v.key)]| else -1;
    return out + [ListEntry(v.key, v.meta.verb, v.meta.url, v.meta.statusCode, size)], false;
  }

  // ---- the two agree ----

  lemma RowFromStorage(codec: Codec, objects: Objects, rows: Table, key: string)
    requires IndexAgrees(codec, objects, rows)
    ensures key in rows <==> IsReadableMeta(codec, objects, MetaName(key))
    ensures key in rows ==>
              var meta := codec.decode(objects[MetaName(key)]).value;
              rows[key].info.url == meta.url && rows[key].info.verb == meta.verb
  {
    WalkedIff(codec, objects, key);
  }

  /** Nothing the walk would list by URL prefix is missed by the index query, whatever
      wildcard characters the prefix contains. */
  lemma IndexCoversWalk(codec: Codec, objects: Objects, rows: Table, f: ListFilter)
    requires IndexAgrees(codec, objects, rows)
    requires f.key == "" && f.verb == ""
    ensures WalkMatching(codec, objects, f) <= Matching(rows, f)
  {
    forall k | k in WalkMatching(codec, objects, f)
      ensures k in Matching(rows, f)
    {
      RowFromStorage(codec, objects, rows, k);
      if f.url == "" && f.urlPrefix != "" {
        LikeCoversPrefix(f.urlPrefix, rows[k].info.url);
      }
    }
  }

  /** The URL is wanted, letter by letter. */
  predicate UrlWanted(f: ListFilter, url: string) {
    if f.url != "" then url == f.url else HasPrefix(url, f.urlPrefix)
  }

  /** The index query catches an entry that differs from the prefix in letter case, or
      misses one that differs from the method filter in letter case. */
  predicate CaseDiffers(f: ListFilter, info: Info) {
    || (f.url == "" && PrefixUpToCase(f.urlPrefix, info.url) && !HasPrefix(info.url, f.urlPrefix) &&
        (f.verb != "" ==> info.verb == f.verb))
    || (UrlWanted(f, info.url) && f.verb != "" && info.verb != f.verb && EqualFold(info.verb, f.verb))
  }

  /** Asked for a URL, a prefix without wildcards, or everything, with a method or without,
      the two paths find the same entries exactly when letter case never separates them. */
  lemma ListingsCoincideIff(codec: Codec, objects: Objects, rows: Table, f: ListFilter)
    requires IndexAgrees(codec, objects, rows)
    requires f.key == "" && (f.url != "" || IsPlain(f.urlPrefix))
    ensures WalkMatching(codec, objects, f) == Matching(rows, f) <==> forall k <- rows :: !CaseDiffers(f, rows[k].info)
  {
    forall k
      ensures k in rows ==> ((k in WalkMatching(codec, objects, f) <==> k in Matching(rows, f))
                             <==> !CaseDiffers(f, rows[k].info))
      ensures k in WalkMatching(codec, objects, f) || k in Matching(rows, f) ==> k in rows
    {
      RowFromStorage(codec, objects, rows, k);
      if k in rows {
        if f.url == "" {
          PlainLikeIff(f.urlPrefix, rows[k].info.url);
          PrefixIsPrefixUpToCase(f.urlPrefix, rows[k].info.url);
        }
        WalkedIff(codec, objects, k);
      }
    }
  }

  lemma PrefixIsPrefixUpToCase(prefix: string, s: string)
    ensures HasPrefix(s, prefix) ==> PrefixUpToCase(prefix, s)
  {
    if HasPrefix(s, prefix) {
      assert s[..|prefix|] == prefix;
    }
  }

  /** When they coincide, the two paths report truncation together, show equally many
      entries, and without truncation show the same ones. */
  lemma SameListing(codec: Codec, objects: Objects, rows: Table, f: ListFilter, limit: nat,
                    fast: Listed, slow: Listed)
    requires RowsDescribe(codec, objects, rows) && IndexAgrees(codec, objects, rows)
    requires WalkMatching(codec, objects, f) == Matching(rows, f)
    requires IsFastListing(rows, f, limit, fast) && IsSlowListing(codec, objects, f, limit, slow)
    ensures fast.truncated <==> slow.truncated
    ensures |fast.entries| == |slow.entries|
    ensures !fast.truncated ==> Elements(fast.entries) == Elements(slow.entries)
  {
    if !fast.truncated {
      ListsAll(fast.entries, Matching(rows, f));
      ListsAll(slow.entries, WalkMatching(codec, objects, f));
      forall e
        ensures e in fast.entries <==> e in slow.entries
      {
        if e in fast.entries {
          var o :| o in slow.entries && o.key == e.key;
          assert Describes(codec, objects, e.key, rows[e.key]);
        }
        if e in slow.entries {
          var o :| o in fast.entries && o.key == e.key;
          assert Describes(codec, objects, e.key, rows[e.key]);
        }
      }
    }
  }

  /** Asked for one key, the two paths give the same answer while storage and table match
      entry by entry. */
  lemma KeyListingsCoincide(codec: Codec, objects: Objects, rows: Table, f: ListFilter, limit: nat, fast: Listed)
    requires RowsDescribe(codec, objects, rows) && NamesKnown(objects, rows)
    requires f.key != "" && f.verb == ""
    requires !fast.Failed? && (fast.NotLocated? <==> Matching(rows, f) == {})
    requires fast.Listed? ==> IsFastListing(rows, f, limit, fast)
    ensures fast == LocatedByKey(codec, objects, f.key, NO_FAULTS)
  {
    if f.key in rows {
      assert Describes(codec, objects, f.key, rows[f.key]);
      assert f.key in Matching(rows, f);
      assert Matching(rows, f) == {f.key};
      assert fast.entries == [fast.entries[0]] && fast.entries[0] in fast.entries;
    } else {
      assert MetaName(f.key) !in objects;
      assert Matching(rows, f) == {};
    }
  }

  /** As many distinct keys as there are to list means every one is listed. */
  lemma ListsAll(entries: seq<ListEntry>, wanted: set<string>)
    requires Distinct(ListKeys(entries)) && |entries| == |wanted|
    requires forall e <- entries :: e.key in wanted
    ensures forall k <- wanted :: exists e <- entries :: e.key == k
  {
    var keys := ListKeys(entries);
    DistinctCount(keys);
    forall k | k in Elements(keys)
      ensures k in wanted && exists e <- entries :: e.key == k
    {
      var i :| 0 <= i < |keys| && keys[i] == k;
      assert entries[i] in entries;
    }
    SubsetOfSameSize(Elements(keys), wanted);
  }
}
