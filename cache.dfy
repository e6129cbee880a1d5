/**
 * The per-label data cache of `tStatNBS` (`cacheData`) and the row lookup of `tTestGroups`.
 * Every subject's flattened data for a label becomes one row of a matrix whose width is
 * that of the first subject; `subjectIndex` maps a subject id to its row.
 */
module SubjectCache {
  import opened Wrappers
  import opened Labels

  type SubjectId = int

  /** A subject: its id and its data per label, already flattened. */
  datatype Subject = Subject(subjectId: SubjectId, data: map<Label, seq<real>>)

  /** `DataCacheItem`: subject id to row position, and the rows. */
  datatype CacheItem = CacheItem(subjectIndex: map<SubjectId, nat>, rows: seq<seq<real>>)

  /** The exceptions the cache and its lookups raise. */
  datatype CacheError =
    | MissingLabel(missing: Label, position: nat)          // `sub.data[parm.label]`: KeyError
    | ShapeMismatch(position: nat, width: nat, length: nat) // `dci.data[idx] = data`: ValueError
    | UnknownLabel(uncached: Label)                        // `self.subDataByLabel[...]`: KeyError
    | UnknownSubject(subjectId: SubjectId)                // `dataCache.subjectIndex[...]`: KeyError
    | NoRows(empty: Label)                                 // `dataCache.data[grp1]` with `data` None: TypeError

  /**
   * numpy's row assignment into a row of width `w`: data of length `w` is copied, data of
   * length 1 is repeated across the row, any other length cannot be broadcast.
   */
  function Broadcast(data: seq<real>, w: nat): (r: Option<seq<real>>)
    ensures r.Some? <==> |data| == w || |data| == 1
    ensures r.Some? ==> |r.value| == w
    ensures r.Some? && |data| == w ==> r.value == data
    ensures r.Some? && |data| != w ==> forall k :: 0 <= k < w ==> r.value[k] == data[0]
  {
    if |data| == w then Some(data)
    else if |data| == 1 then Some(seq(w, _ => data[0]))
    else None
  }

  /** The row width: the length of the first subject's data (line 233). */
  function Width(subs: seq<Subject>, key: Label): nat
  {
    if subs != [] && key in subs[0].data then |subs[0].data[key]| else 0
  }

  /** Lines 228-236: the rows of the subjects in order, or the first subject that raises. */
  function Rows(subs: seq<Subject>, key: Label, w: nat): Result<seq<seq<real>>, CacheError>
  {
    if subs == [] then Success([])
    else
      var n := |subs| - 1;
      match Rows(subs[..n], key, w)
      case Failure(e) => Failure(e)
      case Success(rows) =>
        if key !in subs[n].data then Failure(MissingLabel(key, n))
        else match Broadcast(subs[n].data[key], w)
          case None => Failure(ShapeMismatch(n, w, |subs[n].data[key]|))
          case Some(row) => Success(rows + [row])
  }

  /** Line 235: each subject id maps to its position; a later subject with the same id wins. */
  function Index(subs: seq<Subject>): map<SubjectId, nat>
  {
    if subs == [] then map[]
    else
      var n := |subs| - 1;
      Index(subs[..n])[subs[n].subjectId := n]
  }

  /** The cache item `cacheData` builds for one label. */
  function BuildItem(subs: seq<Subject>, key: Label): Result<CacheItem, CacheError>
  {
    match Rows(subs, key, Width(subs, key))
    case Failure(e) => Failure(e)
    case Success(rows) => Success(CacheItem(Index(subs), rows))
  }

  /** Every subject has the label and its data has the row width or length 1. */
  ghost predicate Fits(subs: seq<Subject>, key: Label, w: nat)
  {
    forall i :: 0 <= i < |subs| ==>
      key in subs[i].data && (|subs[i].data[key]| == w || |subs[i].data[key]| == 1)
  }

  /** The rows succeed exactly when every subject fits, and then hold each subject's broadcast data. */
  lemma {:induction false} RowsCharacterized(subs: seq<Subject>, key: Label, w: nat)
    ensures Rows(subs, key, w).Success? <==> Fits(subs, key, w)
    ensures Rows(subs, key, w).Success? ==>
      var rows := Rows(subs, key, w).value;
      && |rows| == |subs|
      && forall i :: 0 <= i < |subs| ==>
           Broadcast(subs[i].data[key], w) == Some(rows[i]) && |rows[i]| == w
  {
    if subs != [] {
      var n := |subs| - 1;
      RowsCharacterized(subs[..n], key, w);
      assert forall i :: 0 <= i < n ==> subs[..n][i] == subs[i];
      if Rows(subs[..n], key, w).Failure? {
        assert !Fits(subs[..n], key, w);
        var i :| 0 <= i < n && !(key in subs[..n][i].data &&
          (|subs[..n][i].data[key]| == w || |subs[..n][i].data[key]| == 1));
        assert subs[..n][i] == subs[i];
      }
    }
  }

  /** The first failing subject is the one reported. */
  lemma {:induction false} RowsReportFirstFailure(subs: seq<Subject>, key: Label, w: nat)
    requires Rows(subs, key, w).Failure?
    ensures var e := Rows(subs, key, w).error;
      (e.MissingLabel? || e.ShapeMismatch?) && e.position < |subs| && Fits(subs[..e.position], key, w)
      && (e.MissingLabel? <==> key !in subs[e.position].data)
      && (e.ShapeMismatch? ==> e.length == |subs[e.position].data[key]| && e.length != w && e.length != 1)
  {
    var n := |subs| - 1;
    assert forall i :: 0 <= i < n ==> subs[..n][i] == subs[i];
    if Rows(subs[..n], key, w).Failure? {
      RowsReportFirstFailure(subs[..n], key, w);
      var p := Rows(subs, key, w).error.position;
      assert subs[..n][..p] == subs[..p];
    } else {
      RowsCharacterized(subs[..n], key, w);
      assert subs[..n] == subs[..|subs| - 1];
    }
  }

  /** An id is indexed exactly when a subject has it, and it points at the LAST such subject. */
  lemma {:induction false} IndexIsLastOccurrence(subs: seq<Subject>)
    ensures forall id :: id in Index(subs) <==> exists i :: 0 <= i < |subs| && subs[i].subjectId == id
    ensures forall id :: id in Index(subs) ==>
      var i := Index(subs)[id];
      && i < |subs| && subs[i].subjectId == id
      && forall j :: i < j < |subs| ==> subs[j].subjectId != id
  {
    if subs != [] {
      var n := |subs| - 1;
      var prefix := subs[..n];
      IndexIsLastOccurrence(prefix);
      var idx := Index(subs);
      assert idx == Index(prefix)[subs[n].subjectId := n];
      forall id
        ensures id in idx <==> exists i :: 0 <= i < |subs| && subs[i].subjectId == id
      {
        if id in idx && id != subs[n].subjectId {
          var i :| 0 <= i < n && prefix[i].subjectId == id;
          assert subs[i].subjectId == id;
        }
        if exists i :: 0 <= i < |subs| && subs[i].subjectId == id {
          var i :| 0 <= i < |subs| && subs[i].subjectId == id;
          if i < n {
            assert prefix[i].subjectId == id;
          }
        }
      }
      forall id | id in idx
        ensures idx[id] < |subs| && subs[idx[id]].subjectId == id
        ensures forall j :: idx[id] < j < |subs| ==> subs[j].subjectId != id
      {
        if id != subs[n].subjectId {
          var i := Index(prefix)[id];
          assert subs[i] == prefix[i];
          forall j | i < j < |subs|
            ensures subs[j].subjectId != id
          {
            if j < n {
              assert subs[j] == prefix[j];
            }
          }
        }
      }
    }
  }

  /** Ids that no two subjects share. */
  predicate UniqueIds(subs: seq<Subject>)
  {
    forall i, j :: 0 <= i < j < |subs| ==> subs[i].subjectId != subs[j].subjectId
  }

  /** With unique ids every subject's id points at its own position. */
  lemma UniqueIndex(subs: seq<Subject>, i: nat)
    requires UniqueIds(subs)
    requires i < |subs|
    ensures subs[i].subjectId in Index(subs) && Index(subs)[subs[i].subjectId] == i
  {
    IndexIsLastOccurrence(subs);
  }

  /** Every indexed position names a row. */
  predicate Indexed(item: CacheItem)
  {
    forall id :: id in item.subjectIndex ==> item.subjectIndex[id] < |item.rows|
  }

  /** A built item has one row per subject, and every index entry names one of them. */
  lemma BuildItemIndexed(subs: seq<Subject>, key: Label)
    requires BuildItem(subs, key).Success?
    ensures |BuildItem(subs, key).value.rows| == |subs|
    ensures Indexed(BuildItem(subs, key).value)
  {
    IndexIsLastOccurrence(subs);
    RowsCharacterized(subs, key, Width(subs, key));
  }

  /** `cacheData`'s inner loop for one label, proved against `BuildItem`. */
  method BuildCacheItem(subs: seq<Subject>, key: Label) returns (r: Result<CacheItem, CacheError>)
    ensures r == BuildItem(subs, key)
  {
    var w := Width(subs, key);
    var index: map<SubjectId, nat> := map[];
    var rows: seq<seq<real>> := [];
    var idx := 0;
    while idx < |subs|
      invariant 0 <= idx <= |subs|
      invariant index == Index(subs[..idx])
      invariant Rows(subs[..idx], key, w) == Success(rows)
    {
      assert subs[..idx + 1][..idx] == subs[..idx];
      var sub := subs[idx];
      if key !in sub.data {
        RowsFailurePersists(subs, key, w, idx + 1);
        return Failure(MissingLabel(key, idx));
      }
      var data := sub.data[key];
      index := index[sub.subjectId := idx];
      match Broadcast(data, w)
      case None =>
        RowsFailurePersists(subs, key, w, idx + 1);
        return Failure(ShapeMismatch(idx, w, |data|));
      case Some(row) =>
        rows := rows + [row];
      idx := idx + 1;
    }
    assert subs[..idx] == subs;
    return Success(CacheItem(index, rows));
  }

  /** A failure on a prefix is the failure of the whole list. */
  lemma {:induction false} RowsFailurePersists(subs: seq<Subject>, key: Label, w: nat, k: nat)
    requires k <= |subs|
    requires Rows(subs[..k], key, w).Failure?
    ensures Rows(subs, key, w) == Rows(subs[..k], key, w)
    decreases |subs| - k
  {
    if k < |subs| {
      assert subs[..k + 1][..k] == subs[..k];
      RowsFailurePersists(subs, key, w, k + 1);
    } else {
      assert subs[..k] == subs;
    }
  }

  /** Lines 260-267: the row position of each subject of a group, or the first unknown id. */
  function Lookup(index: map<SubjectId, nat>, group: seq<Subject>): Result<seq<nat>, CacheError>
  {
    if group == [] then Success([])
    else
      var n := |group| - 1;
      match Lookup(index, group[..n])
      case Failure(e) => Failure(e)
      case Success(idxs) =>
        if group[n].subjectId in index then Success(idxs + [index[group[n].subjectId]])
        else Failure(UnknownSubject(group[n].subjectId))
  }

  /** The lookup succeeds exactly when every id is indexed, and then keeps the group's order. */
  lemma {:induction false} LookupCharacterized(index: map<SubjectId, nat>, group: seq<Subject>)
    ensures Lookup(index, group).Success? <==> forall k :: 0 <= k < |group| ==> group[k].subjectId in index
    ensures Lookup(index, group).Success? ==>
      var idxs := Lookup(index, group).value;
      |idxs| == |group| && forall k :: 0 <= k < |group| ==> idxs[k] == index[group[k].subjectId]
    ensures Lookup(index, group).Failure? ==> Lookup(index, group).error.UnknownSubject?
  {
    if group != [] {
      var n := |group| - 1;
      LookupCharacterized(index, group[..n]);
      assert forall k :: 0 <= k < n ==> group[..n][k] == group[k];
    }
  }

  /** The index loop of `tTestGroups` for one group, proved against `Lookup`. */
  method LookupIndices(index: map<SubjectId, nat>, group: seq<Subject>) returns (r: Result<seq<nat>, CacheError>)
    ensures r == Lookup(index, group)
  {
    var idxs: seq<nat> := [];
    var k := 0;
    while k < |group|
      invariant 0 <= k <= |group|
      invariant Lookup(index, group[..k]) == Success(idxs)
    {
      assert group[..k + 1][..k] == group[..k];
      var id := group[k].subjectId;
      if id !in index {
        LookupFailurePersists(index, group, k + 1);
        return Failure(UnknownSubject(id));
      }
      idxs := idxs + [index[id]];
      k := k + 1;
    }
    assert group[..k] == group;
    return Success(idxs);
  }

  lemma {:induction false} LookupFailurePersists(index: map<SubjectId, nat>, group: seq<Subject>, k: nat)
    requires k <= |group|
    requires Lookup(index, group[..k]).Failure?
    ensures Lookup(index, group) == Lookup(index, group[..k])
    decreases |group| - k
  {
    if k < |group| {
      assert group[..k + 1][..k] == group[..k];
      LookupFailurePersists(index, group, k + 1);
    } else {
      assert group[..k] == group;
    }
  }

  /** `dataCache.data[grp]`: the rows at the given positions. */
  function Select(rows: seq<seq<real>>, idxs: seq<nat>): (r: seq<seq<real>>)
    requires forall k :: 0 <= k < |idxs| ==> idxs[k] < |rows|
    ensures |r| == |idxs|
    ensures forall k :: 0 <= k < |idxs| ==> r[k] == rows[idxs[k]]
  {
    seq(|idxs|, k requires 0 <= k < |idxs| => rows[idxs[k]])
  }

  /** The rows a group selects from a successful cache item, or the unknown id (lines 260-270). */
  function GroupRows(item: CacheItem, subs: seq<Subject>, key: Label, group: seq<Subject>): (r: Result<seq<seq<real>>, CacheError>)
    requires BuildItem(subs, key) == Success(item)
  {
    IndexIsLastOccurrence(subs);
    RowsCharacterized(subs, key, Width(subs, key));
    LookupCharacterized(item.subjectIndex, group);
    match Lookup(item.subjectIndex, group)
    case Failure(e) => Failure(e)
    case Success(idxs) => Success(Select(item.rows, idxs))
  }

  /** Each member's own data for `key`, broadcast to width `w`. */
  function OwnRows(group: seq<Subject>, key: Label, w: nat): (r: seq<seq<real>>)
    requires Fits(group, key, w)
    ensures |r| == |group|
    ensures forall k :: 0 <= k < |group| ==> Broadcast(group[k].data[key], w) == Some(r[k])
  {
    seq(|group|, k requires 0 <= k < |group| => Broadcast(group[k].data[key], w).value)
  }

  /**
   * With unique ids, a group drawn from the cached subjects (in any order, as after a shuffle)
   * selects every member's own data, broadcast to the row width.
   */
  lemma SelectsOwnRows(subs: seq<Subject>, key: Label, item: CacheItem, group: seq<Subject>)
    requires BuildItem(subs, key) == Success(item)
    requires UniqueIds(subs)
    requires forall k :: 0 <= k < |group| ==> group[k] in subs
    ensures Fits(group, key, Width(subs, key))
    ensures GroupRows(item, subs, key, group) == Success(OwnRows(group, key, Width(subs, key)))
  {
    var w := Width(subs, key);
    RowsCharacterized(subs, key, w);
    LookupCharacterized(item.subjectIndex, group);
    forall k | 0 <= k < |group|
      ensures group[k].subjectId in item.subjectIndex
      ensures item.subjectIndex[group[k].subjectId] < |subs|
      ensures subs[item.subjectIndex[group[k].subjectId]] == group[k]
    {
      var i :| 0 <= i < |subs| && subs[i] == group[k];
      UniqueIndex(subs, i);
    }
    var idxs := Lookup(item.subjectIndex, group).value;
    var own := OwnRows(group, key, w);
    assert Select(item.rows, idxs) == own by {
      forall k | 0 <= k < |group|
        ensures Select(item.rows, idxs)[k] == own[k]
      {
        assert Broadcast(subs[idxs[k]].data[key], w) == Some(item.rows[idxs[k]]);
      }
    }
  }
}
