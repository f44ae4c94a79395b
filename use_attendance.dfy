/**
 * The optimistic attendance toggle of the client (`useToggleAttendance`).
 *
 * The query cache is a map from query keys to entries. Before the request is
 * sent, every cached `["lectures", ...]` entry is snapshotted and the toggled
 * lecture is patched in each of them; if the request fails the snapshots are
 * written back; in both cases the lecture and dashboard families are marked
 * stale afterwards.
 */
module UseAttendance {
  import opened Wrappers
  import ApiTypes

  /**
   * A date-valued field of a cached record as `new Date(...)` sees it: absent
   * (`undefined`), `null`, a value that denotes a time, or one that gives an
   * Invalid Date. Times are local minutes since the epoch.
   */
  datatype DateField = Missing | NullDate | Time(t: int) | InvalidDate

  predicate Nullish(f: DateField)
  {
    f.Missing? || f.NullDate?
  }

  /**
   * A lecture record in the cache. Any shape may be cached, so every field the
   * patch reads is optional; `summary` is "" when it is absent, null or empty
   * (all falsy), and `rest` stands for the fields the patch never touches.
   */
  datatype Record = Record(
    id: Option<string>,
    startDtSnake: DateField,
    startDtCamel: DateField,
    start: DateField,
    summary: string,
    attended: Option<bool>,
    status: Option<ApiTypes.LectureStatus>,
    rest: map<string, string>)

  function TimeOf(f: DateField): Option<int>
  {
    if f.Time? then Some(f.t) else None
  }

  /**
   * The start `computeStatus` compares with now: the first of `start_dt`,
   * `startDt`, `start` that is not nullish; when all three are, `??` yields the
   * last one, and `new Date(null)` is the epoch while `new Date(undefined)`
   * is invalid. `None` is an Invalid Date, which is never after anything.
   */
  function StartTime(rec: Record): (t: Option<int>)
    ensures !Nullish(rec.startDtSnake) ==> t == TimeOf(rec.startDtSnake)
    ensures Nullish(rec.startDtSnake) && !Nullish(rec.startDtCamel) ==> t == TimeOf(rec.startDtCamel)
    ensures Nullish(rec.startDtSnake) && Nullish(rec.startDtCamel) && rec.start.NullDate? ==> t == Some(0)
    ensures Nullish(rec.startDtSnake) && Nullish(rec.startDtCamel) && !rec.start.NullDate? ==> t == TimeOf(rec.start)
  {
    if !Nullish(rec.startDtSnake) then TimeOf(rec.startDtSnake)
    else if !Nullish(rec.startDtCamel) then TimeOf(rec.startDtCamel)
    else if rec.start.NullDate? then Some(0)
    else TimeOf(rec.start)
  }

  predicate StartsAfter(rec: Record, now: int)
  {
    StartTime(rec).Some? && StartTime(rec).value > now
  }

  /** The client's copy of the server's status rule, used for the optimistic patch. */
  function ComputeStatus(rec: Record, attended: bool, now: int): (s: ApiTypes.LectureStatus)
    ensures s == ApiTypes.Upcoming <==> StartsAfter(rec, now)
    ensures s == ApiTypes.Summarized <==> !StartsAfter(rec, now) && rec.summary != ""
    ensures s == ApiTypes.Attended <==> !StartsAfter(rec, now) && rec.summary == "" && attended
    ensures s == ApiTypes.Missed <==> !StartsAfter(rec, now) && rec.summary == "" && !attended
  {
    if StartsAfter(rec, now) then ApiTypes.Upcoming
    else if rec.summary != "" then ApiTypes.Summarized
    else if attended then ApiTypes.Attended
    else ApiTypes.Missed
  }

  /** An element of a cached list: `lec?.id` tolerates null elements. */
  datatype Item = NullItem | Rec(rec: Record)

  predicate IsTarget(item: Item, lectureId: string)
  {
    item.Rec? && item.rec.id == Some(lectureId)
  }

  /** `patch`: the record whose id is the toggled lecture gets the new flag and a recomputed status. */
  function PatchItem(item: Item, lectureId: string, attended: bool, now: int): (r: Item)
    ensures !IsTarget(item, lectureId) ==> r == item
    ensures IsTarget(item, lectureId) ==> r.Rec? && r.rec.attended == Some(attended)
    ensures IsTarget(item, lectureId) ==> r.rec.status == Some(ComputeStatus(item.rec, attended, now))
    ensures IsTarget(item, lectureId) ==>
              r.rec.(attended := item.rec.attended, status := item.rec.status) == item.rec
  {
    if IsTarget(item, lectureId) then
      Rec(item.rec.(attended := Some(attended), status := Some(ComputeStatus(item.rec, attended, now))))
    else item
  }

  function PatchItems(items: seq<Item>, lectureId: string, attended: bool, now: int): (r: seq<Item>)
    ensures |r| == |items|
    ensures forall i :: 0 <= i < |items| ==> r[i] == PatchItem(items[i], lectureId, attended, now)
  {
    seq(|items|, i requires 0 <= i < |items| => PatchItem(items[i], lectureId, attended, now))
  }

  /**
   * Cached data: nothing yet (`undefined`), another falsy value, a list, an
   * object whose `results` is a list (`None` when it is not an array) beside
   * other fields, or any other truthy value.
   */
  datatype Payload = NoData | Falsy | List(items: seq<Item>)
                   | Obj(results: Option<seq<Item>>, fields: map<string, string>) | OtherTruthy

  /** The updater `onMutate` hands to `setQueryData`. */
  function PatchPayload(p: Payload, lectureId: string, attended: bool, now: int): (r: Payload)
    ensures p.List? ==> r == List(PatchItems(p.items, lectureId, attended, now))
    ensures p.Obj? && p.results.Some? ==>
              r == Obj(Some(PatchItems(p.results.value, lectureId, attended, now)), p.fields)
    ensures !p.List? && !(p.Obj? && p.results.Some?) ==> r == p
  {
    match p
    case List(items) => List(PatchItems(items, lectureId, attended, now))
    case Obj(Some(results), fields) => Obj(Some(PatchItems(results, lectureId, attended, now)), fields)
    case _ => p
  }

  /** Patching a second time changes nothing: the status rule reads only fields the patch keeps. */
  lemma PatchPayloadIdempotent(p: Payload, lectureId: string, attended: bool, now: int)
    ensures PatchPayload(PatchPayload(p, lectureId, attended, now), lectureId, attended, now)
         == PatchPayload(p, lectureId, attended, now)
  {
    var once := PatchPayload(p, lectureId, attended, now);
    var twice := PatchPayload(once, lectureId, attended, now);
    match p
    case List(items) =>
      assert twice.items == once.items;
    case Obj(Some(results), fields) =>
      assert twice.results.value == once.results.value;
    case _ =>
  }

  type QueryKey = seq<string>

  const LecturesKey: QueryKey := ["lectures"]
  const DashboardKey: QueryKey := ["dashboard"]

  /** A cache entry: its data and whether it has been marked stale. */
  datatype Entry = Entry(data: Payload, invalidated: bool)

  /** One `{ key, value }` pair of the snapshot list. */
  datatype Snapshot = Snapshot(key: QueryKey, value: Payload)

  /** `setQueryData(key, value)`: an undefined value is ignored; otherwise the entry gets it and is fresh. */
  function SetData(c: map<QueryKey, Entry>, key: QueryKey, value: Payload): (r: map<QueryKey, Entry>)
    ensures value.NoData? ==> r == c
    ensures !value.NoData? ==> r.Keys == c.Keys + {key} && r[key] == Entry(value, false)
    ensures forall k :: k in c && k != key ==> r[k] == c[k]
  {
    if value.NoData? then c else c[key := Entry(value, false)]
  }

  /** `invalidateQueries({ queryKey: prefix })`: every entry whose key starts with `prefix` is marked stale. */
  function Invalidated(c: map<QueryKey, Entry>, prefix: QueryKey): (r: map<QueryKey, Entry>)
    ensures r.Keys == c.Keys
    ensures forall k :: k in c && prefix <= k ==> r[k] == c[k].(invalidated := true)
    ensures forall k :: k in c && !(prefix <= k) ==> r[k] == c[k]
  {
    map k | k in c :: if prefix <= k then c[k].(invalidated := true) else c[k]
  }

  /** What `setQueryData(key, patch)` does to one entry. */
  function PatchEntry(e: Entry, lectureId: string, attended: bool, now: int): Entry
  {
    if e.data.NoData? then e else Entry(PatchPayload(e.data, lectureId, attended, now), false)
  }

  /** The cache with the entries under `done` patched. */
  function PatchedOn(c: map<QueryKey, Entry>, done: set<QueryKey>, lectureId: string, attended: bool, now: int)
    : map<QueryKey, Entry>
  {
    map k | k in c :: if k in done then PatchEntry(c[k], lectureId, attended, now) else c[k]
  }

  /** The keys of the cached entries whose key starts with `prefix`. */
  function Family(c: map<QueryKey, Entry>, prefix: QueryKey): set<QueryKey>
  {
    set k | k in c && prefix <= k
  }

  /** The cache after the optimistic update: only the `["lectures", ...]` family is touched. */
  function PatchedCache(c: map<QueryKey, Entry>, lectureId: string, attended: bool, now: int)
    : (r: map<QueryKey, Entry>)
    ensures r.Keys == c.Keys
    ensures forall k :: k in c && !(LecturesKey <= k) ==> r[k] == c[k]
    ensures forall k :: k in c && LecturesKey <= k ==>
              r[k].data == PatchPayload(c[k].data, lectureId, attended, now)
  {
    PatchedOn(c, Family(c, LecturesKey), lectureId, attended, now)
  }

  /** The keys of the first `n` snapshots. */
  function KeysUpTo(s: seq<Snapshot>, n: nat): set<QueryKey>
    requires n <= |s|
  {
    if n == 0 then {} else KeysUpTo(s, n - 1) + {s[n - 1].key}
  }

  lemma {:induction false} KeysUpToAppend(s: seq<Snapshot>, x: Snapshot, n: nat)
    requires n <= |s|
    ensures KeysUpTo(s + [x], n) == KeysUpTo(s, n)
    decreases n
  {
    if n > 0 {
      KeysUpToAppend(s, x, n - 1);
    }
  }

  /**
   * The snapshots that carry data, as a map (a later pair wins over an
   * earlier one with the same key); a snapshot without data writes nothing.
   */
  function SnapMap(s: seq<Snapshot>, n: nat): map<QueryKey, Payload>
    requires n <= |s|
  {
    if n == 0 then map[]
    else if s[n - 1].value.NoData? then SnapMap(s, n - 1)
    else SnapMap(s, n - 1)[s[n - 1].key := s[n - 1].value]
  }

  /** The cache after writing back the first `n` snapshots one by one, as `onError` does. */
  function Restored(c: map<QueryKey, Entry>, s: seq<Snapshot>, n: nat): map<QueryKey, Entry>
    requires n <= |s|
  {
    if n == 0 then c else SetData(Restored(c, s, n - 1), s[n - 1].key, s[n - 1].value)
  }

  /** The write-back as one overlay: every snapshot with data replaces its entry. */
  function Overlay(c: map<QueryKey, Entry>, m: map<QueryKey, Payload>): map<QueryKey, Entry>
  {
    map k | k in c.Keys + m.Keys :: if k in m then Entry(m[k], false) else c[k]
  }

  lemma {:induction false} RestoredIsOverlay(c: map<QueryKey, Entry>, s: seq<Snapshot>, n: nat)
    requires n <= |s|
    ensures Restored(c, s, n) == Overlay(c, SnapMap(s, n))
    decreases n
  {
    if n > 0 {
      RestoredIsOverlay(c, s, n - 1);
    }
  }

  /** A snapshot list read from `c` under `prefix`: each key of the family once, with its data. */
  predicate SnapshotOf(s: seq<Snapshot>, c: map<QueryKey, Entry>, prefix: QueryKey)
  {
    KeysUpTo(s, |s|) == Family(c, prefix)
    && (forall i :: 0 <= i < |s| ==> s[i].key !in KeysUpTo(s, i))
    && (forall i :: 0 <= i < |s| ==> s[i].key in c && s[i].value == c[s[i].key].data)
  }

  lemma {:induction false} SnapMapOfCache(s: seq<Snapshot>, c: map<QueryKey, Entry>, n: nat)
    requires n <= |s|
    requires forall i :: 0 <= i < |s| ==> s[i].key in c && s[i].value == c[s[i].key].data
    ensures SnapMap(s, n).Keys <= KeysUpTo(s, n)
    ensures forall k :: k in SnapMap(s, n) ==> k in c && SnapMap(s, n)[k] == c[k].data
    ensures KeysUpTo(s, n) <= c.Keys
    ensures forall k :: k in KeysUpTo(s, n) && k !in SnapMap(s, n) ==> c[k].data.NoData?
    decreases n
  {
    if n > 0 {
      SnapMapOfCache(s, c, n - 1);
    }
  }

  /**
   * Rollback is exact: writing the snapshots back over the patched cache gives
   * every entry its pre-mutation data again, adds no entry, and leaves every
   * entry outside the lectures family exactly as it was.
   */
  lemma RollbackRestores(c: map<QueryKey, Entry>, s: seq<Snapshot>, lectureId: string, attended: bool, now: int)
    requires SnapshotOf(s, c, LecturesKey)
    ensures Restored(PatchedCache(c, lectureId, attended, now), s, |s|).Keys == c.Keys
    ensures forall k :: k in c ==> Restored(PatchedCache(c, lectureId, attended, now), s, |s|)[k].data == c[k].data
    ensures forall k :: k in c && !(LecturesKey <= k) ==>
              Restored(PatchedCache(c, lectureId, attended, now), s, |s|)[k] == c[k]
  {
    var p := PatchedCache(c, lectureId, attended, now);
    RestoredIsOverlay(p, s, |s|);
    SnapMapOfCache(s, c, |s|);
    var m := SnapMap(s, |s|);
    forall k | k in c
      ensures Overlay(p, m)[k].data == c[k].data
    {
      if k !in m && LecturesKey <= k {
        assert k in KeysUpTo(s, |s|);
        assert p[k] == c[k];
      }
    }
  }

  /** Loop state of `getQueriesData`: the keys listed so far and the keys still to list split the family. */
  predicate Listing(snaps: seq<Snapshot>, rest: set<QueryKey>, c: map<QueryKey, Entry>, prefix: QueryKey)
  {
    KeysUpTo(snaps, |snaps|) + rest == Family(c, prefix)
    && KeysUpTo(snaps, |snaps|) !! rest
    && (forall i :: 0 <= i < |snaps| ==> snaps[i].key !in KeysUpTo(snaps, i))
    && (forall i :: 0 <= i < |snaps| ==> snaps[i].key in c && snaps[i].value == c[snaps[i].key].data)
  }

  lemma ListingStep(snaps: seq<Snapshot>, rest: set<QueryKey>, c: map<QueryKey, Entry>, prefix: QueryKey, k: QueryKey)
    requires Listing(snaps, rest, c, prefix) && k in rest
    ensures Listing(snaps + [Snapshot(k, c[k].data)], rest - {k}, c, prefix)
  {
    var x := Snapshot(k, c[k].data);
    var t := snaps + [x];
    forall i | 0 <= i <= |snaps|
      ensures KeysUpTo(t, i) == KeysUpTo(snaps, i)
    {
      KeysUpToAppend(snaps, x, i);
    }
    var before := KeysUpTo(snaps, |snaps|);
    assert KeysUpTo(t, |t|) == before + {k};
    assert before + {k} + (rest - {k}) == before + rest;
    forall i | 0 <= i < |t|
      ensures t[i].key !in KeysUpTo(t, i)
    {
      if i < |snaps| {
        assert t[i] == snaps[i];
      }
    }
    forall i | 0 <= i < |t|
      ensures t[i].key in c && t[i].value == c[t[i].key].data
    {
      if i < |snaps| {
        assert t[i] == snaps[i];
      }
    }
  }

  lemma PatchedOnStep(c: map<QueryKey, Entry>, done: set<QueryKey>, k: QueryKey, lectureId: string, attended: bool, now: int)
    requires k in c && k !in done
    ensures SetData(PatchedOn(c, done, lectureId, attended, now), k, PatchPayload(c[k].data, lectureId, attended, now))
         == PatchedOn(c, done + {k}, lectureId, attended, now)
  {
  }

  /** The client's query cache, updated in place. */
  class QueryClient {
    var cache: map<QueryKey, Entry>

    constructor ()
      ensures cache == map[]
    {
      cache := map[];
    }

    /** `getQueryData`: `undefined` when the key is not cached. */
    function GetQueryData(key: QueryKey): (d: Payload)
      reads this
      ensures key !in cache ==> d.NoData?
      ensures key in cache ==> d == cache[key].data
    {
      if key in cache then cache[key].data else NoData
    }

    /** `getQueriesData({ queryKey: prefix })`: every cached entry of the family, once each, with its data. */
    method GetQueriesData(prefix: QueryKey) returns (snaps: seq<Snapshot>)
      ensures SnapshotOf(snaps, cache, prefix)
    {
      var rest := Family(cache, prefix);
      snaps := [];
      while rest != {}
        invariant Listing(snaps, rest, cache, prefix)
        decreases rest
      {
        var k :| k in rest;
        ListingStep(snaps, rest, cache, prefix, k);
        snaps := snaps + [Snapshot(k, cache[k].data)];
        rest := rest - {k};
      }
    }

    method SetQueryData(key: QueryKey, value: Payload)
      modifies this
      ensures cache == SetData(old(cache), key, value)
    {
      cache := SetData(cache, key, value);
    }

    method InvalidateQueries(prefix: QueryKey)
      modifies this
      ensures cache == Invalidated(old(cache), prefix)
    {
      cache := Invalidated(cache, prefix);
    }

    /** `onMutate`: snapshot the lectures family, then patch each snapshotted entry through `setQueryData`. */
    method OnMutate(lectureId: string, attended: bool, now: int) returns (snapshots: seq<Snapshot>)
      modifies this
      ensures SnapshotOf(snapshots, old(cache), LecturesKey)
      ensures cache == PatchedCache(old(cache), lectureId, attended, now)
    {
      snapshots := GetQueriesData(LecturesKey);
      for i := 0 to |snapshots|
        invariant cache == PatchedOn(old(cache), KeysUpTo(snapshots, i), lectureId, attended, now)
      {
        var key := snapshots[i].key;
        var prev := GetQueryData(key);
        PatchedOnStep(old(cache), KeysUpTo(snapshots, i), key, lectureId, attended, now);
        SetQueryData(key, PatchPayload(prev, lectureId, attended, now));
      }
      assert KeysUpTo(snapshots, |snapshots|) == Family(old(cache), LecturesKey);
    }

    /** `onError`: write every snapshot back; without a context there is nothing to restore. */
    method OnError(ctx: Option<seq<Snapshot>>)
      modifies this
      ensures ctx.None? ==> cache == old(cache)
      ensures ctx.Some? ==> cache == Restored(old(cache), ctx.value, |ctx.value|)
    {
      if ctx.Some? {
        var snapshots := ctx.value;
        for i := 0 to |snapshots|
          invariant cache == Restored(old(cache), snapshots, i)
        {
          SetQueryData(snapshots[i].key, snapshots[i].value);
        }
      }
    }

    /** `onSettled`: mark both the lectures and the dashboard families stale. */
    method OnSettled()
      modifies this
      ensures cache == Invalidated(Invalidated(old(cache), LecturesKey), DashboardKey)
    {
      InvalidateQueries(LecturesKey);
      InvalidateQueries(DashboardKey);
    }
  }

  /**
   * One toggle, from the optimistic update to settling, with the server's
   * answer as a parameter: on failure every entry's data is back to what it
   * was, on success the patched data stays; either way both families are
   * stale and every other entry is untouched.
   */
  method ToggleMutation(qc: QueryClient, lectureId: string, attended: bool, now: int, serverFails: bool)
    modifies qc
    ensures qc.cache.Keys == old(qc.cache).Keys
    ensures serverFails ==> forall k :: k in qc.cache ==> qc.cache[k].data == old(qc.cache)[k].data
    ensures !serverFails ==> forall k :: k in qc.cache ==>
              qc.cache[k].data == PatchedCache(old(qc.cache), lectureId, attended, now)[k].data
    ensures forall k :: k in qc.cache && (LecturesKey <= k || DashboardKey <= k) ==> qc.cache[k].invalidated
    ensures forall k :: k in qc.cache && !(LecturesKey <= k) && !(DashboardKey <= k) ==>
              qc.cache[k] == old(qc.cache)[k]
  {
    var snapshots := qc.OnMutate(lectureId, attended, now);
    if serverFails {
      qc.OnError(Some(snapshots));
      RollbackRestores(old(qc.cache), snapshots, lectureId, attended, now);
    }
    qc.OnSettled();
  }
}
