/**
  The point store (`InMemoryQdrantClient` of qdrant.py) and paging through it with
  `scroll_points`.
 */
module VectorStore {
  import opened Text

  /** A vector component; NonFinite is an infinity or NaN. */
  datatype Num = Finite(v: real) | NonFinite

  type Payload = map<string, string>

  datatype Point = Point(id: int, vector: seq<Num>, payload: Payload)

  type Store = map<int, Point>

  datatype Error =
    | QdrantUnavailable
    | UpsertFailed
    | CleanupFailed
    | CollectionCreateFailed
    | DimensionMismatch
    | DocumentIndexingFailed

  // ---- the operations, as functions of the stored points

  /** Later points replace earlier ones with the same id. */
  function Upserted(store: Store, points: seq<Point>): Store {
    if points == [] then store
    else
      var last := points[|points| - 1];
      Upserted(store, points[..|points| - 1])[last.id := last]
  }

  function IdSet(ids: seq<int>): set<int> {
    set id | id in ids
  }

  function Deleted(store: Store, ids: seq<int>): Store {
    store - IdSet(ids)
  }

  /** The same point, or none, under an id. */
  predicate SameAt(a: Store, b: Store, id: int) {
    (id in a <==> id in b) && (id in a ==> a[id] == b[id])
  }

  const VERSION_KEY := "document_version_id"

  predicate OfVersion(p: Point, version: string) {
    VERSION_KEY in p.payload && p.payload[VERSION_KEY] == version
  }

  function VersionDeleted(store: Store, version: string): Store {
    map id | id in store && !OfVersion(store[id], version) :: store[id]
  }

  function PayloadSet(store: Store, ids: set<int>, payload: Payload): Store {
    map id | id in store :: if id in ids then store[id].(payload := store[id].payload + payload) else store[id]
  }

  function VersionPayloadSet(store: Store, version: string, payload: Payload): Store {
    PayloadSet(store, (set id | id in store && OfVersion(store[id], version)), payload)
  }

  lemma Member<T>(s: set<T>) returns (x: T)
    requires s != {}
    ensures x in s
  {
    x :| x in s;
  }

  lemma LeastExists(ids: set<int>)
    requires ids != {}
    ensures exists m :: IsLeast(ids, m)
    decreases ids
  {
    var x := Member(ids);
    var rest := ids - {x};
    if rest == {} {
      assert ids == {x};
      assert IsLeast(ids, x);
    } else {
      LeastExists(rest);
      var m :| IsLeast(rest, m);
      assert forall j :: j in ids ==> j == x || j in rest;
      assert IsLeast(ids, if x < m then x else m);
    }
  }

  predicate IsLeast(ids: set<int>, m: int) {
    m in ids && forall j :: j in ids ==> m <= j
  }

  function Least(ids: set<int>): (m: int)
    requires ids != {}
    ensures IsLeast(ids, m)
  {
    LeastExists(ids);
    var m :| m in ids && IsLeast(ids, m);
    m
  }

  /** The ids in ascending order. */
  function SortedIds(ids: set<int>): (r: seq<int>)
    ensures |r| == |ids|
    ensures forall id :: id in r <==> id in ids
  {
    if ids == {} then [] else [Least(ids)] + SortedIds(ids - {Least(ids)})
  }

  ghost predicate Ascending(s: seq<int>) {
    forall i, j :: 0 <= i < j < |s| ==> s[i] < s[j]
  }

  lemma {:induction false} SortedAscend(ids: set<int>)
    ensures Ascending(SortedIds(ids))
    decreases ids
  {
    if ids != {} {
      var m := Least(ids);
      var rest := SortedIds(ids - {m});
      SortedAscend(ids - {m});
      hide SortedIds;
      forall i | 0 <= i < |rest| ensures m < rest[i] {
        assert rest[i] in rest;
      }
      AscendingCons(m, rest);
    }
  }

  lemma AscendingCons(m: int, rest: seq<int>)
    requires Ascending(rest) && forall i :: 0 <= i < |rest| ==> m < rest[i]
    ensures Ascending([m] + rest)
  {}

  /** The index of `offset`, or the length if it is not there. */
  function StartIndex(ordered: seq<int>, offset: Option<int>): (i: nat)
    ensures i <= |ordered|
    ensures offset.None? ==> i == 0
    ensures offset.Some? && i < |ordered| ==> ordered[i] == offset.value
    ensures offset.Some? && i == |ordered| ==> offset.value !in ordered
  {
    if offset.None? || ordered == [] || ordered[0] == offset.value then 0
    else 1 + StartIndex(ordered[1..], offset)
  }

  datatype Page = Page(ids: seq<int>, next: Option<int>)

  function ScrollPage(ids: set<int>, limit: nat, offset: Option<int>): Page {
    var ordered := SortedIds(ids);
    var start := StartIndex(ordered, offset);
    if start + limit < |ordered| then Page(ordered[start..start + limit], Some(ordered[start + limit]))
    else Page(ordered[start..], None)
  }

  // ---- the client

  class InMemoryClient {
    var collections: map<string, int>
    var points: map<string, Store>
    var failCreate: bool
    var failUpsert: bool
    var failDelete: bool

    constructor ()
      ensures collections == map[] && points == map[] && !failCreate && !failUpsert && !failDelete
    {
      collections, points := map[], map[];
      failCreate, failUpsert, failDelete := false, false, false;
    }

    /** The points stored under a name; a name never used has none. */
    function Stored(name: string): Store
      reads this
    {
      if name in points then points[name] else map[]
    }

    /** Only the points of `name` differ, and they are `stored` now. */
    twostate predicate Becomes(name: string, stored: Store)
      reads this
    {
      && Stored(name) == stored
      && (forall other :: other != name ==> Stored(other) == old(Stored(other)))
      && unchanged(`collections, `failCreate, `failUpsert, `failDelete)
    }

    method CreateCollection(name: string, dimension: int) returns (r: Option<Error>)
      modifies this`collections, this`points
      ensures r == if old(failCreate) then Some(CollectionCreateFailed)
                   else if name in old(collections) && old(collections)[name] != dimension then Some(DimensionMismatch)
                   else None
      ensures collections == if r.None? then old(collections)[name := dimension] else old(collections)
      ensures forall other :: Stored(other) == old(Stored(other))
    {
      if failCreate {
        return Some(CollectionCreateFailed);
      }
      if name in collections && collections[name] != dimension {
        return Some(DimensionMismatch);
      }
      collections := collections[name := dimension];
      if name !in points {
        points := points[name := map[]];
      }
      r := None;
    }

    method UpsertPoints(name: string, batch: seq<Point>) returns (r: Option<Error>)
      modifies this`points
      ensures r == if failUpsert then Some(UpsertFailed)
                   else if name !in collections then Some(QdrantUnavailable) else None
      ensures Becomes(name, if r.None? then Upserted(old(Stored(name)), batch) else old(Stored(name)))
    {
      if failUpsert {
        return Some(UpsertFailed);
      }
      if name !in collections {
        return Some(QdrantUnavailable);
      }
      var stored := Stored(name);
      for i := 0 to |batch|
        invariant stored == Upserted(old(Stored(name)), batch[..i])
      {
        assert batch[..i + 1][..i] == batch[..i];
        stored := stored[batch[i].id := batch[i]];
      }
      assert batch[..|batch|] == batch;
      points := points[name := stored];
      r := None;
    }

    method DeletePoints(name: string, ids: seq<int>) returns (r: Option<Error>)
      modifies this`points
      ensures r == if failDelete then Some(CleanupFailed) else None
      ensures Becomes(name, if r.None? then Deleted(old(Stored(name)), ids) else old(Stored(name)))
    {
      if failDelete {
        return Some(CleanupFailed);
      }
      var stored := Stored(name);
      for i := 0 to |ids|
        invariant stored == Deleted(old(Stored(name)), ids[..i])
      {
        assert ids[..i + 1] == ids[..i] + [ids[i]];
        stored := stored - {ids[i]};
      }
      assert ids[..|ids|] == ids;
      points := points[name := stored];
      r := None;
    }

    method DeleteByDocumentVersion(name: string, version: string) returns (r: Option<Error>)
      modifies this`points
      ensures r == if failDelete then Some(CleanupFailed) else None
      ensures Becomes(name, if r.None? then VersionDeleted(old(Stored(name)), version) else old(Stored(name)))
    {
      if failDelete {
        return Some(CleanupFailed);
      }
      var stored := Stored(name);
      points := points[name := stored - (set id | id in stored && OfVersion(stored[id], version))];
      r := None;
    }

    method SetPayloadByPointIds(name: string, ids: set<int>, payload: Payload) returns (r: Option<Error>)
      modifies this`points
      ensures r == if failUpsert then Some(UpsertFailed) else None
      ensures Becomes(name, if r.None? then PayloadSet(old(Stored(name)), ids, payload) else old(Stored(name)))
    {
      if failUpsert {
        return Some(UpsertFailed);
      }
      points := points[name := PayloadSet(Stored(name), ids, payload)];
      r := None;
    }

    method SetPayloadByDocumentVersion(name: string, version: string, payload: Payload) returns (r: Option<Error>)
      modifies this`points
      ensures r == if failUpsert then Some(UpsertFailed) else None
      ensures Becomes(name, if r.None? then VersionPayloadSet(old(Stored(name)), version, payload)
                            else old(Stored(name)))
    {
      if failUpsert {
        return Some(UpsertFailed);
      }
      points := points[name := VersionPayloadSet(Stored(name), version, payload)];
      r := None;
    }

    method ScrollPoints(name: string, limit: nat, offset: Option<int>) returns (r: Page)
      modifies this`points
      ensures r == ScrollPage(old(Stored(name)).Keys, limit, offset)
      ensures Becomes(name, old(Stored(name)))
    {
      hide SortedIds, StartIndex;
      if name !in points {
        points := points[name := map[]];
      }
      var ordered := SortedIds(points[name].Keys);
      var start := 0;
      if offset.Some? {
        start := StartIndex(ordered, offset);
      }
      var end := if start + limit < |ordered| then start + limit else |ordered|;
      var window := ordered[start..end];
      var nextOffset: Option<int> := None;
      if start + limit < |ordered| {
        nextOffset := Some(ordered[start + limit]);
      }
      r := Page(window, nextOffset);
    }
  }

  // ---- payload updates

  /** The payload of `sync_document_payload`. */
  function SyncedPayload(documentStatus: string, versionStatus: string, isActive: bool): Payload {
    map["logical_document_status" := documentStatus, "document_version_status" := versionStatus,
        "is_active" := if isActive then "true" else "false"]
  }

  /**
    A payload update keeps every point with its vector, and so every page of a scroll; it
    leaves other points alone, and a second time it changes nothing.
   */
  lemma PayloadUpdateKeepsPoints(store: Store, ids: set<int>, payload: Payload, limit: nat, offset: Option<int>)
    ensures var after := PayloadSet(store, ids, payload);
      && ScrollPage(after.Keys, limit, offset) == ScrollPage(store.Keys, limit, offset)
      && (forall id :: id in store ==>
            id in after && after[id].id == store[id].id && after[id].vector == store[id].vector &&
            (id !in ids ==> after[id] == store[id]))
      && PayloadSet(after, ids, payload) == after
  {
    hide ScrollPage;
    var after := PayloadSet(store, ids, payload);
    assert after.Keys == store.Keys;
    forall id | id in after && id in ids ensures after[id].payload + payload == after[id].payload {
      assert after[id].payload == store[id].payload + payload;
    }
  }

  /**
    Deleting a version's points comes to the same before and after its payloads were updated,
    if and only if the update leaves the version alone or there is nothing to update.
   */
  lemma SyncThenDelete(store: Store, version: string, payload: Payload)
    ensures VersionDeleted(VersionPayloadSet(store, version, payload), version) == VersionDeleted(store, version) <==>
            VERSION_KEY !in payload || payload[VERSION_KEY] == version ||
            forall id :: id in store ==> !OfVersion(store[id], version)
  {
    var after := VersionPayloadSet(store, version, payload);
    forall id | id in store
      ensures id in after && (!OfVersion(store[id], version) ==> after[id] == store[id])
      ensures OfVersion(store[id], version) ==>
                (OfVersion(after[id], version) <==> VERSION_KEY !in payload || payload[VERSION_KEY] == version)
    {}
    hide VersionPayloadSet, OfVersion;
    assert after.Keys == store.Keys;
    if id :| id in store && OfVersion(store[id], version) && !OfVersion(after[id], version) {
      assert id in VersionDeleted(after, version) && id !in VersionDeleted(store, version);
    } else {
      forall id | id in store
        ensures OfVersion(after[id], version) <==> OfVersion(store[id], version)
        ensures !OfVersion(after[id], version) ==> after[id] == store[id]
      {
        assert OfVersion(store[id], version) ==> OfVersion(after[id], version);
      }
      assert VersionDeleted(after, version) == VersionDeleted(store, version);
    }
  }

  /** What the service writes never changes which points are deleted with their version. */
  /** What the service writes: three values in the payload of every point of the version, and nothing else. */
  lemma SyncedExact(store: Store, version: string, documentStatus: string, versionStatus: string, isActive: bool,
                    id: int)
    requires id in store
    ensures var after := VersionPayloadSet(store, version, SyncedPayload(documentStatus, versionStatus, isActive));
      id in after &&
      if !OfVersion(store[id], version) then after[id] == store[id]
      else
        var old', new' := store[id], after[id];
        && new'.id == old'.id && new'.vector == old'.vector
        && ("is_active" in new'.payload && new'.payload["is_active"] == "true" <==> isActive)
        && ("is_active" in new'.payload && new'.payload["is_active"] == "false" <==> !isActive)
        && "logical_document_status" in new'.payload && new'.payload["logical_document_status"] == documentStatus
        && "document_version_status" in new'.payload && new'.payload["document_version_status"] == versionStatus
        && (forall key ::
              key != "is_active" && key != "logical_document_status" && key != "document_version_status" ==>
                (key in new'.payload <==> key in old'.payload) &&
                (key in old'.payload ==> new'.payload[key] == old'.payload[key]))
  {
    assert "true" != "false";
  }

  lemma SyncedThenDeleted(store: Store, version: string, documentStatus: string, versionStatus: string, isActive: bool)
    ensures var payload := SyncedPayload(documentStatus, versionStatus, isActive);
      VersionDeleted(VersionPayloadSet(store, version, payload), version) == VersionDeleted(store, version)
  {
    SyncThenDelete(store, version, SyncedPayload(documentStatus, versionStatus, isActive));
  }

  // ---- one page

  /** A slice of an ascending list holds the members between its bounds. */
  lemma SliceHolds(ordered: seq<int>, start: nat, end: nat, id: int)
    requires Ascending(ordered) && start <= end <= |ordered|
    ensures Ascending(ordered[start..end])
    ensures id in ordered[start..end] <==>
            id in ordered && (start < |ordered| ==> ordered[start] <= id) && start < |ordered| &&
            (end < |ordered| ==> id < ordered[end])
  {
    var slice := ordered[start..end];
    if id in ordered {
      var i :| 0 <= i < |ordered| && ordered[i] == id;
      assert start <= i < end ==> slice[i - start] == id;
    }
    if id in slice {
      var i :| 0 <= i < |slice| && slice[i] == id;
      assert ordered[start + i] == id;
    }
  }

  /** The page holds the ids from the offset up to the next offset. */
  lemma PageHolds(ids: set<int>, limit: nat, offset: Option<int>, id: int)
    requires limit >= 1 && (offset.Some? ==> offset.value in ids)
    ensures var page := ScrollPage(ids, limit, offset);
      && Ascending(page.ids) && |page.ids| <= limit
      && (id in page.ids <==>
            id in ids && (offset.Some? ==> offset.value <= id) && (page.next.Some? ==> id < page.next.value))
      && (page.next.Some? ==> page.next.value in ids && (offset.Some? ==> offset.value < page.next.value))
  {
    hide SortedIds, StartIndex;
    SortedAscend(ids);
    var ordered := SortedIds(ids);
    var start := StartIndex(ordered, offset);
    var end := if start + limit < |ordered| then start + limit else |ordered|;
    SliceHolds(ordered, start, end, id);
    assert end < |ordered| ==> ordered[end] in ordered && ordered[start] < ordered[end];
    if id in ordered {
      FirstIsLeast(ordered, id);
    }
    hide Ascending;
    assert ScrollPage(ids, limit, offset) ==
           Page(ordered[start..end], if end < |ordered| then Some(ordered[end]) else None);
    assert offset.Some? ==> start < |ordered| && ordered[start] == offset.value;
  }

  lemma FirstIsLeast(ordered: seq<int>, id: int)
    requires Ascending(ordered) && id in ordered
    ensures ordered[0] <= id
  {
    var i :| 0 <= i < |ordered| && ordered[i] == id;
    assert i > 0 ==> ordered[0] < ordered[i];
  }

  /**
    If the point the scroll was to resume at is gone, the page is empty and the scroll ends,
    whatever is left to read.
   */
  lemma LostOffsetEndsScroll(ids: set<int>, limit: nat, offset: int)
    requires limit >= 1
    ensures ScrollPage(ids, limit, Some(offset)).ids == [] <==> offset !in ids
    ensures offset !in ids ==> ScrollPage(ids, limit, Some(offset)).next == None
  {
    assert offset in SortedIds(ids) <==> offset in ids;
  }

  // ---- a whole scroll

  /** One request: what was stored at the time, the limit and the offset sent, and the page received. */
  datatype Request = Request(ids: set<int>, limit: nat, offset: Option<int>, page: Page)

  /** The i-th request resumes where the page before said, and receives the page of what is stored then. */
  ghost predicate Follows(requests: seq<Request>, i: nat)
    requires i < |requests|
  {
    && requests[i].limit >= 1
    && requests[i].page == ScrollPage(requests[i].ids, requests[i].limit, requests[i].offset)
    && requests[i].offset == (if i == 0 then None else requests[i - 1].page.next)
    && (i > 0 ==> requests[i].offset.Some?)
  }

  /** A scroll that may not have been read to the end. */
  ghost predicate IsScrollSoFar(requests: seq<Request>) {
    forall i :: 0 <= i < |requests| ==> Follows(requests, i)
  }

  /** A scroll read to the end. Between requests any points may come and go. */
  ghost predicate IsScroll(requests: seq<Request>) {
    && requests != [] && IsScrollSoFar(requests)
    && requests[|requests| - 1].page.next == None
  }

  /** All ids received, in the order received. */
  function Received(requests: seq<Request>): seq<int> {
    if requests == [] then [] else Received(requests[..|requests| - 1]) + requests[|requests| - 1].page.ids
  }

  function NextOffset(requests: seq<Request>): Option<int> {
    if requests == [] then None else requests[|requests| - 1].page.next
  }

  /** The point the last request was to resume at, if there was one, was still there. */
  ghost predicate Resumed(requests: seq<Request>)
    requires requests != []
  {
    var last := requests[|requests| - 1];
    last.offset.Some? ==> last.offset.value in last.ids
  }

  /** Only the last request can have lost its point: the page would have been empty and final. */
  lemma FrontResumed(requests: seq<Request>)
    requires IsScrollSoFar(requests) && |requests| > 1
    ensures Resumed(requests[..|requests| - 1])
  {
    var n := |requests| - 2;
    assert Follows(requests, n) && Follows(requests, n + 1);
    hide ScrollPage;
    if requests[n].offset.Some? {
      LostOffsetEndsScroll(requests[n].ids, requests[n].limit, requests[n].offset.value);
    }
  }

  /** What a scroll has received of an id, as long as it has found its way. */
  lemma {:induction false} ReceivedSoFar(requests: seq<Request>, id: int)
    requires IsScrollSoFar(requests) && requests != [] && Resumed(requests)
    ensures Ascending(Received(requests))
    ensures NextOffset(requests).Some? ==> forall j :: j in Received(requests) ==> j < NextOffset(requests).value
    ensures (forall i :: 0 <= i < |requests| ==> id in requests[i].ids) ==>
              id in Received(requests) || (NextOffset(requests).Some? && NextOffset(requests).value <= id)
    ensures id in Received(requests) ==> exists i :: 0 <= i < |requests| && id in requests[i].ids
  {
    hide ScrollPage, Ascending;
    var n := |requests| - 1;
    var front, last := requests[..n], requests[n];
    assert Follows(requests, n);
    forall j
      ensures j in last.page.ids ==>
                (last.offset.Some? ==> last.offset.value <= j) && (last.page.next.Some? ==> j < last.page.next.value)
    {
      PageHolds(last.ids, last.limit, last.offset, j);
    }
    PageHolds(last.ids, last.limit, last.offset, id);
    if n == 0 {
      assert Received(front) == [];
      assert Received(requests) == last.page.ids;
    } else {
      FrontScrolls(requests);
      FrontResumed(requests);
      ReceivedSoFar(front, id);
      assert forall i :: 0 <= i < n ==> requests[i] == front[i];
      AscendingConcat(Received(front), last.page.ids, last.offset.value);
    }
  }

  lemma FrontScrolls(requests: seq<Request>)
    requires IsScrollSoFar(requests) && requests != []
    ensures IsScrollSoFar(requests[..|requests| - 1])
  {
    hide ScrollPage;
    var front := requests[..|requests| - 1];
    forall i | 0 <= i < |front| ensures Follows(front, i) {
      assert Follows(requests, i);
    }
  }

  lemma AscendingConcat(a: seq<int>, b: seq<int>, m: int)
    requires Ascending(a) && Ascending(b)
    requires (forall j :: j in a ==> j < m) && forall j :: j in b ==> m <= j
    ensures Ascending(a + b)
  {
    forall i, j | 0 <= i < j < |a + b| ensures (a + b)[i] < (a + b)[j] {
      if i < |a| <= j {
        assert a[i] in a && b[j - |a|] in b;
      }
    }
  }

  /**
    Exactly what a finished scroll delivers, whatever was upserted and deleted meanwhile. The
    ids come in strictly ascending order, so none twice. A point that was there all along is
    received if and only if the point of the last request was still there, or it comes before
    that lost point.
   */
  lemma ScrollExact(requests: seq<Request>, id: int)
    requires IsScroll(requests)
    ensures Ascending(Received(requests))
    ensures id in Received(requests) ==> exists i :: 0 <= i < |requests| && id in requests[i].ids
    ensures (forall i :: 0 <= i < |requests| ==> id in requests[i].ids) ==>
              (id in Received(requests) <==>
               Resumed(requests) || id < requests[|requests| - 1].offset.value)
  {
    hide ScrollPage, Received;
    if Resumed(requests) {
      ReceivedSoFar(requests, id);
    } else {
      LostScroll(requests, id);
    }
  }

  /** A scroll whose last point was lost has received what its requests before that had. */
  lemma LostScroll(requests: seq<Request>, id: int)
    requires IsScroll(requests) && !Resumed(requests)
    ensures |requests| > 1 && Ascending(Received(requests))
    ensures id in Received(requests) ==> exists i :: 0 <= i < |requests| && id in requests[i].ids
    ensures (forall i :: 0 <= i < |requests| ==> id in requests[i].ids) ==>
              (id in Received(requests) <==> id < requests[|requests| - 1].offset.value)
  {
    hide ScrollPage;
    var n := |requests| - 1;
    var front, last := requests[..n], requests[n];
    assert Follows(requests, n);
    LostOffsetEndsScroll(last.ids, last.limit, last.offset.value);
    assert Received(requests) == Received(front) + [] == Received(front);
    FrontScrolls(requests);
    FrontResumed(requests);
    ReceivedSoFar(front, id);
    assert forall i :: 0 <= i < n ==> requests[i] == front[i];
  }

  /**
    As long as the last point to resume at is not deleted, a scroll returns every point that
    was there all along, and each id once, in ascending order.
   */
  lemma ScrollIsComplete(requests: seq<Request>, id: int)
    requires IsScroll(requests) && Resumed(requests)
    ensures Ascending(Received(requests))
    ensures (forall i :: 0 <= i < |requests| ==> id in requests[i].ids) ==> id in Received(requests)
    ensures id in Received(requests) ==> exists i :: 0 <= i < |requests| && id in requests[i].ids
  {
    hide ScrollPage, Received;
    ScrollExact(requests, id);
  }

  /** Between two requests any points are upserted, and only points of the page just received deleted. */
  ghost predicate OnlySwept(requests: seq<Request>) {
    forall i :: 0 < i < |requests| ==>
      forall id :: id in requests[i - 1].ids && id !in requests[i - 1].page.ids ==> id in requests[i].ids
  }

  lemma {:induction false} SweptSoFar(requests: seq<Request>, id: int)
    requires IsScrollSoFar(requests) && requests != [] && OnlySwept(requests)
    requires id in requests[0].ids
    ensures Resumed(requests)
    ensures NextOffset(requests).Some? ==>
              NextOffset(requests).value in requests[|requests| - 1].ids &&
              NextOffset(requests).value !in requests[|requests| - 1].page.ids
    ensures id in Received(requests) ||
            (id in requests[|requests| - 1].ids && NextOffset(requests).Some? && NextOffset(requests).value <= id)
  {
    hide ScrollPage, Ascending;
    var n := |requests| - 1;
    var front, last := requests[..n], requests[n];
    assert Follows(requests, n);
    if n > 0 {
      FrontScrolls(requests);
      SweptSoFar(front, id);
      assert requests[n - 1] == front[n - 1];
    }
    PageHolds(last.ids, last.limit, last.offset, id);
    if last.page.next.Some? {
      PageHolds(last.ids, last.limit, last.offset, last.page.next.value);
    }
    assert Received(requests) == Received(front) + last.page.ids;
    assert n > 0 ==> Received(front) == Received(front[..n - 1]) + front[n - 1].page.ids;
  }

  /**
    How far a consumer has come that deletes points of the page it has just received, while
    others upsert: of the points present at the start it has received exactly those before the
    next offset, and each id once, in ascending order.
   */
  lemma SweepReceives(requests: seq<Request>, id: int)
    requires IsScrollSoFar(requests) && requests != [] && OnlySwept(requests) && id in requests[0].ids
    ensures Ascending(Received(requests))
    ensures id in Received(requests) <==> NextOffset(requests).None? || id < NextOffset(requests).value
  {
    hide ScrollPage, Received, Ascending;
    SweptSoFar(requests, id);
    ReceivedSoFar(requests, id);
  }

  /** Such a consumer that reads to the end receives every point present at the start. */
  lemma SweepIsComplete(requests: seq<Request>, id: int)
    requires IsScroll(requests) && OnlySwept(requests) && id in requests[0].ids
    ensures id in Received(requests) && Ascending(Received(requests))
  {
    hide ScrollPage, Received;
    SweptSoFar(requests, id);
    ScrollExact(requests, id);
  }

  /** Three points, one page of one; the point to resume at is deleted, and the third is never seen. */
  lemma ScrollCanLose()
    ensures var requests := [Request({1, 2, 3}, 1, None, ScrollPage({1, 2, 3}, 1, None)),
                             Request({1, 3}, 1, Some(2), ScrollPage({1, 3}, 1, Some(2)))];
      IsScroll(requests) && Received(requests) == [1]
  {
    SortedThree();
    LostOffsetEndsScroll({1, 3}, 1, 2);
    var first, second := Request({1, 2, 3}, 1, None, ScrollPage({1, 2, 3}, 1, None)),
                         Request({1, 3}, 1, Some(2), ScrollPage({1, 3}, 1, Some(2)));
    var requests := [first, second];
    assert first.page == Page([1], Some(2));
    hide ScrollPage;
    assert Follows(requests, 0) && Follows(requests, 1);
    assert requests[..1] == [first] && [first][..0] == [];
    assert Received([first]) == [1];
  }

  lemma SortedThree()
    ensures SortedIds({1, 2, 3}) == [1, 2, 3]
  {
    SortedAscend({1, 2, 3});
    var r := SortedIds({1, 2, 3});
    assert |r| == 3 by {
      assert {1, 2, 3} == {1} + {2} + {3};
    }
    assert r[0] in r && r[1] in r && r[2] in r;
  }

  /**
    A consumer that, between two requests, deletes only points of the page just received
    keeps the point to resume at; so do upserts.
   */
  lemma SweepKeepsOffset(ids: set<int>, limit: nat, offset: Option<int>, deleted: set<int>, upserted: set<int>)
    requires limit >= 1 && (offset.Some? ==> offset.value in ids)
    requires forall id :: id in deleted ==> id in ScrollPage(ids, limit, offset).ids
    ensures var next := ScrollPage(ids, limit, offset).next;
      next.Some? ==> next.value in ids - deleted + upserted
  {
    hide ScrollPage;
    var next := ScrollPage(ids, limit, offset).next;
    if next.Some? {
      PageHolds(ids, limit, offset, next.value);
    }
  }

  // ---- how many pages

  /** The requests of a scroll with one limit over a store that does not change. */
  ghost predicate Undisturbed(requests: seq<Request>, limit: nat, ids: set<int>) {
    forall i :: 0 <= i < |requests| ==> requests[i].ids == ids && requests[i].limit == limit
  }

  lemma IndexOfMember(ordered: seq<int>, offset: Option<int>, i: nat)
    requires Ascending(ordered) && i < |ordered| && offset == Some(ordered[i])
    ensures StartIndex(ordered, offset) == i
  {
    hide StartIndex;
    var k := StartIndex(ordered, offset);
    assert ordered[i] in ordered;
  }

  /** With nothing interleaved, page i starts at index i * limit. */
  lemma {:induction false} PageStart(requests: seq<Request>, limit: nat, ids: set<int>, i: nat)
    requires IsScroll(requests) && Undisturbed(requests, limit, ids) && i < |requests|
    ensures StartIndex(SortedIds(ids), requests[i].offset) == i * limit
    ensures i > 0 ==> i * limit < |ids|
  {
    hide SortedIds, StartIndex;
    assert Follows(requests, i);
    if i > 0 {
      var ordered := SortedIds(ids);
      PageStart(requests, limit, ids, i - 1);
      SortedAscend(ids);
      assert i * limit == (i - 1) * limit + limit;
      assert Follows(requests, i - 1);
      IndexOfMember(ordered, requests[i].offset, i * limit);
    }
  }

  /** With nothing interleaved a scroll takes max(1, ceil(n / limit)) pages. */
  lemma PageCount(requests: seq<Request>, limit: nat, ids: set<int>)
    requires IsScroll(requests) && Undisturbed(requests, limit, ids)
    ensures if ids == {} then |requests| == 1 else (|requests| - 1) * limit < |ids| <= |requests| * limit
  {
    hide SortedIds, StartIndex;
    var n := |requests| - 1;
    PageStart(requests, limit, ids, n);
    assert |requests| * limit == n * limit + limit;
    assert Follows(requests, n);
    assert n == 0 ==> n * limit == 0;
    assert n * limit >= 0;
  }
}
