/**
  The sweep that compares stored points with the database (`handle` and `_process_batch` of
  qdrant_consistency_sweep_handler.py).

  The verdict on a point is an input: a function of its id and payload, for a database that
  does not change meanwhile. A run scans at most `maxPoints` points, and the next one starts
  from the beginning again.
 */
module ConsistencySweep {
  import opened Text
  import opened Sets
  import opened VectorStore

  datatype Action = Keep | Delete | Repair

  type Judge = (int, Payload) -> Action

  /** What marking a point inactive writes into its payload. */
  const INACTIVE: Payload := map["is_active" := "false"]

  function ActionOn(store: Store, judge: Judge, id: int): Action
    requires id in store
  {
    judge(id, store[id].payload)
  }

  /** The store after the points of `done` have been dealt with. */
  function Swept(store: Store, done: set<int>, judge: Judge): Store {
    map id | id in store && !(id in done && ActionOn(store, judge, id).Delete?) ::
      if id in done && ActionOn(store, judge, id).Repair?
      then store[id].(payload := store[id].payload + INACTIVE) else store[id]
  }

  // ---- the first points of a store

  function Lesser(a: nat, b: nat): nat {
    if a < b then a else b
  }

  /** The ids of the `n` first points. */
  function FirstIds(ids: set<int>, n: nat): set<int> {
    var ordered := SortedIds(ids);
    IdSet(ordered[..Lesser(n, |ordered|)])
  }

  function Below(ids: set<int>, id: int): set<int> {
    set j | j in ids && j < id
  }

  lemma {:induction false} AscendingCount(s: seq<int>)
    requires Ascending(s)
    ensures |set x | x in s| == |s|
  {
    if s != [] {
      var n := |s| - 1;
      var front, last := s[..n], s[n];
      assert s == front + [last];
      AscendingCount(front);
      assert (set x | x in s) == (set x | x in front) + {last};
    }
  }

  /** The point at index `i` has exactly `i` points below it. */
  lemma BelowIndex(ids: set<int>, i: nat)
    requires i < |ids|
    ensures |Below(ids, SortedIds(ids)[i])| == i
  {
    var ordered := SortedIds(ids);
    SortedAscend(ids);
    hide SortedIds;
    var front := ordered[..i];
    AscendingCount(front);
    forall j ensures j in Below(ids, ordered[i]) <==> j in front {
      CutMembers(ordered, i, j);
    }
    assert Below(ids, ordered[i]) == set x | x in front;
  }

  /** A point is among the first `n` exactly when fewer than `n` points have a smaller id. */
  lemma FirstIdsAre(ids: set<int>, n: nat, id: int)
    ensures id in FirstIds(ids, n) <==> id in ids && |Below(ids, id)| < n
  {
    var ordered := SortedIds(ids);
    hide SortedIds, Below;
    var m := Lesser(n, |ordered|);
    if id in ids {
      assert id in ordered;
      var i :| 0 <= i < |ordered| && ordered[i] == id;
      BelowIndex(ids, i);
      if i < m {
        assert ordered[..m][i] == id;
      }
      if id in ordered[..m] {
        var k :| 0 <= k < m && ordered[..m][k] == id;
        BelowIndex(ids, k);
      }
    } else {
      forall k | 0 <= k < m ensures ordered[..m][k] != id {
        assert ordered[k] in ordered;
      }
    }
  }

  lemma FirstIdsCount(ids: set<int>, n: nat)
    ensures |FirstIds(ids, n)| == Lesser(n, |ids|) && FirstIds(ids, n) <= ids
    ensures FirstIds(ids, n) == ids <==> |ids| <= n
  {
    var ordered := SortedIds(ids);
    SortedAscend(ids);
    hide SortedIds;
    AscendingCount(ordered[..Lesser(n, |ordered|)]);
    forall id | id in FirstIds(ids, n) ensures id in ids {
      assert id in ordered;
    }
    if |ids| <= n {
      assert ordered[..Lesser(n, |ordered|)] == ordered;
    }
  }

  // ---- one run, nobody else writing

  lemma TailWithout(s: seq<int>, x: int)
    requires Ascending(s) && s != []
    ensures x in s[1..] <==> x in s && x != s[0]
  {
    assert s == [s[0]] + s[1..];
  }

  lemma {:induction false} AscendingUnique(a: seq<int>, b: seq<int>)
    requires Ascending(a) && Ascending(b) && forall x :: x in a <==> x in b
    ensures a == b
  {
    if a == [] {
      assert forall i :: 0 <= i < |b| ==> b[i] in a;
    } else {
      assert a[0] in a && b != [] && b[0] in b;
      FirstIsLeast(a, b[0]);
      FirstIsLeast(b, a[0]);
      forall x ensures x in a[1..] <==> x in b[1..] {
        TailWithout(a, x);
        TailWithout(b, x);
      }
      AscendingUnique(a[1..], b[1..]);
      assert a == [a[0]] + a[1..] && b == [b[0]] + b[1..];
    }
  }

  /** Where an ascending list is cut, the members before and behind the cut are told apart by the value there. */
  lemma {:induction false} CutMembers(a: seq<int>, s: nat, x: int)
    requires Ascending(a) && s < |a|
    ensures Ascending(a[s..])
    ensures x in a[s..] <==> x in a && x >= a[s]
    ensures x in a[..s] <==> x in a && x < a[s]
  {
    SliceHolds(a, s, |a|, x);
    SliceHolds(a, 0, s, x);
    assert a[s..|a|] == a[s..] && a[0..s] == a[..s];
    assert forall i :: 0 < i < |a| ==> a[0] < a[i];
  }

  /** From a point on that both lists have, with all that follows, they are equal. */
  lemma TailsEqual(ordered: seq<int>, rest: seq<int>, s: nat, start: nat)
    requires Ascending(ordered) && Ascending(rest) && forall x :: x in rest ==> x in ordered
    requires s < |ordered| && start < |rest| && rest[start] == ordered[s]
    requires forall x :: x in ordered && x >= ordered[s] ==> x in rest
    ensures ordered[s..] == rest[start..]
  {
    forall x ensures x in ordered[s..] <==> x in rest[start..] {
      CutMembers(ordered, s, x);
      CutMembers(rest, start, x);
    }
    CutMembers(ordered, s, 0);
    CutMembers(rest, start, 0);
    AscendingUnique(ordered[s..], rest[start..]);
  }

  /** The page of a list that starts at an index. */
  function PageFrom(ordered: seq<int>, s: nat, limit: nat): Page
    requires s <= |ordered|
  {
    var end := Lesser(s + limit, |ordered|);
    Page(ordered[s..end], if end < |ordered| then Some(ordered[end]) else None)
  }

  /** The page where the run has come to: the next points of the store as it was at the start. */
  lemma PageOfRest(ids: set<int>, left: set<int>, s: nat, limit: nat)
    requires s < |ids| && left <= ids && (s == 0 ==> left == ids)
    requires forall id :: id in ids && id >= SortedIds(ids)[s] ==> id in left
    ensures ScrollPage(left, limit, if s == 0 then None else Some(SortedIds(ids)[s])) ==
            PageFrom(SortedIds(ids), s, limit)
  {
    if s == 0 {
      hide *;
      PageSlice(left, limit, None);
      StartsAtFirst(SortedIds(left));
    } else {
      var start := RestStarts(ids, left, s);
      hide *;
      PageSlice(left, limit, Some(SortedIds(ids)[s]));
      TailPage(SortedIds(ids), SortedIds(left), s, start, limit);
    }
  }

  lemma StartsAtFirst(ordered: seq<int>)
    ensures StartIndex(ordered, None) == 0
  {}

  lemma RestStarts(ids: set<int>, left: set<int>, s: nat) returns (start: nat)
    requires s < |ids| && left <= ids
    requires forall id :: id in ids && id >= SortedIds(ids)[s] ==> id in left
    ensures start == StartIndex(SortedIds(left), Some(SortedIds(ids)[s])) < |left|
    ensures SortedIds(left)[start..] == SortedIds(ids)[s..]
  {
    var ordered, rest := SortedIds(ids), SortedIds(left);
    SortedAscend(ids);
    SortedAscend(left);
    hide SortedIds, StartIndex;
    assert ordered[s] in ordered;
    assert ordered[s] in rest;
    start := StartIndex(rest, Some(ordered[s]));
    hide Ascending;
    TailsEqual(ordered, rest, s, start);
  }

  lemma PageSlice(ids: set<int>, limit: nat, offset: Option<int>)
    ensures ScrollPage(ids, limit, offset) ==
            PageFrom(SortedIds(ids), StartIndex(SortedIds(ids), offset), limit)
  {
    hide SortedIds, StartIndex;
  }

  lemma TailPage(ordered: seq<int>, rest: seq<int>, s: nat, start: nat, limit: nat)
    requires s <= |ordered| && start <= |rest| && ordered[s..] == rest[start..]
    ensures PageFrom(ordered, s, limit) == PageFrom(rest, start, limit)
  {
    assert |ordered[s..]| == |rest[start..]|;
    var end, stop := Lesser(s + limit, |ordered|), Lesser(start + limit, |rest|);
    assert ordered[s..end] == ordered[s..][..end - s] && rest[start..stop] == rest[start..][..stop - start];
    if end < |ordered| {
      assert ordered[end] == ordered[s..][end - s] && rest[stop] == rest[start..][stop - start];
    }
  }

  /** Some points have been dealt with, the others are as before. */
  ghost predicate PartlySwept(before: Store, after: Store, done: set<int>, judge: Judge) {
    && after.Keys <= before.Keys
    && forall id :: id in before ==>
         (id in after && after[id] == before[id]) ||
         (id in done && SameAt(after, Swept(before, done, judge), id))
  }

  /** `_process_batch`: the points to delete first, then those to mark inactive. */
  method ProcessBatch(client: InMemoryClient, name: string, ids: seq<int>, judge: Judge) returns (r: Option<Error>)
    requires forall i :: 0 <= i < |ids| ==> ids[i] in client.Stored(name)
    modifies client`points
    ensures r.None? ==> client.Becomes(name, Swept(old(client.Stored(name)), IdSet(ids), judge))
    ensures r.Some? ==>
      && client.Becomes(name, client.Stored(name))
      && PartlySwept(old(client.Stored(name)), client.Stored(name), IdSet(ids), judge)
  {
    ghost var before := client.Stored(name);
    var deleteIds: seq<int>, repairIds: seq<int> := [], [];
    var stored := client.Stored(name);
    for i := 0 to |ids|
      invariant forall id :: id in deleteIds <==> id in ids[..i] && ActionOn(before, judge, id).Delete?
      invariant forall id :: id in repairIds <==> id in ids[..i] && ActionOn(before, judge, id).Repair?
    {
      assert ids[..i + 1] == ids[..i] + [ids[i]];
      match ActionOn(stored, judge, ids[i]) {
        case Delete => deleteIds := deleteIds + [ids[i]];
        case Repair => repairIds := repairIds + [ids[i]];
        case Keep =>
      }
    }
    assert ids[..|ids|] == ids;
    if deleteIds != [] {
      r := client.DeletePoints(name, deleteIds);
      if r.Some? {
        return;
      }
    }
    assert client.Becomes(name, Deleted(before, deleteIds)) by { DeletedNone(before); }
    BatchSwept(before, ids, deleteIds, repairIds, judge);
    if repairIds != [] {
      r := client.SetPayloadByPointIds(name, IdSet(repairIds), INACTIVE);
      if r.Some? {
        return;
      }
    }
    r := None;
  }

  lemma DeletedNone(store: Store)
    ensures Deleted(store, []) == store
  {}

  /** Deleting and then updating payloads comes to sweeping the batch; stopping in between to a part of it. */
  lemma BatchSwept(before: Store, ids: seq<int>, deleteIds: seq<int>, repairIds: seq<int>, judge: Judge)
    requires forall i :: 0 <= i < |ids| ==> ids[i] in before
    requires forall id :: id in deleteIds <==> id in ids && ActionOn(before, judge, id).Delete?
    requires forall id :: id in repairIds <==> id in ids && ActionOn(before, judge, id).Repair?
    ensures var done, left := IdSet(ids), Deleted(before, deleteIds);
      && PayloadSet(left, IdSet(repairIds), INACTIVE) == Swept(before, done, judge)
      && (repairIds == [] ==> left == Swept(before, done, judge))
      && PartlySwept(before, left, done, judge) && PartlySwept(before, before, done, judge)
  {
    var done, left := IdSet(ids), Deleted(before, deleteIds);
    var swept := Swept(before, done, judge);
    forall id | id in before
      ensures id in left <==> id in swept
      ensures id in swept ==>
                swept[id] == if id in repairIds then before[id].(payload := before[id].payload + INACTIVE)
                    else before[id]
    {
      assert id in deleteIds ==> id in done;
    }
    assert PayloadSet(left, IdSet(repairIds), INACTIVE) == swept;
  }

  /** Sweeping further points of the store as it was at the start. */
  lemma SweptMore(store: Store, done: set<int>, more: set<int>, judge: Judge)
    requires done !! more
    ensures Swept(Swept(store, done, judge), more, judge) == Swept(store, done + more, judge)
  {
    var first := Swept(store, done, judge);
    forall id | id in first && id !in done ensures first[id] == store[id] {}
  }

  lemma PartlySweptMore(store: Store, done: set<int>, more: set<int>, after: Store, judge: Judge)
    requires done !! more && PartlySwept(Swept(store, done, judge), after, more, judge)
    ensures PartlySwept(store, after, done + more, judge)
  {
    SweptMore(store, done, more, judge);
    var first := Swept(store, done, judge);
    forall id | id in store
      ensures (id in after && after[id] == store[id]) ||
              (id in done + more && SameAt(after, Swept(store, done + more, judge), id))
    {
      if id in done {
        assert SameAt(first, Swept(store, done + more, judge), id);
        if id in first {
          assert after[id] == first[id];
        }
      }
    }
  }

  /** What the run has reached: the first points dealt with, and where to go on. */
  ghost predicate Reached(store: Store, now: Store, scanned: nat, offset: Option<int>, judge: Judge) {
    var ordered := SortedIds(store.Keys);
    && scanned <= |ordered|
    && now == Swept(store, IdSet(ordered[..scanned]), judge)
    && (scanned < |ordered| ==> offset == if scanned == 0 then None else Some(ordered[scanned]))
  }

  lemma NothingReached(store: Store, judge: Judge)
    ensures Reached(store, store, 0, None, judge)
  {
    assert Swept(store, {}, judge) == store;
    assert IdSet(SortedIds(store.Keys)[..0]) == {};
  }

  /** The next page holds the next points. */
  lemma NextPage(store: Store, now: Store, scanned: nat, offset: Option<int>, judge: Judge, limit: nat)
    requires Reached(store, now, scanned, offset, judge) && limit >= 1 && scanned < |store.Keys|
    ensures var ordered := SortedIds(store.Keys);
      && ScrollPage(now.Keys, limit, offset) == PageFrom(ordered, scanned, limit)
      && forall i :: scanned <= i < |ordered| ==> ordered[i] in now
  {
    var ordered := SortedIds(store.Keys);
    SortedAscend(store.Keys);
    hide SortedIds, ScrollPage;
    var done := IdSet(ordered[..scanned]);
    forall id | id in store.Keys && id >= ordered[scanned] ensures id in now {
      CutMembers(ordered, scanned, id);
    }
    forall i | scanned <= i < |ordered| ensures ordered[i] in now {
      assert ordered[i] in ordered;
    }
    if scanned == 0 {
      assert done == {};
      assert now.Keys == store.Keys;
    }
    PageOfRest(store.Keys, now.Keys, scanned, limit);
  }

  /** A page has no point of the pages before it. */
  lemma PagesDisjoint(ordered: seq<int>, s: nat, end: nat)
    requires Ascending(ordered) && s < end <= |ordered|
    ensures IdSet(ordered[..s]) !! IdSet(ordered[s..end])
    ensures IdSet(ordered[..s]) + IdSet(ordered[s..end]) == IdSet(ordered[..end])
  {
    assert ordered[s..] == ordered[s..end] + ordered[end..];
    assert ordered[..end] == ordered[..s] + ordered[s..end];
    forall id | id in ordered[s..end] ensures id !in ordered[..s] {
      CutMembers(ordered, s, id);
    }
  }

  /** Dealing with the next page takes the run further. */
  lemma ReachedMore(store: Store, now: Store, scanned: nat, offset: Option<int>, judge: Judge, end: nat)
    requires Reached(store, now, scanned, offset, judge) && scanned < end <= |store.Keys|
    ensures var ordered := SortedIds(store.Keys);
      && IdSet(ordered[..scanned]) !! IdSet(ordered[scanned..end])
      && Reached(store, Swept(now, IdSet(ordered[scanned..end]), judge), end,
                 if end < |ordered| then Some(ordered[end]) else None, judge)
      && IdSet(ordered[..scanned]) + IdSet(ordered[scanned..end]) == IdSet(ordered[..end])
  {
    var ordered := SortedIds(store.Keys);
    SortedAscend(store.Keys);
    hide SortedIds, Swept, IdSet, Ascending;
    PagesDisjoint(ordered, scanned, end);
    SweptMore(store, IdSet(ordered[..scanned]), IdSet(ordered[scanned..end]), judge);
  }

  /**
    `handle`. With nobody else writing, a run deals with exactly the first `maxPoints` points,
    for every batch size. If the store fails on the way, some of these have been dealt with and
    everything else is as before.
   */
  method Sweep(client: InMemoryClient, name: string, batchSize: nat, maxPoints: nat, judge: Judge)
    returns (r: Option<Error>, scanned: nat)
    requires batchSize >= 1 && maxPoints >= 1
    modifies client`points
    ensures r.None? ==> scanned == Lesser(maxPoints, |old(client.Stored(name)).Keys|)
    ensures r.None? ==>
      client.Becomes(name, Swept(old(client.Stored(name)), FirstIds(old(client.Stored(name)).Keys, maxPoints), judge))
    ensures r.Some? ==>
      && client.Becomes(name, client.Stored(name))
      && PartlySwept(old(client.Stored(name)), client.Stored(name),
                     FirstIds(old(client.Stored(name)).Keys, maxPoints), judge)
  {
    hide SortedIds, ScrollPage, Swept, Reached, PartlySwept, IdSet, FirstIds;
    ghost var store := client.Stored(name);
    ghost var count := |store.Keys|;
    scanned := 0;
    var offset: Option<int> := None;
    NothingReached(store, judge);
    while scanned < maxPoints
      invariant scanned <= maxPoints && (scanned < count || scanned == count == 0)
      invariant Reached(store, client.Stored(name), scanned, offset, judge)
      invariant client.Becomes(name, client.Stored(name))
      decreases maxPoints - scanned
    {
      var remaining := maxPoints - scanned;
      var limit := Lesser(batchSize, remaining);
      ghost var now := client.Stored(name);
      var page := client.ScrollPoints(name, limit, offset);
      PageReaches(store, now, scanned, offset, judge, limit);
      if page.ids == [] {
        break;
      }
      r := ProcessBatch(client, name, page.ids, judge);
      if r.Some? {
        StoppedWithin(store, now, client.Stored(name), scanned, offset, page.ids, maxPoints, judge);
        return;
      }
      scanned := scanned + |page.ids|;
      offset := page.next;
      if offset.None? {
        break;
      }
    }
    assert client.Stored(name) == Swept(store, FirstIds(store.Keys, maxPoints), judge) by {
      AllReached(store, client.Stored(name), scanned, offset, maxPoints, judge);
    }
    r := None;
  }

  /** What the page holds, and where the run is once it has been dealt with. */
  lemma PageReaches(store: Store, now: Store, scanned: nat, offset: Option<int>, judge: Judge, limit: nat)
    requires Reached(store, now, scanned, offset, judge) && limit >= 1
    requires scanned < |store.Keys| || scanned == |store.Keys| == 0
    ensures var page := ScrollPage(now.Keys, limit, offset);
      var end := scanned + |page.ids|;
      && |page.ids| <= limit && end <= |store.Keys| && (page.ids == [] ==> end == |store.Keys|)
      && (page.next.Some? <==> end < |store.Keys|) && (page.next.Some? ==> |page.ids| == limit)
      && (forall i :: 0 <= i < |page.ids| ==> page.ids[i] in now)
      && page.ids == SortedIds(store.Keys)[scanned..end]
      && (page.ids != [] ==> Reached(store, Swept(now, IdSet(page.ids), judge), end, page.next, judge))
  {
    var ordered, page := SortedIds(store.Keys), ScrollPage(now.Keys, limit, offset);
    hide SortedIds, ScrollPage, Swept, Reached, IdSet;
    if |store.Keys| == 0 {
      EmptyPage(store, now, offset, judge, limit);
    } else {
      NextPage(store, now, scanned, offset, judge, limit);
      assert forall i :: 0 <= i < |page.ids| ==> page.ids[i] == ordered[scanned + i];
      ReachedMore(store, now, scanned, offset, judge, scanned + |page.ids|);
    }
  }

  lemma EmptyPage(store: Store, now: Store, offset: Option<int>, judge: Judge, limit: nat)
    requires |store.Keys| == 0 && Reached(store, now, 0, offset, judge)
    ensures ScrollPage(now.Keys, limit, offset) == Page([], None)
  {
    assert now.Keys == {};
  }

  lemma AllReached(store: Store, now: Store, scanned: nat, offset: Option<int>, maxPoints: nat, judge: Judge)
    requires Reached(store, now, scanned, offset, judge) && scanned == Lesser(maxPoints, |store.Keys|)
    ensures now == Swept(store, FirstIds(store.Keys, maxPoints), judge)
  {
    hide SortedIds, Swept;
  }

  lemma StoppedWithin(store: Store, now: Store, after: Store, scanned: nat, offset: Option<int>, page: seq<int>,
                      maxPoints: nat, judge: Judge)
    requires Reached(store, now, scanned, offset, judge) && page != []
    requires scanned + |page| <= |store.Keys| && scanned + |page| <= maxPoints
    requires page == SortedIds(store.Keys)[scanned..scanned + |page|] && PartlySwept(now, after, IdSet(page), judge)
    ensures PartlySwept(store, after, FirstIds(store.Keys, maxPoints), judge)
  {
    var ordered, end := SortedIds(store.Keys), scanned + |page|;
    ReachedMore(store, now, scanned, offset, judge, end);
    FirstsGrow(store.Keys, end, maxPoints);
    hide SortedIds, Swept, PartlySwept, IdSet, FirstIds;
    var done, more := IdSet(ordered[..scanned]), IdSet(page);
    PartlySweptMore(store, done, more, after, judge);
    PartlySweptWider(store, after, done + more, FirstIds(store.Keys, maxPoints), judge);
  }

  lemma FirstsGrow(ids: set<int>, end: nat, n: nat)
    requires end <= Lesser(n, |ids|)
    ensures IdSet(SortedIds(ids)[..end]) <= FirstIds(ids, n)
  {
    hide SortedIds;
    var ordered := SortedIds(ids);
    var all := ordered[..Lesser(n, |ordered|)];
    assert all == all[..end] + all[end..] && all[..end] == ordered[..end];
  }

  lemma PartlySweptWider(store: Store, after: Store, done: set<int>, wider: set<int>, judge: Judge)
    requires PartlySwept(store, after, done, judge) && done <= wider
    ensures PartlySwept(store, after, wider, judge)
  {
    forall id | id in store && id in done
      ensures SameAt(Swept(store, done, judge), Swept(store, wider, judge), id)
    {}
  }

  // ---- one run, others upserting

  /** The requests of a run: as many points as the cap still allows, until it is used up or nothing is left. */
  ghost predicate IsSweep(requests: seq<Request>, batchSize: nat, maxPoints: nat) {
    && requests != [] && IsScrollSoFar(requests)
    && (forall i :: 0 <= i < |requests| ==> WithinCap(requests, batchSize, maxPoints, i))
    && (NextOffset(requests).None? || |Received(requests)| >= maxPoints)
  }

  ghost predicate WithinCap(requests: seq<Request>, batchSize: nat, maxPoints: nat, i: nat)
    requires i < |requests|
  {
    var scanned := |Received(requests[..i])|;
    scanned < maxPoints && requests[i].limit == Lesser(batchSize, maxPoints - scanned)
  }

  /**
    A run that only others' upserts interfere with: it receives at most `maxPoints` points, and
    of those stored at the start exactly the ones before the place where it stopped, or all
    when it read to the end.
   */
  lemma SweepExact(requests: seq<Request>, batchSize: nat, maxPoints: nat, id: int)
    requires IsSweep(requests, batchSize, maxPoints) && OnlySwept(requests) && id in requests[0].ids
    ensures Ascending(Received(requests)) && |Received(requests)| <= maxPoints
    ensures NextOffset(requests).Some? ==> |Received(requests)| == maxPoints
    ensures id in Received(requests) <==> NextOffset(requests).None? || id < NextOffset(requests).value
  {
    SweepReceives(requests, id);
    var n := |requests| - 1;
    assert WithinCap(requests, batchSize, maxPoints, n) && Follows(requests, n);
    hide ScrollPage, Ascending;
    PageAtMost(requests[n]);
  }

  lemma PageAtMost(r: Request)
    requires r.limit >= 1 && r.page == ScrollPage(r.ids, r.limit, r.offset)
    ensures |r.page.ids| <= r.limit
  {}

  ghost predicate NothingAdded(requests: seq<Request>) {
    forall i :: 0 < i < |requests| ==> requests[i].ids <= requests[i - 1].ids
  }

  lemma {:induction false} ReceivedAtStart(requests: seq<Request>)
    requires requests != [] && IsScrollSoFar(requests) && NothingAdded(requests)
    ensures requests[|requests| - 1].ids <= requests[0].ids
    ensures forall id :: id in Received(requests) ==> id in requests[0].ids
  {
    hide ScrollPage;
    var n := |requests| - 1;
    var front, last := requests[..n], requests[n];
    assert Follows(requests, n);
    if n > 0 {
      FrontScrolls(requests);
      ReceivedAtStart(front);
      assert front[n - 1] == requests[n - 1];
    } else {
      assert Received(front) == [];
    }
    forall id | id in last.page.ids ensures id in last.ids {
      PageIsStored(last, id);
    }
    assert Received(requests) == Received(front) + last.page.ids;
  }

  lemma PageIsStored(r: Request, id: int)
    requires r.page == ScrollPage(r.ids, r.limit, r.offset) && id in r.page.ids
    ensures id in r.ids
  {
    PageSlice(r.ids, r.limit, r.offset);
    hide SortedIds, StartIndex, ScrollPage;
    var ordered, start := SortedIds(r.ids), StartIndex(SortedIds(r.ids), r.offset);
    var i :| 0 <= i < |r.page.ids| && r.page.ids[i] == id;
    assert ordered[start + i] == id;
  }

  /**
    With nobody else writing, a run receives a point exactly when fewer than `maxPoints` points
    stored at the start have a smaller id, whatever it deletes on the way.
   */
  lemma SweepReaches(requests: seq<Request>, batchSize: nat, maxPoints: nat, id: int)
    requires IsSweep(requests, batchSize, maxPoints) && OnlySwept(requests) && NothingAdded(requests)
    requires id in requests[0].ids
    ensures id in Received(requests) <==> |Below(requests[0].ids, id)| < maxPoints
  {
    var ids, received := requests[0].ids, IdSet(Received(requests));
    forall j | j in ids
      ensures j in Received(requests) <==> NextOffset(requests).None? || j < NextOffset(requests).value
    {
      SweepExact(requests, batchSize, maxPoints, j);
    }
    SweepExact(requests, batchSize, maxPoints, id);
    ReceivedAtStart(requests);
    hide IsSweep, OnlySwept, NothingAdded, Received;
    AscendingCount(Received(requests));
    if id in Received(requests) {
      assert Below(ids, id) <= received - {id};
      SubsetSize(Below(ids, id), received - {id});
    } else {
      assert received <= Below(ids, id);
      SubsetSize(received, Below(ids, id));
    }
  }

  /** Such a run receives every point if and only if there are at most `maxPoints`. */
  lemma SweepCompleteIff(requests: seq<Request>, batchSize: nat, maxPoints: nat)
    requires IsSweep(requests, batchSize, maxPoints) && OnlySwept(requests) && NothingAdded(requests)
    ensures (forall id :: id in requests[0].ids ==> id in Received(requests)) <==> |requests[0].ids| <= maxPoints
  {
    var ids := requests[0].ids;
    hide IsSweep, OnlySwept, NothingAdded, Received, SortedIds;
    forall id | id in ids ensures id in Received(requests) <==> id in FirstIds(ids, maxPoints) {
      SweepReaches(requests, batchSize, maxPoints, id);
      FirstIdsAre(ids, maxPoints, id);
    }
    FirstIdsCount(ids, maxPoints);
    hide FirstIds;
    if forall id :: id in ids ==> id in Received(requests) {
      assert ids <= FirstIds(ids, maxPoints);
    }
  }

  // ---- run after run

  /** The store after a run that nothing stopped. */
  function SweptOnce(store: Store, judge: Judge, maxPoints: nat): Store {
    Swept(store, FirstIds(store.Keys, maxPoints), judge)
  }

  function AfterRuns(store: Store, judge: Judge, maxPoints: nat, k: nat): Store {
    if k == 0 then store else AfterRuns(SweptOnce(store, judge, maxPoints), judge, maxPoints, k - 1)
  }

  /** Run number `k`, counted from 0, scans the point. */
  predicate ScannedBy(store: Store, judge: Judge, maxPoints: nat, k: nat, id: int) {
    id in FirstIds(AfterRuns(store, judge, maxPoints, k).Keys, maxPoints)
  }

  /** Marking a point inactive does not change whether it is to be deleted. */
  ghost predicate Steady(judge: Judge) {
    forall id, payload :: judge(id, payload + INACTIVE).Delete? <==> judge(id, payload).Delete?
  }

  /** The points below `id` that the sweep does not delete. */
  function KeptBelow(store: Store, judge: Judge, id: int): set<int> {
    set j | j in store && j < id && !ActionOn(store, judge, j).Delete?
  }

  lemma RunKeeps(store: Store, judge: Judge, maxPoints: nat, id: int)
    requires Steady(judge)
    ensures var next := SweptOnce(store, judge, maxPoints);
      && KeptBelow(next, judge, id) == KeptBelow(store, judge, id)
      && (id in store && id !in FirstIds(store.Keys, maxPoints) ==> id in next && next[id] == store[id])
  {
    hide FirstIds;
    var next := SweptOnce(store, judge, maxPoints);
    forall j | j in next ensures j in store &&
                                       (ActionOn(next, judge, j).Delete? <==> ActionOn(store, judge, j).Delete?) {}
    assert KeptBelow(next, judge, id) == KeptBelow(store, judge, id);
  }

  /** Behind `maxPoints` points that stay, a point is never scanned. */
  lemma {:induction false} NeverScanned(store: Store, judge: Judge, maxPoints: nat, k: nat, id: int)
    requires Steady(judge) && id in store && |KeptBelow(store, judge, id)| >= maxPoints
    ensures !ScannedBy(store, judge, maxPoints, k, id)
    ensures id in AfterRuns(store, judge, maxPoints, k) && AfterRuns(store, judge, maxPoints, k)[id] == store[id]
    decreases k
  {
    hide FirstIds, Steady, SweptOnce;
    assert KeptBelow(store, judge, id) <= Below(store.Keys, id);
    SubsetSize(KeptBelow(store, judge, id), Below(store.Keys, id));
    FirstIdsAre(store.Keys, maxPoints, id);
    if k > 0 {
      RunKeeps(store, judge, maxPoints, id);
      NeverScanned(SweptOnce(store, judge, maxPoints), judge, maxPoints, k - 1, id);
    }
  }

  /** With fewer than `maxPoints` points before it that stay, a point is scanned by some run. */
  lemma {:induction false} ScannedSometime(store: Store, judge: Judge, maxPoints: nat, id: int) returns (k: nat)
    requires Steady(judge) && id in store && |KeptBelow(store, judge, id)| < maxPoints
    ensures ScannedBy(store, judge, maxPoints, k, id)
    decreases |Below(store.Keys, id)|
  {
    FirstIdsAre(store.Keys, maxPoints, id);
    if |Below(store.Keys, id)| < maxPoints {
      k := 0;
    } else {
      var next := SweptOnce(store, judge, maxPoints);
      BelowShrinks(store, judge, maxPoints, id);
      RunKeeps(store, judge, maxPoints, id);
      hide FirstIds, Steady, SweptOnce;
      k := ScannedSometime(next, judge, maxPoints, id);
      k := k + 1;
    }
  }

  lemma BelowShrinks(store: Store, judge: Judge, maxPoints: nat, id: int)
    requires id in store && |KeptBelow(store, judge, id)| < maxPoints <= |Below(store.Keys, id)|
    ensures |Below(SweptOnce(store, judge, maxPoints).Keys, id)| < |Below(store.Keys, id)|
  {
    var ids, first := store.Keys, FirstIds(store.Keys, maxPoints);
    var next := SweptOnce(store, judge, maxPoints);
    FirstIdsCount(ids, maxPoints);
    SubsetSize(Below(ids, id), ids);
    forall j | j in first ensures j < id {
      FirstIdsAre(ids, maxPoints, j);
      if id <= j {
        assert Below(ids, id) <= Below(ids, j);
        SubsetSize(Below(ids, id), Below(ids, j));
      }
    }
    hide FirstIds;
    if forall j :: j in first ==> j in KeptBelow(store, judge, id) {
      SubsetSize(first, KeptBelow(store, judge, id));
    }
    var d :| d in first && d !in KeptBelow(store, judge, id);
    assert d in Below(ids, id) && d !in Below(next.Keys, id);
    assert Below(next.Keys, id) <= Below(ids, id) - {d};
    SubsetSize(Below(next.Keys, id), Below(ids, id) - {d});
  }

  /**
    However often the sweep is run, with nobody else writing, a point is scanned by some run if
    and only if fewer than `maxPoints` points with smaller ids are never deleted.
   */
  lemma ScannedIff(store: Store, judge: Judge, maxPoints: nat, id: int)
    requires Steady(judge) && id in store
    ensures (exists k: nat :: ScannedBy(store, judge, maxPoints, k, id)) <==>
            |KeptBelow(store, judge, id)| < maxPoints
  {
    hide ScannedBy, KeptBelow, Steady;
    if |KeptBelow(store, judge, id)| < maxPoints {
      var k := ScannedSometime(store, judge, maxPoints, id);
    } else {
      forall k: nat ensures !ScannedBy(store, judge, maxPoints, k, id) {
        NeverScanned(store, judge, maxPoints, k, id);
      }
    }
  }

  /** Three sound points and a cap of two: no run ever looks at the third. */
  lemma CapHidesTheRest(store: Store, judge: Judge)
    requires store.Keys == {1, 2, 3} && forall id, payload :: judge(id, payload) == Keep
    ensures forall k: nat :: !ScannedBy(store, judge, 2, k, 3)
  {
    assert KeptBelow(store, judge, 3) == {1, 2};
    hide ScannedBy, KeptBelow;
    ScannedIff(store, judge, 2, 3);
  }
}
