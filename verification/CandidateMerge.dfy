/**
  Merging the candidates of several retrieval attempts (`merge_dedupe_candidates`,
  `_prefer_candidate`, `_merge_payloads` of agentic.py).

  Scores are real numbers. A candidate is reduced to the ids of its chunk and its document,
  its score, its rank and its payload; the `agentic_*` notes added to the payload are
  represented by the set of source names.
 */
module CandidateMerge {
  import opened Text
  import opened Sets

  datatype Value = Null | Number(n: real) | Other(tag: int)

  type Payload = map<string, Value>

  datatype Candidate = Candidate(id: int, document: int, score: real, rank: nat, payload: Payload)

  /** The role and strategy of an attempt, as one source name, and what the attempt returned. */
  datatype Batch = Batch(source: string, candidates: seq<Candidate>)

  datatype Entry = Entry(candidate: Candidate, payload: Payload, sources: set<string>)

  /** The order of the result: higher score first, then lower chunk id. */
  predicate Better(a: (int, real), b: (int, real)) {
    a.1 > b.1 || (a.1 == b.1 && a.0 < b.0)
  }

  function Keyed(c: Candidate): (int, real) {
    (c.id, c.score)
  }

  // ---- payloads

  const SCORE_KEYS: set<string> := {"dense_score", "sparse_score", "fused_score"}

  /** `_max_numeric` */
  function MaxNumeric(left: Value, right: Value): Value {
    if !left.Number? then right
    else if !right.Number? then left
    else if left.n >= right.n then left else right
  }

  function Lookup(p: Payload, key: string): Value {
    if key in p then p[key] else Null
  }

  function MergeValue(key: string, left: Value, right: Value): Value {
    if key in SCORE_KEYS then MaxNumeric(left, right)
    else if left.Null? then right
    else left
  }

  function MergedPayload(left: Payload, right: Payload): Payload {
    map key | key in left.Keys + right.Keys ::
      if key in right then MergeValue(key, Lookup(left, key), right[key]) else left[key]
  }

  /** `_merge_payloads` */
  method MergePayloads(left: Payload, right: Payload) returns (merged: Payload)
    ensures merged == MergedPayload(left, right)
  {
    merged := left;
    var pending := right.Keys;
    while pending != {}
      invariant pending <= right.Keys
      invariant merged.Keys == left.Keys + (right.Keys - pending)
      invariant forall key :: key in merged ==>
        merged[key] ==
          if key in right && key !in pending then MergeValue(key, Lookup(left, key), right[key]) else left[key]
      decreases pending
    {
      var key :| key in pending;
      pending := pending - {key};
      var value := right[key];
      if key in SCORE_KEYS {
        merged := merged[key := MaxNumeric(Lookup(merged, key), value)];
      } else if key !in merged || merged[key].Null? {
        merged := merged[key := value];
      }
    }
  }

  // ---- collecting by chunk id

  /** `_prefer_candidate` */
  function Prefer(left: Candidate, right: Candidate): Candidate {
    if right.score > left.score then right
    else if right.score == left.score then (if right.id < left.id then right else left)
    else left
  }

  function Absorb(e: Entry, source: string, c: Candidate): Entry {
    Entry(Prefer(e.candidate, c), MergedPayload(e.payload, c.payload), e.sources + {source})
  }

  /** The position of chunk `id` in the dict, which lists its entries in insertion order. */
  function IndexOf(entries: seq<Entry>, id: int): (i: nat)
    ensures i <= |entries|
    ensures i < |entries| ==> entries[i].candidate.id == id
    ensures forall j :: 0 <= j < i ==> entries[j].candidate.id != id
  {
    if entries == [] || entries[0].candidate.id == id then 0 else 1 + IndexOf(entries[1..], id)
  }

  function Upsert(entries: seq<Entry>, source: string, c: Candidate): seq<Entry> {
    var i := IndexOf(entries, c.id);
    if i < |entries| then entries[i := Absorb(entries[i], source, c)]
    else entries + [Entry(c, c.payload, {source})]
  }

  /** A candidate together with the attempt that returned it. */
  datatype Seen = Seen(source: string, candidate: Candidate)

  function SeenIn(b: Batch): (r: seq<Seen>)
    ensures |r| == |b.candidates|
    ensures forall i :: 0 <= i < |r| ==> r[i] == Seen(b.source, b.candidates[i])
  {
    seq(|b.candidates|, i requires 0 <= i < |b.candidates| => Seen(b.source, b.candidates[i]))
  }

  /** All candidates of all attempts, in the order the loops visit them. */
  function AllSeen(batches: seq<Batch>): seq<Seen> {
    if batches == [] then []
    else AllSeen(batches[..|batches| - 1]) + SeenIn(batches[|batches| - 1])
  }

  function Gather(seen: seq<Seen>): seq<Entry> {
    if seen == [] then []
    else
      var last := seen[|seen| - 1];
      Upsert(Gather(seen[..|seen| - 1]), last.source, last.candidate)
  }

  // ---- ranking

  function Insert(e: Entry, ranked: seq<Entry>): seq<Entry> {
    if ranked == [] || Better(Keyed(e.candidate), Keyed(ranked[0].candidate)) then [e] + ranked
    else [ranked[0]] + Insert(e, ranked[1..])
  }

  /** The entries in the order of the result. */
  function Ranked(entries: seq<Entry>): seq<Entry> {
    if entries == [] then [] else Insert(entries[0], Ranked(entries[1..]))
  }

  function Numbered(entries: seq<Entry>): (r: seq<Candidate>)
    ensures |r| == |entries|
    ensures forall i :: 0 <= i < |r| ==>
      r[i] == entries[i].candidate.(rank := i + 1, payload := entries[i].payload)
  {
    seq(|entries|, i requires 0 <= i < |entries| =>
        entries[i].candidate.(rank := i + 1, payload := entries[i].payload))
  }

  function Prefix<T>(s: seq<T>, limit: nat): seq<T> {
    if limit < |s| then s[..limit] else s
  }

  function Merge(batches: seq<Batch>, limit: nat): seq<Candidate> {
    Numbered(Prefix(Ranked(Gather(AllSeen(batches))), limit))
  }

  /** `merge_dedupe_candidates` */
  method MergeDedupeCandidates(batches: seq<Batch>, limit: nat) returns (r: seq<Candidate>)
    ensures r == Merge(batches, limit)
  {
    hide Gather, MergedPayload, Prefer, Ranked, SeenIn;
    var byChunkId: seq<Entry> := [];
    GatherNothing();
    for a := 0 to |batches|
      invariant byChunkId == Gather(AllSeen(batches[..a]))
    {
      var batch := batches[a];
      ghost var before := AllSeen(batches[..a]);
      assert batches[..a + 1][..a] == batches[..a];
      assert before + SeenIn(batch)[..0] == before;
      for c := 0 to |batch.candidates|
        invariant byChunkId == Gather(before + SeenIn(batch)[..c])
      {
        var candidate := batch.candidates[c];
        GatherStep(before, batch, c);
        var i := IndexOf(byChunkId, candidate.id);
        if i == |byChunkId| {
          byChunkId := byChunkId + [Entry(candidate, candidate.payload, {batch.source})];
          continue;
        }
        var existing := byChunkId[i];
        var payload := MergePayloads(existing.payload, candidate.payload);
        var primary := Prefer(existing.candidate, candidate);
        byChunkId := byChunkId[i := Entry(primary, payload, existing.sources + {batch.source})];
      }
      assert SeenIn(batch)[..|batch.candidates|] == SeenIn(batch);
    }
    assert batches[..|batches|] == batches;
    var ranked := Ranked(byChunkId);
    r := Numbered(Prefix(ranked, limit));
  }

  lemma GatherNothing()
    ensures Gather([]) == []
  {}

  lemma GatherStep(before: seq<Seen>, batch: Batch, c: nat)
    requires c < |batch.candidates|
    ensures Gather(before + SeenIn(batch)[..c + 1]) ==
            Upsert(Gather(before + SeenIn(batch)[..c]), batch.source, batch.candidates[c])
  {
    hide Upsert;
    var more := before + SeenIn(batch)[..c + 1];
    assert more[..|more| - 1] == before + SeenIn(batch)[..c];
  }

  // ---- the best score per chunk

  /** Every chunk id that was returned, with its highest score. */
  function Best(seen: seq<Seen>): map<int, real> {
    if seen == [] then map[]
    else
      var best, c := Best(seen[..|seen| - 1]), seen[|seen| - 1].candidate;
      best[c.id := if c.id in best && best[c.id] >= c.score then best[c.id] else c.score]
  }

  /** `Best` said outright: a score is attained, and nothing returned for the chunk exceeds it. */
  ghost predicate IsBest(seen: seq<Seen>, best: map<int, real>) {
    && (forall id :: id in best ==> exists s :: s in seen && Keyed(s.candidate) == (id, best[id]))
    && (forall s :: s in seen ==> s.candidate.id in best && s.candidate.score <= best[s.candidate.id])
  }

  lemma {:induction false} BestIsBest(seen: seq<Seen>)
    ensures IsBest(seen, Best(seen))
  {
    if seen != [] {
      var front, last := seen[..|seen| - 1], seen[|seen| - 1];
      assert seen == front + [last];
      BestIsBest(front);
      var best := Best(seen);
      forall id | id in best ensures exists s :: s in seen && Keyed(s.candidate) == (id, best[id]) {
        if best[id] == last.candidate.score && id == last.candidate.id {
          assert last in seen;
        } else {
          var s :| s in front && Keyed(s.candidate) == (id, Best(front)[id]);
          assert s in seen;
        }
      }
    }
  }

  lemma BestUnique(a: seq<Seen>, best: map<int, real>, other: map<int, real>)
    requires IsBest(a, best) && IsBest(a, other)
    ensures best == other
  {
    forall id | id in best ensures id in other && best[id] == other[id] {
      var s :| s in a && Keyed(s.candidate) == (id, best[id]);
      var t :| t in a && Keyed(t.candidate) == (id, other[id]);
    }
    forall id | id in other ensures id in best {
      var t :| t in a && Keyed(t.candidate) == (id, other[id]);
    }
  }

  // ---- the collected entries

  ghost predicate DistinctIds(entries: seq<Entry>) {
    forall i, j :: 0 <= i < j < |entries| ==> entries[i].candidate.id != entries[j].candidate.id
  }

  /** One entry per chunk id of a score table, with the score of the table. */
  ghost predicate Collects(best: map<int, real>, entries: seq<Entry>) {
    && DistinctIds(entries)
    && (forall i :: 0 <= i < |entries| ==>
          entries[i].candidate.id in best && entries[i].candidate.score == best[entries[i].candidate.id])
    && (forall id :: id in best ==> IndexOf(entries, id) < |entries|)
  }

  lemma {:induction false} GatherCollects(seen: seq<Seen>)
    ensures Collects(Best(seen), Gather(seen))
  {
    hide Absorb, Upsert, Collects;
    if seen == [] {
      assert Collects(map[], []) by { NothingCollected(); }
    } else {
      var front, last := seen[..|seen| - 1], seen[|seen| - 1];
      GatherCollects(front);
      BestLast(seen);
      UpsertCollects(Best(front), Best(seen), Gather(front), last.source, last.candidate);
    }
  }

  lemma NothingCollected()
    ensures Collects(map[], [])
  {}

  lemma UpsertCollects(best: map<int, real>, more: map<int, real>, before: seq<Entry>, source: string, c: Candidate)
    requires Collects(best, before)
    requires more == best[c.id := if c.id in best && best[c.id] >= c.score then best[c.id] else c.score]
    ensures Collects(more, Upsert(before, source, c))
  {
    hide Absorb, Upsert, DistinctIds, IndexOf;
    UpsertKeeps(before, source, c);
    var after := Upsert(before, source, c);
    forall i | 0 <= i < |after|
      ensures after[i].candidate.id in more && after[i].candidate.score == more[after[i].candidate.id]
    {
      if i >= |before| {
        assert c.id !in best;
      } else if before[i].candidate.id == c.id {
        AbsorbScore(before[i], source, c);
      }
    }
  }

  lemma BestLast(seen: seq<Seen>)
    requires seen != []
    ensures var best, c := Best(seen[..|seen| - 1]), seen[|seen| - 1].candidate;
      Best(seen) == best[c.id := if c.id in best && best[c.id] >= c.score then best[c.id] else c.score]
  {}

  lemma AbsorbScore(e: Entry, source: string, c: Candidate)
    requires e.candidate.id == c.id
    ensures var r := Absorb(e, source, c).candidate;
      r.id == c.id && r.score == if e.candidate.score >= c.score then e.candidate.score else c.score
  {}

  /** `Upsert` touches the entry of one chunk, at the place it has or at the end. */
  lemma UpsertKeeps(before: seq<Entry>, source: string, c: Candidate)
    requires DistinctIds(before)
    ensures var after := Upsert(before, source, c);
      && DistinctIds(after) && |before| <= |after|
      && (forall i :: 0 <= i < |before| ==> after[i].candidate.id == before[i].candidate.id)
      && (forall i :: 0 <= i < |before| && before[i].candidate.id != c.id ==> after[i] == before[i])
      && (forall i :: 0 <= i < |before| && before[i].candidate.id == c.id ==> after[i] == Absorb(before[i], source, c))
      && (forall i :: |before| <= i < |after| ==> after[i] == Entry(c, c.payload, {source}))
      && (|after| > |before| <==> IndexOf(before, c.id) == |before|)
      && (forall id :: IndexOf(before, id) < |before| ==> IndexOf(after, id) == IndexOf(before, id))
      && IndexOf(after, c.id) < |after|
  {
    hide MergedPayload;
    var after := Upsert(before, source, c);
    var k := IndexOf(before, c.id);
    forall id | IndexOf(before, id) < |before| ensures IndexOf(after, id) == IndexOf(before, id) {
      var i := IndexOf(before, id);
      assert after[i].candidate.id == id;
    }
    assert after[k].candidate.id == c.id;
  }

  // ---- the ranked entries

  ghost predicate InOrder(entries: seq<Entry>) {
    forall i, j :: 0 <= i < j < |entries| ==> Better(Keyed(entries[i].candidate), Keyed(entries[j].candidate))
  }

  lemma {:induction false} InsertKeepsEntries(e: Entry, ranked: seq<Entry>)
    ensures multiset(Insert(e, ranked)) == multiset(ranked) + multiset{e}
    ensures forall x :: x in Insert(e, ranked) <==> x == e || x in ranked
  {
    if ranked != [] {
      var rest := ranked[1..];
      assert ranked == [ranked[0]] + rest;
      InsertKeepsEntries(e, rest);
    }
  }

  lemma {:induction false} InsertKeepsOrder(e: Entry, ranked: seq<Entry>)
    requires InOrder(ranked)
    requires forall i :: 0 <= i < |ranked| ==> ranked[i].candidate.id != e.candidate.id
    ensures InOrder(Insert(e, ranked))
  {
    if ranked != [] && !Better(Keyed(e.candidate), Keyed(ranked[0].candidate)) {
      var rest := ranked[1..];
      assert forall i :: 0 <= i < |rest| ==> rest[i] == ranked[i + 1];
      InsertKeepsOrder(e, rest);
      InsertKeepsEntries(e, rest);
      var tail := Insert(e, rest);
      forall i | 0 <= i < |tail| ensures Better(Keyed(ranked[0].candidate), Keyed(tail[i].candidate)) {
        assert tail[i] in tail;
      }
    }
  }

  lemma {:induction false} RankedIsSorted(entries: seq<Entry>)
    requires DistinctIds(entries)
    ensures InOrder(Ranked(entries)) && multiset(Ranked(entries)) == multiset(entries)
    ensures |Ranked(entries)| == |entries|
  {
    if entries != [] {
      var rest := entries[1..];
      assert entries == [entries[0]] + rest;
      RankedIsSorted(rest);
      forall i | 0 <= i < |Ranked(rest)| ensures Ranked(rest)[i].candidate.id != entries[0].candidate.id {
        assert Ranked(rest)[i] in multiset(rest);
        var j :| 0 <= j < |rest| && rest[j] == Ranked(rest)[i];
        assert entries[j + 1] == rest[j];
      }
      InsertKeepsOrder(entries[0], Ranked(rest));
      InsertKeepsEntries(entries[0], Ranked(rest));
    }
    assert |multiset(Ranked(entries))| == |Ranked(entries)| && |multiset(entries)| == |entries|;
  }

  // ---- the top of a score table

  ghost predicate Listed(id: int, top: seq<(int, real)>) {
    exists i :: 0 <= i < |top| && top[i].0 == id
  }

  /**
    `top` lists the best `limit` chunks of a score table: strictly in order, with their
    scores, and everything not listed is worse than everything listed.
   */
  ghost predicate IsTop(best: map<int, real>, limit: nat, top: seq<(int, real)>) {
    && |top| == (if limit < |best| then limit else |best|)
    && (forall i :: 0 <= i < |top| ==> top[i].0 in best && best[top[i].0] == top[i].1)
    && (forall i, j :: 0 <= i < j < |top| ==> Better(top[i], top[j]))
    && (forall id, i :: id in best && !Listed(id, top) && 0 <= i < |top| ==> Better(top[i], (id, best[id])))
  }

  lemma {:induction false} TopUnique(best: map<int, real>, limit: nat, a: seq<(int, real)>, b: seq<(int, real)>)
    requires IsTop(best, limit, a) && IsTop(best, limit, b)
    ensures a == b
  {
    var n := 0;
    while n < |a|
      invariant n <= |a| && a[..n] == b[..n]
    {
      BestOfRest(best, limit, a, b, n);
      BestOfRest(best, limit, b, a, n);
      assert a[n] == b[n];
      assert a[..n + 1] == a[..n] + [a[n]] && b[..n + 1] == b[..n] + [b[n]];
      n := n + 1;
    }
    assert a[..n] == a && b[..n] == b;
  }

  /** Where two top lists agree up to `n`, neither continues with something worse. */
  lemma BestOfRest(best: map<int, real>, limit: nat, a: seq<(int, real)>, b: seq<(int, real)>, n: nat)
    requires IsTop(best, limit, a) && IsTop(best, limit, b) && n < |a| && a[..n] == b[..n]
    ensures !Better(b[n], a[n])
  {
    assert forall i :: 0 <= i < n ==> a[i] == a[..n][i] == b[..n][i] == b[i];
    var id := b[n].0;
    forall i | 0 <= i < n ensures a[i].0 != id {
      assert Better(b[i], b[n]) && best[b[i].0] == b[i].1;
    }
    if Listed(id, a) {
      var i :| 0 <= i < |a| && a[i].0 == id;
      assert a[i] == b[n];
      assert i > n ==> Better(a[n], a[i]);
    } else {
      assert Better(a[n], (id, best[id]));
    }
  }

  function Keys(cs: seq<Candidate>): (r: seq<(int, real)>)
    ensures |r| == |cs|
    ensures forall i :: 0 <= i < |r| ==> r[i] == Keyed(cs[i])
  {
    seq(|cs|, i requires 0 <= i < |cs| => Keyed(cs[i]))
  }

  function Ids(entries: seq<Entry>): set<int> {
    set e | e in entries :: e.candidate.id
  }

  lemma IdsCons(e: Entry, rest: seq<Entry>)
    ensures Ids([e] + rest) == {e.candidate.id} + Ids(rest)
  {
    var all := [e] + rest;
    assert forall x :: x in all <==> x == e || x in rest;
  }

  lemma {:induction false} DistinctIdCount(entries: seq<Entry>)
    requires DistinctIds(entries)
    ensures |Ids(entries)| == |entries|
  {
    if entries != [] {
      var rest := entries[1..];
      assert entries == [entries[0]] + rest;
      DistinctIdCount(rest);
      IdsCons(entries[0], rest);
      forall e | e in rest ensures e.candidate.id != entries[0].candidate.id {
        var j :| 0 <= j < |rest| && rest[j] == e;
        assert entries[j + 1] == e;
      }
    }
  }

  lemma CollectedIds(seen: seq<Seen>, entries: seq<Entry>)
    requires Collects(Best(seen), entries)
    ensures Ids(entries) == Best(seen).Keys && |entries| == |Best(seen)|
  {
    DistinctIdCount(entries);
    forall id | id in Best(seen) ensures id in Ids(entries) {
      assert entries[IndexOf(entries, id)] in entries;
    }
    assert Ids(entries) == Best(seen).Keys;
    assert |Best(seen)| == |Best(seen).Keys|;
  }

  /** The merged list is the top of the best scores over all attempts, ranked from 1 on. */
  lemma MergeIsTop(batches: seq<Batch>, limit: nat)
    ensures IsTop(Best(AllSeen(batches)), limit, Keys(Merge(batches, limit)))
    ensures forall i :: 0 <= i < |Merge(batches, limit)| ==> Merge(batches, limit)[i].rank == i + 1
  {
    hide Gather, Ranked, Best;
    var seen := AllSeen(batches);
    var entries := Gather(seen);
    GatherCollects(seen);
    CollectedIds(seen, entries);
    RankedIsSorted(entries);
    RankedIsTop(Best(seen), entries, Ranked(entries), limit);
  }

  lemma PositionOf(entries: seq<Entry>, ranked: seq<Entry>, id: int) returns (j: nat)
    requires multiset(ranked) == multiset(entries) && id in Ids(entries)
    ensures j < |ranked| && ranked[j].candidate.id == id
  {
    var e :| e in entries && e.candidate.id == id;
    assert e in multiset(ranked);
    j :| 0 <= j < |ranked| && ranked[j] == e;
  }

  lemma RankedScores(best: map<int, real>, entries: seq<Entry>, ranked: seq<Entry>, i: nat)
    requires Collects(best, entries) && multiset(ranked) == multiset(entries) && i < |ranked|
    ensures ranked[i].candidate.id in best && best[ranked[i].candidate.id] == ranked[i].candidate.score
  {
    hide IndexOf;
    assert ranked[i] in multiset(entries);
  }

  lemma RankedIsTop(best: map<int, real>, entries: seq<Entry>, ranked: seq<Entry>, limit: nat)
    requires Collects(best, entries) && Ids(entries) == best.Keys && |entries| == |best|
    requires InOrder(ranked) && multiset(ranked) == multiset(entries) && |ranked| == |entries|
    ensures IsTop(best, limit, Keys(Numbered(Prefix(ranked, limit))))
  {
    hide IndexOf, Collects, Keys, Numbered, Prefix, Ids, Better, InOrder;
    var top := Keys(Numbered(Prefix(ranked, limit)));
    TopOf(ranked, limit);
    forall i, j | 0 <= i < j < |top| ensures Better(top[i], top[j]) {
      OrderedPair(ranked, i, j);
    }
    forall i | 0 <= i < |top| ensures top[i].0 in best && best[top[i].0] == top[i].1 {
      RankedScores(best, entries, ranked, i);
    }
    forall id, i | id in best && !Listed(id, top) && 0 <= i < |top| ensures Better(top[i], (id, best[id])) {
      UnlistedIsWorse(best, entries, ranked, top, id, i);
    }
  }

  lemma TopOf(ranked: seq<Entry>, limit: nat)
    ensures var top := Keys(Numbered(Prefix(ranked, limit)));
      && |top| == (if limit < |ranked| then limit else |ranked|)
      && forall i :: 0 <= i < |top| ==> top[i] == Keyed(ranked[i].candidate)
  {}

  lemma OrderedPair(ranked: seq<Entry>, i: nat, j: nat)
    requires InOrder(ranked) && i < j < |ranked|
    ensures Better(Keyed(ranked[i].candidate), Keyed(ranked[j].candidate))
  {}

  lemma UnlistedIsWorse(best: map<int, real>, entries: seq<Entry>, ranked: seq<Entry>, top: seq<(int, real)>, id: int,
                        i: nat)
    requires Collects(best, entries) && multiset(ranked) == multiset(entries) && InOrder(ranked)
    requires |top| <= |ranked| && forall k :: 0 <= k < |top| ==> top[k] == Keyed(ranked[k].candidate)
    requires id in best && id in Ids(entries) && !Listed(id, top) && i < |top|
    ensures Better(top[i], (id, best[id]))
  {
    hide Collects, Ids, Better;
    var j := PositionOf(entries, ranked, id);
    forall k | 0 <= k < |top| ensures ranked[k].candidate.id != id {
      assert top[k].0 != id;
    }
    RankedScores(best, entries, ranked, j);
    assert Better(Keyed(ranked[i].candidate), Keyed(ranked[j].candidate));
  }

  // ---- where the merged candidates come from

  lemma {:induction false} GatherFromSeen(seen: seq<Seen>, e: Entry)
    requires e in Gather(seen)
    ensures exists s :: s in seen && s.candidate == e.candidate
  {
    hide MergedPayload, IndexOf;
    var front, last := seen[..|seen| - 1], seen[|seen| - 1];
    assert seen == front + [last];
    var before := Gather(front);
    var i := IndexOf(before, last.candidate.id);
    if e in before {
      GatherFromSeen(front, e);
      var s :| s in front && s.candidate == e.candidate;
      assert s in seen;
    } else if i < |before| && e.candidate != last.candidate {
      assert e == Absorb(before[i], last.source, last.candidate) && e.candidate == before[i].candidate;
      GatherFromSeen(front, before[i]);
      var s :| s in front && s.candidate == e.candidate;
      assert s in seen;
    } else {
      assert last in seen && e.candidate == last.candidate;
    }
  }

  /** Every merged candidate is one that some attempt returned, but for its rank and payload. */
  lemma MergedWasReturned(batches: seq<Batch>, limit: nat, i: nat) returns (s: Seen)
    requires i < |Merge(batches, limit)|
    ensures s in AllSeen(batches)
    ensures var c := Merge(batches, limit)[i]; c == s.candidate.(rank := c.rank, payload := c.payload)
  {
    hide Gather, Ranked, AllSeen;
    var entries := Gather(AllSeen(batches));
    GatherCollects(AllSeen(batches));
    RankedIsSorted(entries);
    var e := Ranked(entries)[i];
    assert e in multiset(Ranked(entries));
    GatherFromSeen(AllSeen(batches), e);
    s :| s in AllSeen(batches) && s.candidate == e.candidate;
  }

  // ---- consequences

  /** The (id, score) pairs the attempts returned, as a set. */
  ghost function Pairs(seen: seq<Seen>): set<(int, real)> {
    set s | s in seen :: Keyed(s.candidate)
  }

  lemma SamePairsSameBest(a: seq<Seen>, b: seq<Seen>)
    requires Pairs(a) == Pairs(b)
    ensures Best(a) == Best(b)
  {
    hide Best;
    BestIsBest(a);
    BestIsBest(b);
    forall id | id in Best(b) ensures exists s :: s in a && Keyed(s.candidate) == (id, Best(b)[id]) {
      var t :| t in b && Keyed(t.candidate) == (id, Best(b)[id]);
      assert Keyed(t.candidate) in Pairs(a);
    }
    forall s | s in a ensures s.candidate.id in Best(b) && s.candidate.score <= Best(b)[s.candidate.id] {
      assert Keyed(s.candidate) in Pairs(b);
      var t :| t in b && Keyed(t.candidate) == Keyed(s.candidate);
    }
    BestUnique(a, Best(a), Best(b));
  }

  /**
    The merged (id, score) list depends only on the set of pairs returned: permuting the
    attempts, or the candidates within them, or repeating any, changes nothing.
   */
  lemma MergeIgnoresOrder(a: seq<Batch>, b: seq<Batch>, limit: nat)
    requires Pairs(AllSeen(a)) == Pairs(AllSeen(b))
    ensures Keys(Merge(a, limit)) == Keys(Merge(b, limit))
  {
    hide Merge;
    MergeIsTop(a, limit);
    MergeIsTop(b, limit);
    SamePairsSameBest(AllSeen(a), AllSeen(b));
    TopUnique(Best(AllSeen(a)), limit, Keys(Merge(a, limit)), Keys(Merge(b, limit)));
  }

  /** Two score tables joined chunk by chunk, keeping the higher score. */
  ghost predicate IsJoin(x: map<int, real>, y: map<int, real>, m: map<int, real>) {
    && (forall id :: id in m <==> id in x || id in y)
    && forall id :: id in m ==>
         && (id in x ==> x[id] <= m[id]) && (id in y ==> y[id] <= m[id])
         && ((id in x && m[id] == x[id]) || (id in y && m[id] == y[id]))
  }

  lemma BestOfConcat(a: seq<Seen>, b: seq<Seen>)
    ensures IsJoin(Best(a), Best(b), Best(a + b))
  {
    BestIsBest(a);
    BestIsBest(b);
    BestIsBest(a + b);
    assert forall s :: s in a + b <==> s in a || s in b;
    BestsJoin(a, b, a + b, Best(a), Best(b), Best(a + b));
  }

  lemma BestsJoin(a: seq<Seen>, b: seq<Seen>, whole: seq<Seen>, x: map<int, real>, y: map<int, real>, m: map<int, real>)
    requires IsBest(a, x) && IsBest(b, y) && IsBest(whole, m)
    requires forall s :: s in whole <==> s in a || s in b
    ensures IsJoin(x, y, m)
  {
    hide IsBest;
    forall id
      ensures id in x ==> id in m && x[id] <= m[id]
      ensures id in y ==> id in m && y[id] <= m[id]
      ensures id in m ==> (id in x && m[id] == x[id]) || (id in y && m[id] == y[id])
    {
      BestBelow(a, whole, x, m, id);
      BestBelow(b, whole, y, m, id);
      BestFromPart(a, b, whole, x, y, m, id);
    }
  }

  lemma BestBelow(part: seq<Seen>, whole: seq<Seen>, x: map<int, real>, m: map<int, real>, id: int)
    requires IsBest(part, x) && IsBest(whole, m) && forall s :: s in part ==> s in whole
    ensures id in x ==> id in m && x[id] <= m[id]
  {
    if id in x {
      var s :| s in part && Keyed(s.candidate) == (id, x[id]);
    }
  }

  lemma BestFromPart(a: seq<Seen>, b: seq<Seen>, whole: seq<Seen>, x: map<int, real>, y: map<int, real>,
                     m: map<int, real>, id: int)
    requires IsBest(a, x) && IsBest(b, y) && IsBest(whole, m)
    requires forall s :: s in whole <==> s in a || s in b
    ensures id in m ==> (id in x && m[id] <= x[id]) || (id in y && m[id] <= y[id])
  {
    if id in m {
      var s :| s in whole && Keyed(s.candidate) == (id, m[id]);
    }
  }

  ghost function ListedIds(top: seq<(int, real)>): set<int> {
    set k | k in top :: k.0
  }

  lemma {:induction false} ListedCount(best: map<int, real>, top: seq<(int, real)>)
    requires forall i, j :: 0 <= i < j < |top| ==> Better(top[i], top[j])
    requires forall i :: 0 <= i < |top| ==> top[i].0 in best && best[top[i].0] == top[i].1
    ensures |ListedIds(top)| == |top|
    ensures forall id :: id in ListedIds(top) <==> Listed(id, top)
  {
    if top == [] {
      assert ListedIds(top) == {};
    } else {
      var n := |top| - 1;
      var front := top[..n];
      assert top == front + [top[n]];
      ListedCount(best, front);
      assert ListedIds(top) == ListedIds(front) + {top[n].0};
      forall k | k in front ensures k.0 != top[n].0 {
        var i :| 0 <= i < |front| && front[i] == k;
        assert Better(top[i], top[n]);
      }
      forall id ensures id in ListedIds(top) <==> Listed(id, top) {
        if Listed(id, top) {
          var i :| 0 <= i < |top| && top[i].0 == id;
          assert top[i] in top;
        }
      }
    }
  }

  /**
    The heart of truncating early: a chunk cut from the top of `x` cannot be in the top of
    `x` joined with anything, unless it comes back with a higher score.
   */
  lemma CutStaysCut(x: map<int, real>, y: map<int, real>, m: map<int, real>, limit: nat,
                    topX: seq<(int, real)>, topM: seq<(int, real)>, i: nat)
    requires IsJoin(x, y, m) && IsTop(x, limit, topX) && IsTop(m, limit, topM)
    requires i < |topM| && topM[i].0 in x && x[topM[i].0] == topM[i].1
    ensures Listed(topM[i].0, topX)
  {
    var id := topM[i].0;
    ListedCount(x, topX);
    ListedCount(m, topM);
    if |topX| < limit {
      AllListed(x, limit, topX, id);
    } else if !Listed(id, topX) {
      forall j | j in ListedIds(topX) ensures j in ListedIds(topM) {
        var k :| 0 <= k < |topX| && topX[k].0 == j;
        assert Better(topX[k], (id, x[id]));
        assert Better((j, m[j]), topM[i]);
        BetterIsListed(m, limit, topM, i, j);
      }
      assert Listed(id, topM);
      SubsetSize(ListedIds(topX) + {id}, ListedIds(topM));
    }
  }

  lemma BetterIsListed(m: map<int, real>, limit: nat, top: seq<(int, real)>, i: nat, j: int)
    requires IsTop(m, limit, top) && i < |top| && j in m && Better((j, m[j]), top[i])
    ensures Listed(j, top)
  {}

  lemma AllListed(x: map<int, real>, limit: nat, top: seq<(int, real)>, id: int)
    requires IsTop(x, limit, top) && |top| < limit && id in x
    ensures Listed(id, top)
  {
    ListedCount(x, top);
    SubsetEqual(ListedIds(top), x.Keys);
  }

  /** The top of a join can be computed from the top of one side. */
  lemma TopOfJoin(x: map<int, real>, cut: map<int, real>, y: map<int, real>, m: map<int, real>, less: map<int, real>,
                  limit: nat, topX: seq<(int, real)>, topM: seq<(int, real)>)
    requires IsJoin(x, y, m) && IsJoin(cut, y, less)
    requires IsTop(x, limit, topX) && IsTop(m, limit, topM)
    requires forall id :: id in cut <==> Listed(id, topX)
    requires forall id :: id in cut ==> id in x && cut[id] == x[id]
    ensures IsTop(less, limit, topM)
  {
    forall i | 0 <= i < |topM| ensures topM[i].0 in less && less[topM[i].0] == topM[i].1 {
      var id := topM[i].0;
      if id in x && x[id] == topM[i].1 {
        CutStaysCut(x, y, m, limit, topX, topM, i);
      }
    }
    assert forall id :: id in less ==> id in m && less[id] <= m[id];
    TopOfLower(m, less, limit, topM);
  }

  /** Lowering or dropping what is not listed does not change the top. */
  lemma TopOfLower(m: map<int, real>, less: map<int, real>, limit: nat, top: seq<(int, real)>)
    requires IsTop(m, limit, top)
    requires forall id :: id in less ==> id in m && less[id] <= m[id]
    requires forall i :: 0 <= i < |top| ==> top[i].0 in less && less[top[i].0] == top[i].1
    ensures IsTop(less, limit, top)
  {
    ListedCount(m, top);
    SubsetSize(ListedIds(top), less.Keys);
    assert less.Keys <= m.Keys by {
      forall id | id in less.Keys ensures id in m.Keys { assert id in less; }
    }
    SubsetSize(less.Keys, m.Keys);
    assert |less| == |less.Keys| && |m| == |m.Keys|;
  }

  /**
    Merging an already truncated merge with one more attempt, at the same limit, gives the
    same (id, score) list as merging everything at once.
   */
  lemma MergeIncrementally(batches: seq<Batch>, more: Batch, source: string, limit: nat)
    ensures Keys(Merge([Batch(source, Merge(batches, limit)), more], limit)) == Keys(Merge(batches + [more], limit))
  {
    hide Merge, Best;
    var kept := Batch(source, Merge(batches, limit));
    var x, cut, y := Best(AllSeen(batches)), Best(SeenIn(kept)), Best(SeenIn(more));
    assert (batches + [more])[..|batches|] == batches;
    assert AllSeen(batches + [more]) == AllSeen(batches) + SeenIn(more);
    AllSeenPair(kept, more);
    var m, less := Best(AllSeen(batches) + SeenIn(more)), Best(SeenIn(kept) + SeenIn(more));
    BestOfConcat(AllSeen(batches), SeenIn(more));
    BestOfConcat(SeenIn(kept), SeenIn(more));
    MergeIsTop(batches, limit);
    MergeIsTop(batches + [more], limit);
    MergeIsTop([kept, more], limit);
    CutTable(x, limit, kept);
    TopOfJoin(x, cut, y, m, less, limit, Keys(kept.candidates), Keys(Merge(batches + [more], limit)));
    TopUnique(less, limit, Keys(Merge([kept, more], limit)), Keys(Merge(batches + [more], limit)));
  }

  lemma AllSeenOne(b: Batch)
    ensures AllSeen([b]) == SeenIn(b)
  {
    assert [b][..0] == [];
    assert AllSeen([b]) == AllSeen([]) + SeenIn(b);
  }

  lemma SeenIsCandidate(b: Batch, s: Seen)
    requires s in SeenIn(b)
    ensures s.candidate in b.candidates
  {
    var k :| 0 <= k < |b.candidates| && SeenIn(b)[k] == s;
    assert b.candidates[k] == s.candidate;
  }

  lemma AllSeenPair(a: Batch, b: Batch)
    ensures AllSeen([a, b]) == SeenIn(a) + SeenIn(b)
  {
    assert [a, b][..1] == [a] && [a][..0] == [];
    assert AllSeen([a]) == AllSeen([]) + SeenIn(a);
  }

  /** The score table of a truncated list is the table it was cut from, restricted to it. */
  lemma CutTable(x: map<int, real>, limit: nat, kept: Batch)
    requires IsTop(x, limit, Keys(kept.candidates))
    ensures var cut := Best(SeenIn(kept));
      && (forall id :: id in cut <==> Listed(id, Keys(kept.candidates)))
      && (forall id :: id in cut ==> id in x && cut[id] == x[id])
  {
    hide Best;
    var seen := SeenIn(kept);
    var top := Keys(kept.candidates);
    BestIsBest(seen);
    forall id | id in Best(seen) ensures Listed(id, top) && id in x && Best(seen)[id] == x[id] {
      var s :| s in seen && Keyed(s.candidate) == (id, Best(seen)[id]);
      var i :| 0 <= i < |seen| && seen[i] == s;
      assert top[i] == Keyed(s.candidate);
    }
    forall id | Listed(id, top) ensures id in Best(seen) {
      var i :| 0 <= i < |top| && top[i].0 == id;
      assert seen[i] in seen;
    }
  }

  // ---- what else an entry carries

  /** The occurrences of one chunk, in order. */
  function Of(seen: seq<Seen>, id: int): seq<Seen> {
    if seen == [] then []
    else
      var last := seen[|seen| - 1];
      Of(seen[..|seen| - 1], id) + (if last.candidate.id == id then [last] else [])
  }

  /** The highest number reported under a key, or None. */
  function HighestReported(seen: seq<Seen>, key: string): Option<real> {
    if seen == [] then None
    else
      var before, v := HighestReported(seen[..|seen| - 1], key), Lookup(seen[|seen| - 1].candidate.payload, key);
      if !v.Number? then before
      else if before.Some? && before.value >= v.n then before else Some(v.n)
  }

  /** What the dict holds for a chunk after its occurrences. */
  function Folded(occurrences: seq<Seen>): Entry
    requires occurrences != []
  {
    var last := occurrences[|occurrences| - 1];
    if |occurrences| == 1 then Entry(last.candidate, last.candidate.payload, {last.source})
    else Absorb(Folded(occurrences[..|occurrences| - 1]), last.source, last.candidate)
  }

  /** Each entry is made from the occurrences of its own chunk only. */
  lemma {:induction false} EntryIsFolded(seen: seq<Seen>, id: int)
    requires id in Best(seen)
    ensures Of(seen, id) != [] && IndexOf(Gather(seen), id) < |Gather(seen)|
    ensures Gather(seen)[IndexOf(Gather(seen), id)] == Folded(Of(seen, id))
  {
    var front, last := seen[..|seen| - 1], seen[|seen| - 1];
    var c := last.candidate;
    GatherCollects(front);
    GatherCollects(seen);
    var before := Gather(front);
    assert Gather(seen) == Upsert(before, last.source, c);
    UpsertKeeps(before, last.source, c);
    hide Absorb, Gather, Upsert;
    if c.id != id {
      EntryIsFolded(front, id);
      assert Of(seen, id) == Of(front, id);
    } else if id in Best(front) {
      EntryIsFolded(front, id);
      var occurrences := Of(seen, id);
      assert occurrences[..|occurrences| - 1] == Of(front, id);
    } else {
      NotSeenBefore(front, id);
      assert Of(seen, id) == [last];
    }
  }

  lemma {:induction false} NotSeenBefore(seen: seq<Seen>, id: int)
    requires id !in Best(seen)
    ensures Of(seen, id) == []
  {
    if seen != [] {
      NotSeenBefore(seen[..|seen| - 1], id);
    }
  }

  /** The first occurrence with the highest score. */
  ghost predicate FirstBest(occurrences: seq<Seen>, c: Candidate) {
    exists k :: 0 <= k < |occurrences| && IsFirstBest(occurrences, k, c)
  }

  ghost predicate IsFirstBest(occurrences: seq<Seen>, k: int, c: Candidate)
    requires 0 <= k < |occurrences|
  {
    && occurrences[k].candidate == c
    && (forall i :: 0 <= i < |occurrences| ==> occurrences[i].candidate.score <= c.score)
    && (forall i :: 0 <= i < k ==> occurrences[i].candidate.score < c.score)
  }

  /** The best candidate is kept, the first one among equals. */
  lemma {:induction false} EntryKeepsFirstBest(occurrences: seq<Seen>, id: int)
    requires occurrences != [] && forall i :: 0 <= i < |occurrences| ==> occurrences[i].candidate.id == id
    ensures FirstBest(occurrences, Folded(occurrences).candidate)
  {
    hide MergedPayload;
    var n := |occurrences| - 1;
    var front, last := occurrences[..n], occurrences[n];
    if n == 0 {
      assert IsFirstBest(occurrences, 0, last.candidate);
    } else {
      EntryKeepsFirstBest(front, id);
      var c := Folded(front).candidate;
      var k :| 0 <= k < |front| && IsFirstBest(front, k, c);
      assert c.id == id;
      assert forall i :: 0 <= i < n ==> occurrences[i] == front[i];
      if last.candidate.score > c.score {
        assert IsFirstBest(occurrences, n, last.candidate);
      } else {
        assert IsFirstBest(occurrences, k, c);
      }
    }
  }

  /**
    An entry names exactly the attempts that returned its chunk, and holds under each score
    key the highest number any of them reported.
   */
  lemma {:induction false} EntryRemembersAll(occurrences: seq<Seen>, key: string)
    requires occurrences != [] && key in SCORE_KEYS
    ensures Folded(occurrences).sources == set s | s in occurrences :: s.source
    ensures match HighestReported(occurrences, key)
            case Some(highest) => Lookup(Folded(occurrences).payload, key) == Number(highest)
            case None => !Lookup(Folded(occurrences).payload, key).Number?
  {
    hide Prefer;
    var n := |occurrences| - 1;
    var front, last := occurrences[..n], occurrences[n];
    assert occurrences == front + [last];
    if n == 0 {
      assert occurrences == [last];
      assert HighestReported(front, key) == None;
    } else {
      EntryRemembersAll(front, key);
      MergedLookup(Folded(front).payload, last.candidate.payload, key);
    }
  }

  lemma MergedLookup(left: Payload, right: Payload, key: string)
    requires key in SCORE_KEYS
    ensures var v := Lookup(MergedPayload(left, right), key);
      if Lookup(right, key).Number? || Lookup(left, key).Number?
      then v == MaxNumeric(Lookup(left, key), Lookup(right, key)) else !v.Number?
  {}
}
