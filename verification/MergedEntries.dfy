/**
  What the merged list says about each chunk, on the attempts alone: which of the candidates
  returned for it is kept and what its payload holds (`merge_dedupe_candidates`,
  `_prefer_candidate` and `_merge_payloads` of agentic.py).
 */
module MergedEntries {
  import opened CandidateMerge

  // ---- where a chunk was returned

  /** Attempt and position. */
  type Place = (nat, nat)

  ghost predicate IsPlace(batches: seq<Batch>, id: int, p: Place) {
    p.0 < |batches| && p.1 < |batches[p.0].candidates| && batches[p.0].candidates[p.1].id == id
  }

  predicate Earlier(a: Place, b: Place) {
    a.0 < b.0 || (a.0 == b.0 && a.1 < b.1)
  }

  /** All places where the attempts returned the chunk, in the order of the attempts. */
  ghost predicate ArePlaces(batches: seq<Batch>, id: int, places: seq<Place>) {
    ArePlacesBefore(batches, id, (|batches|, 0), places)
  }

  ghost predicate ArePlacesBefore(batches: seq<Batch>, id: int, end: Place, places: seq<Place>) {
    && (forall k :: 0 <= k < |places| ==> IsPlace(batches, id, places[k]) && Earlier(places[k], end))
    && (forall i, j :: 0 <= i < j < |places| ==> Earlier(places[i], places[j]))
    && (forall p :: IsPlace(batches, id, p) && Earlier(p, end) ==> p in places)
  }

  ghost function CandidateAt(batches: seq<Batch>, p: Place): Candidate
    requires p.0 < |batches| && p.1 < |batches[p.0].candidates|
  {
    batches[p.0].candidates[p.1]
  }

  /** The candidates that the attempts returned for a chunk, in order. */
  ghost predicate AreReturned(batches: seq<Batch>, id: int, candidates: seq<Candidate>) {
    exists places :: ArePlaces(batches, id, places) && AreAt(batches, id, places, candidates)
  }

  ghost predicate AreAt(batches: seq<Batch>, id: int, places: seq<Place>, candidates: seq<Candidate>) {
    && |candidates| == |places|
    && forall k :: 0 <= k < |places| ==>
         IsPlace(batches, id, places[k]) && candidates[k] == CandidateAt(batches, places[k])
  }

  // ---- what is kept

  /** The first candidate with the highest score. */
  ghost predicate IsFirstHighest(candidates: seq<Candidate>, c: Candidate) {
    exists k :: 0 <= k < |candidates| && candidates[k] == c &&
                (forall i :: 0 <= i < |candidates| ==> candidates[i].score <= c.score) &&
                (forall i :: 0 <= i < k ==> candidates[i].score < c.score)
  }

  ghost predicate Has(candidates: seq<Candidate>, key: string, k: int) {
    0 <= k < |candidates| && key in candidates[k].payload
  }

  ghost predicate HasNumber(candidates: seq<Candidate>, key: string, k: int) {
    Has(candidates, key, k) && candidates[k].payload[key].Number?
  }

  ghost predicate HasSome(candidates: seq<Candidate>, key: string, k: int) {
    Has(candidates, key, k) && candidates[k].payload[key] != Null
  }

  predicate IsScoreKey(key: string) {
    key == "dense_score" || key == "sparse_score" || key == "fused_score"
  }

  /** Under a score key the highest number, or the last value if no number was reported. */
  ghost predicate IsScore(candidates: seq<Candidate>, key: string, v: Value) {
    if exists k :: HasNumber(candidates, key, k) then
      exists k :: HasNumber(candidates, key, k) && v == candidates[k].payload[key] &&
                  forall j :: HasNumber(candidates, key, j) ==> candidates[j].payload[key].n <= v.n
    else
      exists k :: Has(candidates, key, k) && v == candidates[k].payload[key] &&
                  forall j :: k < j ==> !Has(candidates, key, j)
  }

  /** Under any other key the first value that is not None, or None if there is no other. */
  ghost predicate IsNote(candidates: seq<Candidate>, key: string, v: Value) {
    if exists k :: HasSome(candidates, key, k) then
      exists k :: HasSome(candidates, key, k) && v == candidates[k].payload[key] &&
                  forall j :: j < k ==> !HasSome(candidates, key, j)
    else v == Null
  }

  ghost predicate IsHeld(candidates: seq<Candidate>, key: string, payload: Payload) {
    && (key in payload <==> exists k :: Has(candidates, key, k))
    && (key in payload ==>
          if IsScoreKey(key) then IsScore(candidates, key, payload[key]) else IsNote(candidates, key, payload[key]))
  }

  /** The merged candidate of a chunk for which these were returned. */
  ghost predicate IsMergedFrom(candidates: seq<Candidate>, rank: nat, merged: Candidate) {
    && (exists best :: IsFirstHighest(candidates, best) &&
                       merged == best.(rank := rank, payload := merged.payload))
    && forall key :: IsHeld(candidates, key, merged.payload)
  }

  // ---- one key over all occurrences

  function Bare(occurrences: seq<Seen>): (r: seq<Candidate>)
    ensures |r| == |occurrences|
    ensures forall i :: 0 <= i < |r| ==> r[i] == occurrences[i].candidate
  {
    seq(|occurrences|, i requires 0 <= i < |occurrences| => occurrences[i].candidate)
  }

  lemma HeldOnce(c: Candidate, key: string)
    ensures IsHeld([c], key, c.payload)
  {
    if key in c.payload {
      assert Has([c], key, 0);
      assert HasSome([c], key, 0) || forall k :: !HasSome([c], key, k);
      assert HasNumber([c], key, 0) || forall k :: !HasNumber([c], key, k);
    }
  }

  lemma HasMore(front: seq<Candidate>, c: Candidate, key: string)
    ensures var all := front + [c];
      forall k ::
        && (Has(all, key, k) <==> Has(front, key, k) || (k == |front| && key in c.payload))
        && (HasNumber(all, key, k) <==>
              HasNumber(front, key, k) || (k == |front| && key in c.payload && c.payload[key].Number?))
        && (HasSome(all, key, k) <==>
              HasSome(front, key, k) || (k == |front| && key in c.payload && c.payload[key] != Null))
  {}

  lemma ScoreHeld(front: seq<Candidate>, c: Candidate, key: string, payload: Payload)
    requires IsScoreKey(key) && IsHeld(front, key, payload) && key in c.payload
    ensures IsScore(front + [c], key, MaxNumeric(Lookup(payload, key), c.payload[key]))
  {
    HasMore(front, c, key);
    var all, n, v := front + [c], |front|, MaxNumeric(Lookup(payload, key), c.payload[key]);
    assert all[n] == c && forall k :: 0 <= k < n ==> all[k] == front[k];
    hide Has, HasNumber, HasSome;
    assert Has(all, key, n);
    if exists k :: HasNumber(front, key, k) {
      var k :| HasNumber(front, key, k) && payload[key] == front[k].payload[key] &&
               forall j :: HasNumber(front, key, j) ==> front[j].payload[key].n <= payload[key].n;
      assert HasNumber(all, key, k);
      assert HasNumber(all, key, n) || v == payload[key];
    } else if c.payload[key].Number? {
      assert HasNumber(all, key, n);
    }
  }

  lemma NoteHeld(front: seq<Candidate>, c: Candidate, key: string, payload: Payload)
    requires !IsScoreKey(key) && IsHeld(front, key, payload) && key in c.payload
    ensures IsNote(front + [c], key, if Lookup(payload, key).Null? then c.payload[key] else payload[key])
  {
    HasMore(front, c, key);
    var all, n := front + [c], |front|;
    assert all[n] == c && forall k :: 0 <= k < n ==> all[k] == front[k];
    hide Has, HasNumber, HasSome;
    if exists k :: HasSome(front, key, k) {
      var k :| HasSome(front, key, k) && payload[key] == front[k].payload[key] &&
               forall j :: j < k ==> !HasSome(front, key, j);
      assert HasSome(all, key, k);
    } else if c.payload[key] != Null {
      assert HasSome(all, key, n);
    }
  }

  lemma HeldWithout(front: seq<Candidate>, c: Candidate, key: string, payload: Payload)
    requires IsHeld(front, key, payload) && key !in c.payload
    ensures IsHeld(front + [c], key, payload)
  {
    HasMore(front, c, key);
    var all := front + [c];
    assert forall k :: 0 <= k < |front| ==> all[k] == front[k];
    assert forall k :: Has(front, key, k) ==> 0 <= k < |front|;
    assert forall k :: HasNumber(front, key, k) ==> 0 <= k < |front|;
    assert forall k :: HasSome(front, key, k) ==> 0 <= k < |front|;
    hide Has, HasNumber, HasSome;
    if key in payload && IsScoreKey(key) {
      assert IsScore(all, key, payload[key]);
    }
  }

  lemma HeldAfter(front: seq<Candidate>, c: Candidate, key: string, payload: Payload)
    requires IsHeld(front, key, payload)
    ensures IsHeld(front + [c], key, MergedPayload(payload, c.payload))
  {
    var merged := MergedPayload(payload, c.payload);
    if key in c.payload {
      assert Has(front + [c], key, |front|);
      assert merged[key] == MergeValue(key, Lookup(payload, key), c.payload[key]);
      if IsScoreKey(key) {
        ScoreHeld(front, c, key, payload);
      } else {
        NoteHeld(front, c, key, payload);
      }
    } else {
      HeldWithout(front, c, key, payload);
      assert key in merged <==> key in payload;
      assert key in payload ==> merged[key] == payload[key];
    }
  }

  lemma {:induction false} HeldAfterAll(occurrences: seq<Seen>, key: string)
    requires occurrences != []
    ensures IsHeld(Bare(occurrences), key, Folded(occurrences).payload)
  {
    var n := |occurrences| - 1;
    var front, last := occurrences[..n], occurrences[n];
    if n == 0 {
      assert Bare(occurrences) == [last.candidate];
      HeldOnce(last.candidate, key);
    } else {
      HeldAfterAll(front, key);
      assert Bare(occurrences) == Bare(front) + [last.candidate];
      HeldAfter(Bare(front), last.candidate, key, Folded(front).payload);
    }
  }

  // ---- the places in order

  ghost function SeenAt(batches: seq<Batch>, p: Place): Seen
    requires p.0 < |batches| && p.1 < |batches[p.0].candidates|
  {
    Seen(batches[p.0].source, CandidateAt(batches, p))
  }

  /** The occurrences of a chunk are the candidates at its places. */
  ghost predicate ListsPlaces(batches: seq<Batch>, places: seq<Place>, occurrences: seq<Seen>) {
    && |places| == |occurrences|
    && forall k :: 0 <= k < |places| ==>
         && places[k].0 < |batches| && places[k].1 < |batches[places[k].0].candidates|
         && occurrences[k] == SeenAt(batches, places[k])
  }

  lemma OfNext(front: seq<Seen>, last: Seen, id: int)
    ensures Of(front + [last], id) == Of(front, id) + if last.candidate.id == id then [last] else []
  {
    assert (front + [last])[..|front|] == front;
  }

  lemma SeenNext(before: seq<Seen>, batch: Batch, c: nat)
    requires c < |batch.candidates|
    ensures before + SeenIn(batch)[..c + 1] ==
            before + SeenIn(batch)[..c] + [Seen(batch.source, batch.candidates[c])]
  {}

  lemma {:induction false} PlacesBefore(batches: seq<Batch>, id: int, b: nat, c: nat) returns (places: seq<Place>)
    requires b < |batches| && c <= |batches[b].candidates|
    ensures ArePlacesBefore(batches, id, (b, c), places)
    ensures ListsPlaces(batches, places, Of(AllSeen(batches[..b]) + SeenIn(batches[b])[..c], id))
    decreases b, c
  {
    hide AllSeen, Of, ArePlacesBefore;
    var before := AllSeen(batches[..b]);
    if c > 0 {
      places := PlacesBefore(batches, id, b, c - 1);
      var p: Place := (b, c - 1);
      SeenNext(before, batches[b], c - 1);
      OfNext(before + SeenIn(batches[b])[..c - 1], SeenAt(batches, p), id);
      if batches[b].candidates[c - 1].id == id {
        PlacesAppend(batches, id, p, places);
        places := places + [p];
      } else {
        PlacesSkip(batches, id, p, places);
      }
    } else if b > 0 {
      var n := |batches[b - 1].candidates|;
      places := PlacesBefore(batches, id, b - 1, n);
      assert SeenIn(batches[b - 1])[..n] == SeenIn(batches[b - 1]);
      AllSeenNext(batches, b - 1);
      assert before + SeenIn(batches[b])[..c] == before;
      PlacesNext(batches, id, b, places);
    } else {
      places := [];
      AllSeenNone(batches);
      NoPlaces(batches, id);
    }
  }

  lemma NoPlaces(batches: seq<Batch>, id: int)
    ensures ArePlacesBefore(batches, id, (0, 0), []) && Of([], id) == []
  {}

  lemma AllSeenNone(batches: seq<Batch>)
    ensures AllSeen(batches[..0]) == []
  {}

  lemma AllSeenNext(batches: seq<Batch>, b: nat)
    requires b < |batches|
    ensures AllSeen(batches[..b + 1]) == AllSeen(batches[..b]) + SeenIn(batches[b])
  {
    assert batches[..b + 1][..b] == batches[..b];
  }

  lemma PlacesAppend(batches: seq<Batch>, id: int, p: Place, places: seq<Place>)
    requires IsPlace(batches, id, p) && ArePlacesBefore(batches, id, p, places)
    ensures ArePlacesBefore(batches, id, (p.0, p.1 + 1), places + [p])
  {
    hide IsPlace;
    forall q | IsPlace(batches, id, q) && Earlier(q, (p.0, p.1 + 1)) ensures q in places + [p] {
      assert q == p || Earlier(q, p);
    }
  }

  lemma PlacesSkip(batches: seq<Batch>, id: int, p: Place, places: seq<Place>)
    requires !IsPlace(batches, id, p) && ArePlacesBefore(batches, id, p, places)
    ensures ArePlacesBefore(batches, id, (p.0, p.1 + 1), places)
  {
    hide IsPlace;
    forall q | IsPlace(batches, id, q) && Earlier(q, (p.0, p.1 + 1)) ensures q in places {
      assert q == p || Earlier(q, p);
    }
  }

  /** Nothing lies between the end of one attempt and the start of the next. */
  lemma PlacesNext(batches: seq<Batch>, id: int, b: nat, places: seq<Place>)
    requires 0 < b <= |batches|
    requires ArePlacesBefore(batches, id, (b - 1, |batches[b - 1].candidates|), places)
    ensures ArePlacesBefore(batches, id, (b, 0), places)
  {}

  lemma PlacesOf(batches: seq<Batch>, id: int) returns (places: seq<Place>)
    ensures ArePlaces(batches, id, places)
    ensures ListsPlaces(batches, places, Of(AllSeen(batches), id))
  {
    assert batches[..|batches|] == batches;
    if batches == [] {
      places := [];
      AllSeenNone(batches);
    } else {
      var b := |batches| - 1;
      var n := |batches[b].candidates|;
      places := PlacesBefore(batches, id, b, n);
      assert SeenIn(batches[b])[..n] == SeenIn(batches[b]);
      AllSeenNext(batches, b);
      PlacesNext(batches, id, |batches|, places);
    }
  }

  // ---- the merged list

  /** A merged candidate is numbered, and made of what was collected for its chunk. */
  lemma {:induction false} MergedIsFolded(batches: seq<Batch>, limit: nat, i: nat)
    requires i < |Merge(batches, limit)|
    ensures var merged, seen := Merge(batches, limit)[i], AllSeen(batches);
      && Of(seen, merged.id) != []
      && var e := Folded(Of(seen, merged.id));
         merged == e.candidate.(rank := i + 1, payload := e.payload)
  {
    hide Gather, Ranked, AllSeen, Folded, Of, Best;
    var seen := AllSeen(batches);
    var entries := Gather(seen);
    GatherCollects(seen);
    RankedIsSorted(entries);
    var e := Ranked(entries)[i];
    assert e in multiset(Ranked(entries));
    var id := e.candidate.id;
    var k := IndexOf(entries, id);
    var j :| 0 <= j < |entries| && entries[j] == e;
    assert id in Best(seen);
    EntryIsFolded(seen, id);
    assert entries[k].candidate.id == id;
    assert j == k;
  }

  lemma {:induction false} OfHasId(seen: seq<Seen>, id: int)
    ensures forall k :: 0 <= k < |Of(seen, id)| ==> Of(seen, id)[k].candidate.id == id
  {
    if seen != [] {
      OfHasId(seen[..|seen| - 1], id);
    }
  }

  /**
    Every merged candidate, on the attempts alone: the first of its chunk's candidates with the
    highest score, ranked by its position; its payload holds, of all that was reported for the
    chunk, the highest number under each score key and the first value under every other key.
   */
  lemma {:induction false} MergedExact(batches: seq<Batch>, limit: nat, i: nat)
    requires i < |Merge(batches, limit)|
    ensures var merged := Merge(batches, limit)[i];
      exists candidates :: AreReturned(batches, merged.id, candidates) && IsMergedFrom(candidates, i + 1, merged)
  {
    var merged := Merge(batches, limit)[i];
    MergedIsFolded(batches, limit, i);
    var occurrences := Of(AllSeen(batches), merged.id);
    hide Merge, AllSeen, Of, Folded, AreReturned, IsMergedFrom;
    OccurrencesAreReturned(batches, merged.id);
    OfHasId(AllSeen(batches), merged.id);
    FoldedIsMerged(occurrences, merged.id, i + 1);
  }

  lemma {:induction false} OccurrencesAreReturned(batches: seq<Batch>, id: int)
    ensures AreReturned(batches, id, Bare(Of(AllSeen(batches), id)))
  {
    hide AllSeen, Of, IsPlace;
    var places := PlacesOf(batches, id);
    assert AreAt(batches, id, places, Bare(Of(AllSeen(batches), id)));
  }

  lemma {:induction false} FoldedIsMerged(occurrences: seq<Seen>, id: int, rank: nat)
    requires occurrences != [] && forall k :: 0 <= k < |occurrences| ==> occurrences[k].candidate.id == id
    ensures var e := Folded(occurrences);
      IsMergedFrom(Bare(occurrences), rank, e.candidate.(rank := rank, payload := e.payload))
  {
    hide Folded, IsHeld;
    EntryKeepsFirstBest(occurrences, id);
    var c := Folded(occurrences).candidate;
    var k :| 0 <= k < |occurrences| && IsFirstBest(occurrences, k, c);
    assert Bare(occurrences)[k] == c;
    assert IsFirstHighest(Bare(occurrences), c);
    forall key ensures IsHeld(Bare(occurrences), key, Folded(occurrences).payload) {
      HeldAfterAll(occurrences, key);
    }
  }
}
