/**
  Embedding and indexing a document's chunks in batches (`DocumentEmbeddingService` of
  embedding.py, `QdrantVectorStore` and `DocumentIndexingService` of qdrant.py).

  The embedding adapter answers pointwise, by a function from a text to its vector, but any
  call of it may fail. Payloads are given with the chunks. Any request to the store may be lost
  on the way there or back.
 */
module Indexing {
  import opened Text
  import opened VectorStore
  import opened Batches

  type Vector = seq<Num>

  type Adapter = string -> Vector

  /** A stored chunk; `text` is None when its `content_text` is not a string. */
  datatype Chunk = Chunk(id: int, text: Option<string>, payload: Payload)

  datatype EmbedError = EmptyResult | VectorDimensionMismatch | EmbeddingFailed

  datatype Embedding = Embedded(vectors: seq<Vector>) | EmbedFailure(error: EmbedError)

  // ---- embedding

  predicate TextUsable(c: Chunk) {
    c.text.Some? && Strip(c.text.value) != ""
  }

  predicate AllUsable(chunks: seq<Chunk>) {
    forall i :: 0 <= i < |chunks| ==> chunks[i].text.Some? && TextUsable(chunks[i])
  }

  function Texts(chunks: seq<Chunk>): (r: seq<string>)
    requires forall i :: 0 <= i < |chunks| ==> chunks[i].text.Some?
    ensures |r| == |chunks|
    ensures forall i :: 0 <= i < |r| ==> r[i] == chunks[i].text.value
  {
    seq(|chunks|, i requires 0 <= i < |chunks| => chunks[i].text.value)
  }

  /** `adapter.embed_texts` */
  function EmbedTexts(adapter: Adapter, texts: seq<string>): (r: seq<Vector>)
    ensures |r| == |texts|
    ensures forall i :: 0 <= i < |r| ==> r[i] == adapter(texts[i])
  {
    seq(|texts|, i requires 0 <= i < |texts| => adapter(texts[i]))
  }

  /** One call of the adapter: it answers, raises an error, or returns a wrong number of vectors. */
  datatype Call = Answers | Raises(error: EmbedError) | Miscounts

  function CallError(call: Call): EmbedError {
    if call.Raises? then call.error else EmptyResult
  }

  function Answering(calls: nat -> Call): nat -> bool {
    (b: nat) => calls(b).Answers?
  }

  function VectorFault(v: Vector, dimension: int): Option<EmbedError> {
    if |v| != dimension then Some(VectorDimensionMismatch)
    else if exists i :: 0 <= i < |v| && v[i].NonFinite? then Some(EmbeddingFailed)
    else None
  }

  /** `_validate_vectors`: what is wrong with the first faulty vector. */
  function FirstFault(vectors: seq<Vector>, dimension: int): Option<EmbedError> {
    if vectors == [] then None
    else if VectorFault(vectors[0], dimension).Some? then VectorFault(vectors[0], dimension)
    else FirstFault(vectors[1..], dimension)
  }

  lemma {:induction false} FirstFaultConcat(a: seq<Vector>, b: seq<Vector>, dimension: int)
    ensures FirstFault(a + b, dimension) ==
            if FirstFault(a, dimension).Some? then FirstFault(a, dimension) else FirstFault(b, dimension)
  {
    hide VectorFault;
    if a == [] {
      assert a + b == b;
    } else {
      assert (a + b)[1..] == a[1..] + b;
      FirstFaultConcat(a[1..], b, dimension);
    }
  }

  lemma {:induction false} NoFault(vectors: seq<Vector>, dimension: int)
    ensures FirstFault(vectors, dimension).None? <==>
            forall i :: 0 <= i < |vectors| ==> VectorFault(vectors[i], dimension).None?
  {
    hide VectorFault;
    if vectors != [] {
      NoFault(vectors[1..], dimension);
      assert vectors == [vectors[0]] + vectors[1..];
    }
  }

  /** The outcome of embedding, said without batches. */
  function EmbedAll(adapter: Adapter, chunks: seq<Chunk>, dimension: int): Embedding {
    if chunks == [] || !AllUsable(chunks) then EmbedFailure(EmptyResult)
    else
      var vectors := EmbedTexts(adapter, Texts(chunks));
      match FirstFault(vectors, dimension)
      case Some(error) => EmbedFailure(error)
      case None => Embedded(vectors)
  }

  /**
    The outcome of embedding in batches: that of embedding everything at once or, when a call
    does not answer, the first faulty vector before that batch, else the error of the call.
   */
  ghost function EmbedInBatches(adapter: Adapter, calls: nat -> Call, chunks: seq<Chunk>, dimension: int,
                                size: nat): Embedding
  {
    if chunks == [] || !AllUsable(chunks) then EmbedFailure(EmptyResult)
    else if exists b: nat :: FirstFailing(Answering(calls), |chunks|, size, b) then
      var b: nat :| FirstFailing(Answering(calls), |chunks|, size, b);
      var before := FirstFault(EmbedTexts(adapter, Texts(chunks))[..Start(b, size)], dimension);
      EmbedFailure(if before.Some? then before.value else CallError(calls(b)))
    else EmbedAll(adapter, chunks, dimension)
  }

  /** Every component is a finite number, and there are as many as the collection wants. */
  ghost predicate VectorUsable(v: Vector, dimension: int) {
    |v| == dimension && forall i :: 0 <= i < |v| ==> v[i].Finite?
  }

  /** When every call answers the batch size does not matter, and only then can embedding succeed. */
  lemma BatchesDoNotShow(adapter: Adapter, calls: nat -> Call, chunks: seq<Chunk>, dimension: int, size: nat)
    ensures AllFine(Answering(calls), |chunks|, size) ==>
              EmbedInBatches(adapter, calls, chunks, dimension, size) == EmbedAll(adapter, chunks, dimension)
    ensures EmbedInBatches(adapter, calls, chunks, dimension, size).Embedded? <==>
              AllFine(Answering(calls), |chunks|, size) && EmbedAll(adapter, chunks, dimension).Embedded?
  {
    hide Start, TextUsable, FirstFault, AllFine, FirstFailing;
    FineOrFailing(Answering(calls), |chunks|, size);
  }

  /** Some character of the chunk is not a blank. */
  ghost predicate HasText(c: Chunk) {
    c.text.Some? && exists k :: 0 <= k < |c.text.value| && !IsSpace(c.text.value[k])
  }

  lemma TextIsUsable(c: Chunk)
    ensures TextUsable(c) <==> HasText(c)
  {
    hide Strip, IsSpace;
    if c.text.Some? {
      StripEmptyIfSpace(c.text.value);
    }
  }

  /** Embedding everything succeeds exactly when there are chunks, all with text, and every vector is usable. */
  lemma EmbeddingSucceeds(adapter: Adapter, chunks: seq<Chunk>, dimension: int)
    ensures EmbedAll(adapter, chunks, dimension).Embedded? <==>
            chunks != [] && forall i :: 0 <= i < |chunks| ==>
              HasText(chunks[i]) && VectorUsable(adapter(chunks[i].text.value), dimension)
  {
    hide TextUsable, HasText, FirstFault;
    forall i | 0 <= i < |chunks| ensures TextUsable(chunks[i]) <==> HasText(chunks[i]) {
      TextIsUsable(chunks[i]);
    }
    forall i | 0 <= i < |chunks| && TextUsable(chunks[i]) ensures chunks[i].text.Some? {
      UsableHasText(chunks[i]);
    }
    if forall i :: 0 <= i < |chunks| ==> TextUsable(chunks[i]) {
      var vectors := EmbedTexts(adapter, Texts(chunks));
      NoFault(vectors, dimension);
      forall i | 0 <= i < |chunks|
        ensures VectorFault(vectors[i], dimension).None? <==> VectorUsable(adapter(chunks[i].text.value), dimension)
      {
        assert vectors[i] == adapter(chunks[i].text.value);
        FaultlessIsUsable(vectors[i], dimension);
      }
    }
  }

  lemma UsableHasText(c: Chunk)
    requires TextUsable(c)
    ensures c.text.Some?
  {}

  lemma FaultlessIsUsable(v: Vector, dimension: int)
    ensures VectorFault(v, dimension).None? <==> VectorUsable(v, dimension)
  {}

  lemma SliceMore<T>(s: seq<T>, a: nat, b: nat)
    requires a <= b <= |s|
    ensures s[..a] + s[a..b] == s[..b] && s[..b] + s[b..] == s
  {}

  lemma BatchIsSlice(adapter: Adapter, texts: seq<string>, a: nat, b: nat)
    requires a <= b <= |texts|
    ensures EmbedTexts(adapter, texts[a..b]) == EmbedTexts(adapter, texts)[a..b]
  {}

  lemma UnansweredFirst(calls: nat -> Call, count: nat, size: nat, b: nat)
    requires Start(b, size) < count && !calls(b).Answers? && forall i: nat :: i < b ==> calls(i).Answers?
    ensures FirstFailing(Answering(calls), count, size, b)
  {}

  /** A call that does not answer decides when no vector before it is faulty. */
  lemma CallDecides(adapter: Adapter, calls: nat -> Call, chunks: seq<Chunk>, dimension: int, size: nat, b: nat)
    requires chunks != [] && AllUsable(chunks)
    requires FirstFailing(Answering(calls), |chunks|, size, b)
    requires FirstFault(EmbedTexts(adapter, Texts(chunks))[..Start(b, size)], dimension).None?
    ensures EmbedInBatches(adapter, calls, chunks, dimension, size) == EmbedFailure(CallError(calls(b)))
  {
    hide Start, TextUsable, FirstFault, FirstFailing;
    FineOrFailing(Answering(calls), |chunks|, size);
  }

  /** A faulty vector in batch `b` decides when all calls up to that batch answer. */
  lemma FaultDecides(adapter: Adapter, calls: nat -> Call, chunks: seq<Chunk>, dimension: int, size: nat, b: nat,
                     end: nat)
    requires chunks != [] && AllUsable(chunks)
    requires end <= |chunks| && end <= Start(b + 1, size) && forall i: nat :: i <= b ==> calls(i).Answers?
    requires FirstFault(EmbedTexts(adapter, Texts(chunks))[..end], dimension).Some?
    ensures EmbedInBatches(adapter, calls, chunks, dimension, size) ==
            EmbedFailure(FirstFault(EmbedTexts(adapter, Texts(chunks))[..end], dimension).value)
  {
    var all := EmbedTexts(adapter, Texts(chunks));
    hide Start, TextUsable, FirstFault;
    forall c: nat | FirstFailing(Answering(calls), |chunks|, size, c)
      ensures FirstFault(all[..Start(c, size)], dimension) == FirstFault(all[..end], dimension)
    {
      FewerBatches(b + 1, c, size);
      FaultSurfaces(all, end, Start(c, size), dimension);
    }
    FaultSurfaces(all, end, |all|, dimension);
    assert all[..|all|] == all;
  }

  lemma FaultSurfaces(all: seq<Vector>, end: nat, k: nat, dimension: int)
    requires end <= k <= |all| && FirstFault(all[..end], dimension).Some?
    ensures FirstFault(all[..k], dimension) == FirstFault(all[..end], dimension)
  {
    hide FirstFault;
    assert all[..k] == all[..end] + all[end..k];
    FirstFaultConcat(all[..end], all[end..k], dimension);
  }

  // ---- which error

  /** Vector `i` is the first that is not usable, and `error` says what is wrong with it. */
  ghost predicate FirstUnusable(vectors: seq<Vector>, dimension: int, i: nat, error: EmbedError) {
    && i < |vectors|
    && (forall j :: 0 <= j < i ==> VectorUsable(vectors[j], dimension))
    && !VectorUsable(vectors[i], dimension)
    && error == if |vectors[i]| != dimension then VectorDimensionMismatch else EmbeddingFailed
  }

  /** The calls for item `i` and all before it answer. */
  ghost predicate AnsweredUpTo(calls: nat -> Call, size: nat, i: nat) {
    forall b: nat :: Start(b, size) <= i ==> calls(b).Answers?
  }

  /** Call `b` is the first that does not answer, and `error` says why. */
  ghost predicate FirstUnanswered(calls: nat -> Call, count: nat, size: nat, b: nat, error: EmbedError) {
    && FirstFailing(Answering(calls), count, size, b)
    && (calls(b) == Raises(error) || (calls(b).Miscounts? && error == EmptyResult))
  }

  lemma {:induction false} FirstFaultIs(vectors: seq<Vector>, dimension: int)
    ensures var fault := FirstFault(vectors, dimension);
      if fault.None? then forall j :: 0 <= j < |vectors| ==> VectorUsable(vectors[j], dimension)
      else exists i: nat :: FirstUnusable(vectors, dimension, i, fault.value)
  {
    if vectors != [] {
      FaultlessIsUsable(vectors[0], dimension);
      hide VectorUsable;
      assert vectors == [vectors[0]] + vectors[1..];
      if VectorFault(vectors[0], dimension).Some? {
        assert FirstUnusable(vectors, dimension, 0, FirstFault(vectors, dimension).value);
      } else {
        FirstFaultIs(vectors[1..], dimension);
        if FirstFault(vectors, dimension).Some? {
          var e := FirstFault(vectors, dimension).value;
          var i: nat :| FirstUnusable(vectors[1..], dimension, i, e);
          assert FirstUnusable(vectors, dimension, i + 1, e);
        }
      }
    }
  }

  /**
    Why embedding usable chunks fails: the first unusable vector, when all calls up to it
    answer, or the first call that does not answer, when all vectors before it are usable.
   */
  lemma EmbedFailsBecause(adapter: Adapter, calls: nat -> Call, chunks: seq<Chunk>, dimension: int, size: nat)
    requires size >= 1 && chunks != [] && AllUsable(chunks)
    ensures var r, vectors := EmbedInBatches(adapter, calls, chunks, dimension, size),
            EmbedTexts(adapter, Texts(chunks));
      r.EmbedFailure? ==>
        || (exists i: nat :: FirstUnusable(vectors, dimension, i, r.error) && AnsweredUpTo(calls, size, i))
        || (exists b: nat ::
              && FirstUnanswered(calls, |chunks|, size, b, r.error)
              && forall j :: 0 <= j < Start(b, size) ==> VectorUsable(vectors[j], dimension))
  {
    var vectors := EmbedTexts(adapter, Texts(chunks));
    hide FirstFault, AllUsable, VectorUsable, Start, FirstFailing;
    if b: nat :| FirstFailing(Answering(calls), |chunks|, size, b) {
      FailsInBatches(adapter, calls, chunks, dimension, size, b);
    } else {
      FineOrFailing(Answering(calls), |chunks|, size);
      FirstFaultIs(vectors, dimension);
      if FirstFault(vectors, dimension).Some? {
        var i: nat :| FirstUnusable(vectors, dimension, i, FirstFault(vectors, dimension).value);
        AllAnswer(calls, |chunks|, size, i);
      }
    }
  }

  lemma AllAnswer(calls: nat -> Call, count: nat, size: nat, i: nat)
    requires AllFine(Answering(calls), count, size) && i < count
    ensures AnsweredUpTo(calls, size, i)
  {
    hide Start;
    forall b: nat | Start(b, size) <= i ensures calls(b).Answers? {
      assert Answering(calls)(b);
    }
  }

  lemma AnsweredBefore(calls: nat -> Call, count: nat, size: nat, b: nat, i: nat)
    requires FirstFailing(Answering(calls), count, size, b) && i < Start(b, size)
    ensures AnsweredUpTo(calls, size, i)
  {
    hide Start;
    forall c: nat | Start(c, size) <= i ensures calls(c).Answers? {
      FewerBatches(c, b, size);
      assert Answering(calls)(c);
    }
  }

  lemma FailsInBatches(adapter: Adapter, calls: nat -> Call, chunks: seq<Chunk>, dimension: int, size: nat, b: nat)
    requires size >= 1 && chunks != [] && AllUsable(chunks)
    requires FirstFailing(Answering(calls), |chunks|, size, b)
    ensures var r, vectors := EmbedInBatches(adapter, calls, chunks, dimension, size),
            EmbedTexts(adapter, Texts(chunks));
      && r.EmbedFailure?
      && (|| (exists i: nat :: FirstUnusable(vectors, dimension, i, r.error) && AnsweredUpTo(calls, size, i))
          || (FirstUnanswered(calls, |chunks|, size, b, r.error) &&
              forall j :: 0 <= j < Start(b, size) ==> VectorUsable(vectors[j], dimension)))
  {
    var vectors := EmbedTexts(adapter, Texts(chunks));
    FineOrFailing(Answering(calls), |chunks|, size);
    assert Start(b, size) < |chunks| && !calls(b).Answers? && forall c: nat :: c < b ==> Answering(calls)(c);
    hide FirstFault, AllUsable, VectorUsable, Start;
    var before := vectors[..Start(b, size)];
    FirstFaultIs(before, dimension);
    var fault := FirstFault(before, dimension);
    if fault.Some? {
      var i: nat :| FirstUnusable(before, dimension, i, fault.value);
      AnsweredBefore(calls, |chunks|, size, b, i);
      assert FirstUnusable(vectors, dimension, i, fault.value);
    } else {
      forall j | 0 <= j < Start(b, size) ensures VectorUsable(vectors[j], dimension) {
        assert before[j] == vectors[j];
      }
    }
  }

  /** `embed_chunks` */
  method EmbedChunks(adapter: Adapter, calls: nat -> Call, chunks: seq<Chunk>, dimension: int, batchSize: nat)
    returns (r: Embedding)
    requires batchSize >= 1
    ensures r == EmbedInBatches(adapter, calls, chunks, dimension, batchSize)
  {
    hide VectorFault, Strip, EmbedAll;
    if chunks == [] {
      return EmbedFailure(EmptyResult);
    }
    for i := 0 to |chunks|
      invariant forall j :: 0 <= j < i ==> TextUsable(chunks[j])
    {
      if !TextUsable(chunks[i]) {
        return EmbedFailure(EmptyResult);
      }
    }
    var texts := Texts(chunks);
    ghost var all := EmbedTexts(adapter, texts);
    var vectors: seq<Vector> := [];
    var start: nat := 0;
    var b: nat := 0;
    hide Start, EmbedInBatches, AllUsable, FirstFailing, AllFine;
    while start < |texts|
      invariant start == Start(b, batchSize) && forall i: nat :: i < b ==> calls(i).Answers?
      invariant |vectors| == (if start < |texts| then start else |texts|)
      invariant vectors == all[..|vectors|] && FirstFault(vectors, dimension).None?
      decreases |texts| - start
    {
      var end := if start + batchSize < |texts| then start + batchSize else |texts|;
      if !calls(b).Answers? {
        UnansweredFirst(calls, |chunks|, batchSize, b);
        CallDecides(adapter, calls, chunks, dimension, batchSize, b);
        return EmbedFailure(CallError(calls(b)));
      }
      var batchVectors := EmbedTexts(adapter, texts[start..end]);
      BatchIsSlice(adapter, texts, start, end);
      SliceMore(all, start, end);
      FirstFaultConcat(vectors, batchVectors, dimension);
      var fault := FirstFault(batchVectors, dimension);
      if fault.Some? {
        FaultDecides(adapter, calls, chunks, dimension, batchSize, b, end);
        return EmbedFailure(fault.value);
      }
      vectors := vectors + batchVectors;
      NextBatch(b, batchSize);
      start := start + batchSize;
      b := b + 1;
    }
    assert vectors == all;
    // The source validates everything once more; each batch already was.
    if FirstFault(vectors, dimension).Some? {
      assert false;
    }
    AllTried(Answering(calls), |chunks|, batchSize, b);
    BatchesDoNotShow(adapter, calls, chunks, dimension, batchSize);
    EmbeddedAll(adapter, chunks, dimension);
    r := Embedded(vectors);
  }

  lemma EmbeddedAll(adapter: Adapter, chunks: seq<Chunk>, dimension: int)
    requires chunks != [] && AllUsable(chunks)
    requires FirstFault(EmbedTexts(adapter, Texts(chunks)), dimension).None?
    ensures EmbedAll(adapter, chunks, dimension) == Embedded(EmbedTexts(adapter, Texts(chunks)))
  {
    hide Strip, FirstFault;
  }

  // ---- the vector store

  lemma {:induction false} UpsertedConcat(store: Store, a: seq<Point>, b: seq<Point>)
    ensures Upserted(store, a + b) == Upserted(Upserted(store, a), b)
  {
    if b == [] {
      assert a + b == a;
    } else {
      var n := |b| - 1;
      assert (a + b)[..|a + b| - 1] == a + b[..n];
      UpsertedConcat(store, a, b[..n]);
    }
  }

  /** The last point given for an id. */
  function LastFor(points: seq<Point>, id: int): Option<Point> {
    if points == [] then None
    else if points[|points| - 1].id == id then Some(points[|points| - 1])
    else LastFor(points[..|points| - 1], id)
  }

  lemma {:induction false} LastForIs(points: seq<Point>, id: int)
    ensures match LastFor(points, id)
            case None => forall i :: 0 <= i < |points| ==> points[i].id != id
            case Some(p) =>
              exists i :: 0 <= i < |points| && points[i] == p && p.id == id &&
                          forall j :: i < j < |points| ==> points[j].id != id
  {
    if points != [] && points[|points| - 1].id != id {
      LastForIs(points[..|points| - 1], id);
    }
  }

  /** What upserting leaves: the last point given for an id, else what was there. */
  lemma {:induction false} UpsertedIs(store: Store, points: seq<Point>, id: int)
    ensures var after := Upserted(store, points);
      match LastFor(points, id)
      case Some(p) => id in after && after[id] == p
      case None => SameAt(store, after, id)
  {
    if points != [] {
      UpsertedIs(store, points[..|points| - 1], id);
    }
  }

  lemma UpsertedNone(store: Store, points: seq<Point>)
    ensures Upserted(store, points[..0]) == store
  {}

  /** A request arrives and is answered, or never arrives, or only its answer is lost. */
  datatype Delivery = Delivered | Refused | ReplyLost

  function Delivering(deliver: nat -> Delivery): nat -> bool {
    (b: nat) => deliver(b).Delivered?
  }

  ghost predicate AllDelivered(deliver: nat -> Delivery, count: nat, size: nat) {
    AllFine(Delivering(deliver), count, size)
  }

  ghost predicate FirstUndelivered(deliver: nat -> Delivery, count: nat, size: nat, b: nat) {
    FirstFailing(Delivering(deliver), count, size, b)
  }

  /** Of `count` points all are written, or those before the first undelivered batch, or that batch too. */
  ghost predicate Arrived(deliver: nat -> Delivery, count: nat, size: nat, written: nat) {
    && (AllDelivered(deliver, count, size) ==> written == count)
    && (forall b: nat :: FirstUndelivered(deliver, count, size, b) ==>
          if deliver(b).Refused? || Start(b + 1, size) <= count then
            written == Start(if deliver(b).Refused? then b else b + 1, size)
          else written == count)
  }

  lemma ArrivedBefore(deliver: nat -> Delivery, count: nat, size: nat, b: nat, written: nat)
    requires FirstUndelivered(deliver, count, size, b)
    requires written == if deliver(b).Refused? then Start(b, size)
                        else if Start(b, size) + size < count then Start(b, size) + size else count
    ensures Arrived(deliver, count, size, written) && !AllDelivered(deliver, count, size)
  {
    hide Start;
    NextBatch(b, size);
    FineOrFailing(Delivering(deliver), count, size);
  }

  lemma AllArrived(deliver: nat -> Delivery, count: nat, size: nat, b: nat)
    requires Start(b, size) >= count && forall i: nat :: i < b ==> deliver(i).Delivered?
    ensures Arrived(deliver, count, size, count) && AllDelivered(deliver, count, size)
  {
    AllTried(Delivering(deliver), count, size, b);
  }

  /**
    What arrives is settled by the deliveries, and is whole batches. It is everything exactly if
    no request failed, except perhaps that the answer to the last one was lost.
   */
  lemma ArrivedExact(deliver: nat -> Delivery, count: nat, size: nat, written: nat, other: nat)
    requires size >= 1 && Arrived(deliver, count, size, written) && Arrived(deliver, count, size, other)
    ensures written == other <= count
    ensures written == count || exists b: nat :: Start(b, size) == written
    ensures written == count <==>
            forall b: nat :: Start(b, size) < count ==>
              deliver(b).Delivered? || (deliver(b).ReplyLost? && Start(b, size) + size >= count)
  {
    hide Start;
    FineOrFailing(Delivering(deliver), count, size);
    if AllDelivered(deliver, count, size) {
      AllAnswered(deliver, count, size);
    } else {
      var first: nat :| FirstFailing(Delivering(deliver), count, size, first);
      assert FirstUndelivered(deliver, count, size, first);
      ArrivedUpTo(deliver, count, size, written, first);
      ArrivedUpTo(deliver, count, size, other, first);
      LastOnlyLost(deliver, count, size, first);
      hide Arrived, FirstUndelivered;
      assert written == Start(first, size) || written == Start(first + 1, size) || written == count;
    }
  }

  lemma AllAnswered(deliver: nat -> Delivery, count: nat, size: nat)
    requires AllDelivered(deliver, count, size)
    ensures forall b: nat :: Start(b, size) < count ==> deliver(b).Delivered?
  {
    forall b: nat | Start(b, size) < count ensures deliver(b).Delivered? {
      assert Delivering(deliver)(b);
    }
  }

  lemma ArrivedUpTo(deliver: nat -> Delivery, count: nat, size: nat, written: nat, first: nat)
    requires Arrived(deliver, count, size, written) && FirstUndelivered(deliver, count, size, first)
    ensures Start(first, size) < count && Start(first + 1, size) == Start(first, size) + size
    ensures deliver(first).Refused? ==> written == Start(first, size)
    ensures !deliver(first).Refused? ==>
              written == if Start(first + 1, size) <= count then Start(first + 1, size) else count
  {
    hide Start, AllDelivered;
    NextBatch(first, size);
  }

  lemma LastOnlyLost(deliver: nat -> Delivery, count: nat, size: nat, first: nat)
    requires FirstUndelivered(deliver, count, size, first)
    ensures (forall b: nat :: Start(b, size) < count ==>
               deliver(b).Delivered? || (deliver(b).ReplyLost? && Start(b, size) + size >= count)) <==>
            deliver(first).ReplyLost? && Start(first, size) + size >= count
  {
    hide Start;
    assert !Delivering(deliver)(first);
    if deliver(first).ReplyLost? && Start(first, size) + size >= count {
      NextBatch(first, size);
      forall b: nat | Start(b, size) < count
        ensures deliver(b).Delivered? || (deliver(b).ReplyLost? && Start(b, size) + size >= count)
      {
        FewerBatches(b, first + 1, size);
        assert b < first ==> Delivering(deliver)(b);
      }
    }
  }

  class QdrantVectorStore {
    const client: InMemoryClient
    const name: string
    const dimension: int
    const createCollection: bool

    constructor (client: InMemoryClient, name: string, dimension: int, createCollection: bool)
      ensures this.client == client && this.name == name && this.dimension == dimension
      ensures this.createCollection == createCollection
    {
      this.client, this.name, this.dimension, this.createCollection := client, name, dimension, createCollection;
    }

    /** What is wrong with the collection, or with creating it. */
    function EnsureOutcome(): Option<Error>
      reads client
    {
      if name in client.collections then
        if client.collections[name] == dimension then None else Some(Error.DimensionMismatch)
      else if !createCollection then Some(QdrantUnavailable)
      else if client.failCreate then Some(CollectionCreateFailed)
      else None
    }

    /** `ensure_collection` */
    method EnsureCollection() returns (r: Option<Error>)
      modifies client`collections, client`points
      ensures r.None? ==> name in client.collections && client.collections[name] == dimension
      ensures forall other :: client.Stored(other) == old(client.Stored(other))
      ensures r == old(EnsureOutcome())
    {
      if name !in client.collections {
        if !createCollection {
          return Some(QdrantUnavailable);
        }
        r := client.CreateCollection(name, dimension);
        if r.Some? {
          return;
        }
      }
      if client.collections[name] != dimension {
        return Some(Error.DimensionMismatch);
      }
      r := None;
    }

    /** One request of `upsert`. */
    method Send(batch: seq<Point>, delivery: Delivery) returns (r: Option<Error>)
      modifies client`points
      ensures r.None? <==> delivery.Delivered? && !client.failUpsert && name in client.collections
      ensures client.Becomes(name, if delivery.Refused? || client.failUpsert || name !in client.collections
                                   then old(client.Stored(name)) else Upserted(old(client.Stored(name)), batch))
    {
      if delivery.Refused? {
        return Some(QdrantUnavailable);
      }
      r := client.UpsertPoints(name, batch);
      if r.None? && delivery.ReplyLost? {
        r := Some(QdrantUnavailable);
      }
    }

    /**
      `upsert`. A success leaves the store upserted with all points, whatever the batch size. A
      failure leaves it upserted with the batches that arrived before.
     */
    method Upsert(points: seq<Point>, batchSize: nat, deliver: nat -> Delivery)
      returns (r: Option<Error>, ghost written: nat)
      modifies client`points
      ensures r == if points == [] || batchSize < 1 then Some(Error.UpsertFailed)
                   else if exists i :: 0 <= i < |points| && |points[i].vector| != dimension
                   then Some(Error.DimensionMismatch)
                   else if client.failUpsert || name !in client.collections ||
                           !AllDelivered(deliver, |points|, batchSize) then Some(Error.UpsertFailed)
                   else None
      ensures if points == [] || batchSize < 1 || r == Some(Error.DimensionMismatch) ||
                 client.failUpsert || name !in client.collections then written == 0
              else Arrived(deliver, |points|, batchSize, written)
      ensures written <= |points| && (r.None? ==> written == |points|)
      ensures client.Becomes(name, Upserted(old(client.Stored(name)), points[..written]))
    {
      hide Start, Upserted, Arrived, AllDelivered;
      written := 0;
      UpsertedNone(client.Stored(name), points);
      if points == [] || batchSize < 1 {
        return Some(Error.UpsertFailed), 0;
      }
      for i := 0 to |points|
        invariant forall j :: 0 <= j < i ==> |points[j].vector| == dimension
      {
        if |points[i].vector| != dimension {
          return Some(Error.DimensionMismatch), 0;
        }
      }
      var start: nat := 0;
      var b: nat := 0;
      while start < |points|
        invariant start == Start(b, batchSize) && written == if start < |points| then start else |points|
        invariant forall i: nat :: i < b ==> deliver(i).Delivered?
        invariant start > 0 ==> !client.failUpsert && name in client.collections
        invariant client.Becomes(name, Upserted(old(client.Stored(name)), points[..written]))
        decreases |points| - start
      {
        var end := if start + batchSize < |points| then start + batchSize else |points|;
        r := Send(points[start..end], deliver(b));
        UpsertedConcat(old(client.Stored(name)), points[..start], points[start..end]);
        SliceMore(points, start, end);
        if r.Some? {
          if !client.failUpsert && name in client.collections {
            if deliver(b).ReplyLost? {
              written := end;
            }
            assert FirstUndelivered(deliver, |points|, batchSize, b);
            ArrivedBefore(deliver, |points|, batchSize, b, written);
          }
          return Some(Error.UpsertFailed), written;
        }
        NextBatch(b, batchSize);
        start := start + batchSize;
        b := b + 1;
        written := end;
      }
      AllArrived(deliver, |points|, batchSize, b);
      r := None;
    }

    /** `cleanup`: by point ids if there are any, else by document version. */
    method Cleanup(version: string, ids: seq<int>, delivery: Delivery) returns (r: Option<Error>)
      modifies client`points
      ensures r == if client.failDelete || !delivery.Delivered? then Some(CleanupFailed) else None
      ensures client.Becomes(name, if client.failDelete || delivery.Refused? then old(client.Stored(name))
                                   else if ids != [] then Deleted(old(client.Stored(name)), ids)
                                   else VersionDeleted(old(client.Stored(name)), version))
    {
      if delivery.Refused? {
        return Some(CleanupFailed);
      }
      if ids != [] {
        r := client.DeletePoints(name, ids);
      } else {
        r := client.DeleteByDocumentVersion(name, version);
      }
      if delivery.ReplyLost? {
        r := Some(CleanupFailed);
      }
    }
  }

  // ---- indexing

  /** The points of a document: one per chunk, with the embedding of its text and its payload. */
  function PointsOf(adapter: Adapter, chunks: seq<Chunk>): (r: seq<Point>)
    requires forall i :: 0 <= i < |chunks| ==> chunks[i].text.Some?
    ensures |r| == |chunks|
    ensures forall i :: 0 <= i < |r| ==> r[i] == Point(chunks[i].id, adapter(chunks[i].text.value), chunks[i].payload)
  {
    seq(|chunks|, i requires 0 <= i < |chunks| => Point(chunks[i].id, adapter(chunks[i].text.value), chunks[i].payload))
  }

  datatype Indexing = Indexed(count: nat) | EmbeddingError(embedError: EmbedError) | StoreError(storeError: Error)

  /** What indexing comes to: the first thing that is wrong, in the order of the steps. */
  function IndexOutcome(embedding: Embedding, collection: Option<Error>, chunks: seq<Chunk>, delivered: bool): Indexing
  {
    if embedding.EmbedFailure? then EmbeddingError(embedding.error)
    else if collection.Some? then StoreError(collection.value)
    else if exists i :: 0 <= i < |chunks| && chunks[i].id < 1 then StoreError(DocumentIndexingFailed)
    else if !delivered then StoreError(UpsertFailed)
    else Indexed(|chunks|)
  }

  /**
    When indexing succeeds, said on its inputs, and what it reports when only its last steps
    fail.
   */
  lemma IndexingSucceeds(adapter: Adapter, calls: nat -> Call, chunks: seq<Chunk>, dimension: int, size: nat,
                         collection: Option<Error>, delivered: bool)
    ensures var embedding := EmbedInBatches(adapter, calls, chunks, dimension, size);
      var r := IndexOutcome(embedding, collection, chunks, delivered);
      var positive := forall i :: 0 <= i < |chunks| ==> chunks[i].id >= 1;
      && (r.Indexed? <==>
            && chunks != [] && (forall b: nat :: Start(b, size) < |chunks| ==> calls(b).Answers?)
            && (forall i :: 0 <= i < |chunks| ==>
                  HasText(chunks[i]) && VectorUsable(adapter(chunks[i].text.value), dimension))
            && collection.None? && positive && delivered)
      && (r.Indexed? ==> r.count == |chunks|)
      && (embedding.EmbedFailure? <==> r.EmbeddingError?) && (r.EmbeddingError? ==> r.embedError == embedding.error)
      && (embedding.Embedded? ==>
            match collection
            case Some(error) => r == StoreError(error)
            case None =>
              && (!positive ==> r == StoreError(DocumentIndexingFailed))
              && (positive && !delivered ==> r == StoreError(UpsertFailed)))
  {
    hide EmbedInBatches, HasText, VectorUsable, Start;
    BatchesDoNotShow(adapter, calls, chunks, dimension, size);
    EmbeddingSucceeds(adapter, chunks, dimension);
  }

  /** The points of `index_chunks`; None when a chunk id is not positive. */
  method BuildPoints(adapter: Adapter, chunks: seq<Chunk>, vectors: seq<Vector>) returns (r: Option<seq<Point>>)
    requires forall i :: 0 <= i < |chunks| ==> chunks[i].text.Some?
    requires vectors == EmbedTexts(adapter, Texts(chunks))
    ensures r == if exists i :: 0 <= i < |chunks| && chunks[i].id < 1 then None else Some(PointsOf(adapter, chunks))
  {
    var points: seq<Point> := [];
    for i := 0 to |chunks|
      invariant forall j :: 0 <= j < i ==> chunks[j].id >= 1
      invariant points == PointsOf(adapter, chunks)[..i]
    {
      if chunks[i].id < 1 {
        return None;
      }
      points := points + [Point(chunks[i].id, vectors[i], chunks[i].payload)];
    }
    assert points == PointsOf(adapter, chunks);
    r := Some(points);
  }

  lemma EmbeddedIs(adapter: Adapter, calls: nat -> Call, chunks: seq<Chunk>, dimension: int, size: nat)
    requires EmbedInBatches(adapter, calls, chunks, dimension, size).Embedded?
    ensures chunks != [] && forall i :: 0 <= i < |chunks| ==> chunks[i].text.Some?
    ensures EmbedInBatches(adapter, calls, chunks, dimension, size).vectors == EmbedTexts(adapter, Texts(chunks))
    ensures forall i :: 0 <= i < |chunks| ==> |PointsOf(adapter, chunks)[i].vector| == dimension
  {
    BatchesDoNotShow(adapter, calls, chunks, dimension, size);
    hide Strip, FirstFault, EmbedInBatches;
    NoFault(EmbedTexts(adapter, Texts(chunks)), dimension);
  }

  /**
    `index_chunks`. A success leaves the old store overridden by the document's points; neither
    batch size appears. A failure leaves it overridden by the batches that had arrived.
   */
  method IndexChunks(store: QdrantVectorStore, adapter: Adapter, calls: nat -> Call, chunks: seq<Chunk>,
                     embedBatch: nat, upsertBatch: nat, deliver: nat -> Delivery)
    returns (r: Indexing, ghost written: nat)
    requires embedBatch >= 1 && upsertBatch >= 1
    modifies store.client`collections, store.client`points
    ensures r == IndexOutcome(EmbedInBatches(adapter, calls, chunks, store.dimension, embedBatch),
                              old(store.EnsureOutcome()), chunks,
                              !store.client.failUpsert && AllDelivered(deliver, |chunks|, upsertBatch))
    ensures if IndexOutcome(EmbedInBatches(adapter, calls, chunks, store.dimension, embedBatch),
                            old(store.EnsureOutcome()), chunks, !store.client.failUpsert).Indexed?
            then Arrived(deliver, |chunks|, upsertBatch, written) else written == 0
    ensures written <= |chunks| && (r.Indexed? ==> written == |chunks| > 0)
    ensures written > 0 ==> forall i :: 0 <= i < |chunks| ==> chunks[i].text.Some?
    ensures store.client.Stored(store.name) ==
            if written == 0 then old(store.client.Stored(store.name))
            else Upserted(old(store.client.Stored(store.name)), PointsOf(adapter, chunks)[..written])
    ensures forall other :: other != store.name ==> store.client.Stored(other) == old(store.client.Stored(other))
  {
    hide EmbedInBatches, Upserted, Arrived, AllDelivered;
    written := 0;
    var embedding := EmbedChunks(adapter, calls, chunks, store.dimension, embedBatch);
    if embedding.EmbedFailure? {
      return EmbeddingError(embedding.error), 0;
    }
    EmbeddedIs(adapter, calls, chunks, store.dimension, embedBatch);
    var error := store.EnsureCollection();
    if error.Some? {
      return StoreError(error.value), 0;
    }
    var points := BuildPoints(adapter, chunks, embedding.vectors);
    if points.None? {
      return StoreError(DocumentIndexingFailed), 0;
    }
    error, written := store.Upsert(points.value, upsertBatch, deliver);
    UpsertedNone(old(store.client.Stored(store.name)), points.value);
    if error.Some? {
      return StoreError(error.value), written;
    }
    r := Indexed(|points.value|);
  }

  function ChunkIds(chunks: seq<Chunk>): (r: seq<int>)
    ensures |r| == |chunks|
    ensures forall i :: 0 <= i < |r| ==> r[i] == chunks[i].id
  {
    seq(|chunks|, i requires 0 <= i < |chunks| => chunks[i].id)
  }

  /**
    What indexing stores, id by id: the embedding of its text and the payload, of the last
    chunk with that id; nothing else changes.
   */
  lemma IndexedPoints(adapter: Adapter, chunks: seq<Chunk>, store: Store, id: int)
    requires forall i :: 0 <= i < |chunks| ==> chunks[i].text.Some?
    ensures var after := Upserted(store, PointsOf(adapter, chunks));
      if id in ChunkIds(chunks) then id in after && exists i :: IsLastChunk(adapter, chunks, id, i, after[id])
      else SameAt(store, after, id)
  {
    hide Upserted;
    var points := PointsOf(adapter, chunks);
    UpsertedIs(store, points, id);
    LastForIs(points, id);
    if id in ChunkIds(chunks) {
      var k :| 0 <= k < |chunks| && ChunkIds(chunks)[k] == id;
      assert points[k].id == id;
      var p := LastFor(points, id).value;
      var i :| 0 <= i < |points| && points[i] == p && p.id == id && forall j :: i < j < |points| ==> points[j].id != id;
      assert forall j :: i < j < |chunks| ==> points[j].id == chunks[j].id;
      assert IsLastChunk(adapter, chunks, id, i, p);
    } else {
      forall i | 0 <= i < |points| ensures points[i].id != id {
        assert ChunkIds(chunks)[i] in ChunkIds(chunks);
      }
    }
  }

  ghost predicate IsLastChunk(adapter: Adapter, chunks: seq<Chunk>, id: int, i: int, p: Point)
    requires forall i :: 0 <= i < |chunks| ==> chunks[i].text.Some?
  {
    && 0 <= i < |chunks| && chunks[i].id == id && (forall j :: i < j < |chunks| ==> chunks[j].id != id)
    && p == Point(id, adapter(chunks[i].text.value), chunks[i].payload)
  }

  /**
    Cleaning up with the same ids after `k` of the points arrived removes exactly those ids: the
    rest is the store before indexing.
   */
  lemma CleanupAfterIndexing(adapter: Adapter, chunks: seq<Chunk>, store: Store, k: nat)
    requires (forall i :: 0 <= i < |chunks| ==> chunks[i].text.Some?) && k <= |chunks|
    ensures Deleted(Upserted(store, PointsOf(adapter, chunks)[..k]), ChunkIds(chunks)) ==
            Deleted(store, ChunkIds(chunks))
  {
    hide Upserted;
    var after := Upserted(store, PointsOf(adapter, chunks)[..k]);
    forall id | id !in ChunkIds(chunks)
      ensures (id in after <==> id in store) && (id in store ==> after[id] == store[id])
    {
      OtherPointsStay(adapter, chunks, store, k, id);
    }
  }

  lemma OtherPointsStay(adapter: Adapter, chunks: seq<Chunk>, store: Store, k: nat, id: int)
    requires (forall i :: 0 <= i < |chunks| ==> chunks[i].text.Some?) && k <= |chunks| && id !in ChunkIds(chunks)
    ensures var after := Upserted(store, PointsOf(adapter, chunks)[..k]);
      SameAt(store, after, id)
  {
    hide Upserted;
    var points := PointsOf(adapter, chunks)[..k];
    UpsertedIs(store, points, id);
    LastForIs(points, id);
    forall i | 0 <= i < k ensures points[i].id != id {
      assert ChunkIds(chunks)[i] in ChunkIds(chunks);
    }
  }
}
