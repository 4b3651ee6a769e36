/**
  Work done in batches of one size: `count` items, of which batch `b` has those from
  `Start(b, size)` on. A batch may fail, and then the ones behind it are not tried.
 */
module Batches {
  function Start(b: nat, size: nat): (start: nat)
    ensures b == 0 ==> start == 0
  {
    b * size
  }

  ghost predicate AllFine(fine: nat -> bool, count: nat, size: nat) {
    forall b: nat :: Start(b, size) < count ==> fine(b)
  }

  ghost predicate FirstFailing(fine: nat -> bool, count: nat, size: nat, b: nat) {
    && Start(b, size) < count && !fine(b) && forall i: nat :: i < b ==> fine(i)
  }

  lemma NextBatch(b: nat, size: nat)
    ensures Start(b + 1, size) == Start(b, size) + size
  {}

  lemma FewerBatches(b: nat, c: nat, size: nat)
    ensures Start(b, size) < Start(c, size) ==> b < c
    ensures b <= c ==> Start(b, size) <= Start(c, size)
  {
    if b >= c {
      assert Start(b, size) == Start(c, size) + (b - c) * size;
    } else {
      assert Start(c, size) == Start(b, size) + (c - b) * size;
    }
  }

  lemma {:induction false} SomeFirstFailing(fine: nat -> bool, count: nat, size: nat, b: nat)
    requires Start(b, size) < count && !fine(b)
    ensures exists first: nat :: FirstFailing(fine, count, size, first)
    decreases b
  {
    hide Start;
    if i: nat :| i < b && !fine(i) {
      FewerBatches(i, b, size);
      SomeFirstFailing(fine, count, size, i);
    } else {
      assert FirstFailing(fine, count, size, b);
    }
  }

  /** Either all batches are fine or exactly one is the first to fail. */
  lemma FineOrFailing(fine: nat -> bool, count: nat, size: nat)
    ensures !AllFine(fine, count, size) <==> exists b: nat :: FirstFailing(fine, count, size, b)
    ensures forall b: nat, c: nat ::
              FirstFailing(fine, count, size, b) && FirstFailing(fine, count, size, c) ==> b == c
  {
    hide Start;
    if b: nat :| Start(b, size) < count && !fine(b) {
      SomeFirstFailing(fine, count, size, b);
    }
  }

  lemma AllTried(fine: nat -> bool, count: nat, size: nat, b: nat)
    requires Start(b, size) >= count && forall i: nat :: i < b ==> fine(i)
    ensures AllFine(fine, count, size)
  {
    hide Start;
    forall c: nat | Start(c, size) < count ensures fine(c) {
      FewerBatches(c, b, size);
    }
  }
}
