/**
  The loop that entities, relations and aliases are collected with in llm_extraction.py: take
  items in order, skip some, keep the first of each kind, up to a cap.
 */
module Collecting {
  /** InvalidResponse is the LLMGraphExtractionError, Crashed any other exception. */
  datatype Outcome<T> = Grounded(items: seq<T>) | InvalidResponse | Crashed

  datatype Verdict<T> = Skip | Accept(item: T) | Reject | Crash

  /** Continue with the verdicts from `i` on, having collected `acc`. */
  function Collect<T>(verdicts: seq<Verdict<T>>, same: (T, T) -> bool, cap: nat, acc: seq<T>): Outcome<T> {
    if verdicts == [] || |acc| >= cap then Grounded(acc)
    else
      match verdicts[0]
      case Skip => Collect(verdicts[1..], same, cap, acc)
      case Reject => InvalidResponse
      case Crash => Crashed
      case Accept(item) =>
        if exists i :: 0 <= i < |acc| && same(acc[i], item) then Collect(verdicts[1..], same, cap, acc)
        else Collect(verdicts[1..], same, cap, acc + [item])
  }

  /** The item accepted at `k` was taken there, or is the same as one taken before. */
  ghost predicate TakenUpTo<T>(verdicts: seq<Verdict<T>>, same: (T, T) -> bool, items: seq<T>, picks: seq<nat>, k: nat)
    requires |picks| == |items| && k < |verdicts| && verdicts[k].Accept?
  {
    exists i :: 0 <= i < |items| && (picks[i] == k || (picks[i] < k && same(items[i], verdicts[k].item)))
  }

  /**
    The first `n` verdicts raise nothing, and `items` are the first of each kind among those
    they accept, in order, taken at the positions `picks`.
   */
  ghost predicate Picked<T>(verdicts: seq<Verdict<T>>, same: (T, T) -> bool, items: seq<T>, picks: seq<nat>, n: nat) {
    && |picks| == |items| && n <= |verdicts|
    && (forall i :: 0 <= i < |items| ==> picks[i] < n && verdicts[picks[i]] == Accept(items[i]))
    && (forall i, j :: 0 <= i < j < |items| ==> picks[i] < picks[j] && !same(items[i], items[j]))
    && (forall k: nat :: k < n ==> !verdicts[k].Reject? && !verdicts[k].Crash?)
    && (forall k: nat :: k < n && verdicts[k].Accept? ==> TakenUpTo(verdicts, same, items, picks, k))
  }

  /**
    The exact outcome of the loop: it stops after `n` verdicts, because there are no more, the
    cap is reached, or the next one raises.
   */
  ghost predicate IsCollected<T>(verdicts: seq<Verdict<T>>, same: (T, T) -> bool, cap: nat, r: Outcome<T>,
                                 items: seq<T>, picks: seq<nat>, n: nat)
  {
    && Picked(verdicts, same, items, picks, n)
    && match r
       case Grounded(all) => all == items && |items| <= cap && (n == |verdicts| || |items| == cap)
       case InvalidResponse => |items| < cap && n < |verdicts| && verdicts[n].Reject?
       case Crashed => |items| < cap && n < |verdicts| && verdicts[n].Crash?
  }

  lemma PickMore<T>(verdicts: seq<Verdict<T>>, same: (T, T) -> bool, items: seq<T>, picks: seq<nat>, n: nat)
    requires Picked(verdicts, same, items, picks, n) && n < |verdicts| && verdicts[n].Accept?
    requires forall i :: 0 <= i < |items| ==> !same(items[i], verdicts[n].item)
    ensures Picked(verdicts, same, items + [verdicts[n].item], picks + [n], n + 1)
  {
    var more, at := items + [verdicts[n].item], picks + [n];
    forall k: nat | k < n + 1 && verdicts[k].Accept? ensures TakenUpTo(verdicts, same, more, at, k) {
      if k == n {
        assert at[|items|] == n;
      } else {
        assert TakenUpTo(verdicts, same, items, picks, k);
        var i :| 0 <= i < |items| && (picks[i] == k || (picks[i] < k && same(items[i], verdicts[k].item)));
        assert at[i] == picks[i] && more[i] == items[i];
      }
    }
  }

  lemma PassOver<T>(verdicts: seq<Verdict<T>>, same: (T, T) -> bool, items: seq<T>, picks: seq<nat>, n: nat)
    requires Picked(verdicts, same, items, picks, n) && n < |verdicts|
    requires verdicts[n].Skip? ||
             (verdicts[n].Accept? && exists i :: 0 <= i < |items| && same(items[i], verdicts[n].item))
    ensures Picked(verdicts, same, items, picks, n + 1)
  {
    if verdicts[n].Accept? {
      var i :| 0 <= i < |items| && same(items[i], verdicts[n].item);
      assert picks[i] < n;
      assert TakenUpTo(verdicts, same, items, picks, n);
    }
  }

  lemma {:induction false} CollectFrom<T>(verdicts: seq<Verdict<T>>, same: (T, T) -> bool, cap: nat, acc: seq<T>,
                                          picks: seq<nat>, n: nat)
    returns (items: seq<T>, at: seq<nat>, end: nat)
    requires Picked(verdicts, same, acc, picks, n) && |acc| <= cap
    ensures IsCollected(verdicts, same, cap, Collect(verdicts[n..], same, cap, acc), items, at, end)
    decreases |verdicts| - n
  {
    hide Picked;
    assert n <= |verdicts| by { PickedEnd(verdicts, same, acc, picks, n); }
    items, at, end := acc, picks, n;
    if n < |verdicts| && |acc| < cap {
      assert verdicts[n..][0] == verdicts[n] && verdicts[n..][1..] == verdicts[n + 1..];
      match verdicts[n] {
        case Reject =>
        case Crash =>
        case Skip =>
          PassOver(verdicts, same, acc, picks, n);
          items, at, end := CollectFrom(verdicts, same, cap, acc, picks, n + 1);
        case Accept(item) =>
          if exists i :: 0 <= i < |acc| && same(acc[i], item) {
            PassOver(verdicts, same, acc, picks, n);
            items, at, end := CollectFrom(verdicts, same, cap, acc, picks, n + 1);
          } else {
            PickMore(verdicts, same, acc, picks, n);
            items, at, end := CollectFrom(verdicts, same, cap, acc + [item], picks + [n], n + 1);
          }
      }
    }
  }

  lemma PickedEnd<T>(verdicts: seq<Verdict<T>>, same: (T, T) -> bool, items: seq<T>, picks: seq<nat>, n: nat)
    requires Picked(verdicts, same, items, picks, n)
    ensures n <= |verdicts|
  {}

  /**
    What the loop delivers: the accepted items in order, the first of each kind, up to the
    cap; below the cap, nothing accepted is missing. It raises only what one of its items raises.
   */
  lemma CollectExact<T>(verdicts: seq<Verdict<T>>, same: (T, T) -> bool, cap: nat)
    returns (items: seq<T>, picks: seq<nat>, n: nat)
    ensures var r := Collect(verdicts, same, cap, []);
      && IsCollected(verdicts, same, cap, r, items, picks, n)
      && (r.Grounded? ==>
            && |r.items| <= cap
            && (forall i, j :: 0 <= i < j < |r.items| ==> !same(r.items[i], r.items[j]))
            && (forall i :: 0 <= i < |r.items| ==> Accept(r.items[i]) in verdicts)
            && (|r.items| < cap ==> forall item :: Accept(item) in verdicts ==>
                  item in r.items || exists i :: 0 <= i < |r.items| && same(r.items[i], item)))
      && (r.Crashed? ==> exists i :: 0 <= i < |verdicts| && verdicts[i].Crash?)
      && (r.InvalidResponse? ==> exists i :: 0 <= i < |verdicts| && verdicts[i].Reject?)
  {
    assert verdicts[0..] == verdicts;
    items, picks, n := CollectFrom(verdicts, same, cap, [], [], 0);
    if |items| < cap && n == |verdicts| {
      forall item | Accept(item) in verdicts
        ensures item in items || exists i :: 0 <= i < |items| && same(items[i], item)
      {
        var k: nat :| k < |verdicts| && verdicts[k] == Accept(item);
        assert TakenUpTo(verdicts, same, items, picks, k);
        var i :| 0 <= i < |items| && (picks[i] == k || (picks[i] < k && same(items[i], verdicts[k].item)));
        assert items[i] in items;
      }
    }
  }

  // ---- the same, said of the items the loop reads

  /** The item read at `k` was taken there, or one like it before. */
  ghost predicate Represented<T>(items: seq<T>, picks: seq<nat>, alike: (T, T) -> bool, k: nat, t: T)
    requires |picks| == |items|
  {
    exists i :: 0 <= i < |items| && ((picks[i] == k && items[i] == t) || (picks[i] < k && alike(items[i], t)))
  }

  /**
    Of the first `n` items read none raises, and `items` are what those at `picks` yield: in
    order, the first of each kind, none left out. The loop stops there because there are no
    more, because of the cap, or because the next one raises.
   */
  ghost predicate SelectsAt<A, T(!new)>(raws: seq<A>, leads: (A, T) -> bool, raises: A -> bool, alike: (T, T) -> bool,
                                        cap: nat, r: Outcome<T>, items: seq<T>, picks: seq<nat>, n: nat)
  {
    && |picks| == |items| <= cap && n <= |raws|
    && (forall i :: 0 <= i < |items| ==> picks[i] < n && leads(raws[picks[i]], items[i]))
    && (forall i, j :: 0 <= i < j < |items| ==> picks[i] < picks[j] && !alike(items[i], items[j]))
    && (forall k: nat :: k < n ==> !raises(raws[k]))
    && (forall k: nat, t :: k < n && leads(raws[k], t) ==> Represented(items, picks, alike, k, t))
    && match r
       case Grounded(all) => all == items && (n == |raws| || |items| == cap)
       case InvalidResponse => |items| < cap && n < |raws| && raises(raws[n])
       case Crashed => false
  }

  ghost predicate Selects<A, T(!new)>(raws: seq<A>, leads: (A, T) -> bool, raises: A -> bool, alike: (T, T) -> bool,
                                      cap: nat, r: Outcome<T>)
  {
    exists items, picks, n :: SelectsAt(raws, leads, raises, alike, cap, r, items, picks, n)
  }

  /** The verdicts say of every item what it yields and whether it raises. */
  ghost predicate Judges<A, T(!new)>(verdicts: seq<Verdict<T>>, raws: seq<A>, leads: (A, T) -> bool,
                                     raises: A -> bool)
  {
    && |verdicts| == |raws|
    && (forall k, t :: 0 <= k < |raws| ==> (verdicts[k] == Accept(t) <==> leads(raws[k], t)))
    && (forall k :: 0 <= k < |raws| ==> !verdicts[k].Crash? && (verdicts[k].Reject? <==> raises(raws[k])))
  }

  lemma CollectSelects<A, T(!new)>(verdicts: seq<Verdict<T>>, raws: seq<A>, leads: (A, T) -> bool, raises: A -> bool,
                                   same: (T, T) -> bool, alike: (T, T) -> bool, cap: nat)
    requires Judges(verdicts, raws, leads, raises) && forall a, b :: same(a, b) <==> alike(a, b)
    ensures Selects(raws, leads, raises, alike, cap, Collect(verdicts, same, cap, []))
  {
    var r := Collect(verdicts, same, cap, []);
    var items, picks, n := CollectExact(verdicts, same, cap);
    hide Collect;
    forall k: nat, t | k < n && leads(raws[k], t) ensures Represented(items, picks, alike, k, t) {
      assert verdicts[k] == Accept(t);
      assert TakenUpTo(verdicts, same, items, picks, k);
      var i :| 0 <= i < |items| && (picks[i] == k || (picks[i] < k && same(items[i], verdicts[k].item)));
      assert verdicts[picks[i]] == Accept(items[i]);
    }
    assert |items| <= cap by { SizeWithinCap(verdicts, same, cap, r, items, picks, n); }
    assert SelectsAt(raws, leads, raises, alike, cap, r, items, picks, n);
  }

  /** When no item leads anywhere or raises, nothing is selected. */
  lemma SelectsNothing<A, T(!new)>(raws: seq<A>, leads: (A, T) -> bool, raises: A -> bool, alike: (T, T) -> bool,
                                   cap: nat)
    requires forall k :: 0 <= k < |raws| ==> !raises(raws[k]) && forall t :: !leads(raws[k], t)
    ensures Selects(raws, leads, raises, alike, cap, Grounded([]))
  {
    var picks: seq<nat> := [];
    assert SelectsAt(raws, leads, raises, alike, cap, Grounded([]), [], picks, |raws|);
  }

  lemma SizeWithinCap<T>(verdicts: seq<Verdict<T>>, same: (T, T) -> bool, cap: nat, r: Outcome<T>, items: seq<T>,
                         picks: seq<nat>, n: nat)
    requires IsCollected(verdicts, same, cap, r, items, picks, n)
    ensures |items| <= cap
  {}
}
