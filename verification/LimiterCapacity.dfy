/**
  When the login rate limiter forgets a lock. Beyond its number of keys it evicts the least
  recently seen ones, locked or not; and checks create entries as well as failures do.
 */
module LimiterCapacity {
  import opened Sets
  import opened RateLimiter

  /** The key that a check or a failure is about. */
  function UsedBy(op: Op): set<Key> {
    match op
    case Check(key, _) => {key}
    case Fail(key, _) => {key}
    case _ => {}
  }

  /** The keys that checks and failures have used. */
  function KeysUsed(steps: seq<Step>): set<Key> {
    if steps == [] then {} else KeysUsed(steps[..|steps| - 1]) + UsedBy(steps[|steps| - 1].op)
  }

  /** The check at step `n` says no exactly when the failures since the last reset lock its key. */
  ghost predicate AnswersAt(cfg: Config, steps: seq<Step>, n: nat)
    requires n < |steps| && steps[n].op.Check?
  {
    steps[n].answer <==> !Locked(cfg, FailuresSince(OpsOf(steps[..n]), steps[n].op.key), steps[n].op.now)
  }

  ghost predicate Answers(cfg: Config, steps: seq<Step>) {
    forall n: nat :: n < |steps| && steps[n].op.Check? ==> AnswersAt(cfg, steps, n)
  }

  // ---- enough room

  lemma FrontRuns(cfg: Config, steps: seq<Step>, n: nat)
    requires IsRun(cfg, steps) && n <= |steps|
    ensures IsRun(cfg, steps[..n])
  {
    forall m | 0 <= m < n ensures Continues(cfg, steps[..n][..m], steps[..n][m]) {
      assert steps[..n][..m] == steps[..m] && Continues(cfg, steps[..m], steps[m]);
    }
  }

  /** The last step of a run, and what came before it. */
  lemma LastStep(cfg: Config, steps: seq<Step>) returns (front: seq<Step>, s: Step)
    requires IsRun(cfg, steps) && steps != []
    ensures IsRun(cfg, front) && steps == front + [s]
    ensures IsStep(cfg, s) && s.before == EntriesAfter(front) && s.after == EntriesAfter(steps)
    ensures KeysUsed(steps) == KeysUsed(front) + UsedBy(s.op)
  {
    var n := |steps| - 1;
    front, s := steps[..n], steps[n];
    FrontRuns(cfg, steps, n);
    assert Continues(cfg, front, s);
  }

  /** There are entries only for keys that were used, so with few keys nothing overflows. */
  lemma {:induction false} NothingEvicted(cfg: Config, steps: seq<Step>)
    requires IsRun(cfg, steps) && |KeysUsed(steps)| <= cfg.maxKeys
    ensures EntriesAfter(steps).Keys <= KeysUsed(steps)
    ensures NoneEvicted(steps)
    decreases |steps|
  {
    if steps != [] {
      hide *;
      var front, s := LastStep(cfg, steps);
      UsedWithin(KeysUsed(front), UsedBy(s.op), KeysUsed(steps), cfg.maxKeys);
      NothingEvicted(cfg, front);
      StepStaysWithin(cfg, s, KeysUsed(front));
      NoneMore(front, s);
    }
  }

  lemma UsedWithin(front: set<Key>, more: set<Key>, used: set<Key>, count: nat)
    requires used == front + more && |used| <= count
    ensures |front| <= count
  {
    SubsetSize(front, used);
  }

  ghost predicate NoneEvicted(steps: seq<Step>) {
    forall i :: 0 <= i < |steps| ==> steps[i].evicted == {}
  }

  lemma NoneMore(front: seq<Step>, s: Step)
    requires NoneEvicted(front) && s.evicted == {}
    ensures NoneEvicted(front + [s])
  {}

  lemma StepStaysWithin(cfg: Config, s: Step, used: set<Key>)
    requires IsStep(cfg, s) && s.before.Keys <= used && |used| <= cfg.maxKeys
    ensures s.evicted == {}
    ensures s.after.Keys <= used + UsedBy(s.op)
  {
    SubsetSize(s.before.Keys, used);
    hide Checked, Failed, Stale;
    match s.op {
      case Fail(key, now) =>
        var pruned :| Pruned(cfg, s.before, now, pruned, s.evicted) &&
                      s.after == pruned[key := Failed(cfg, EntryAt(pruned, key), now)];
        var live := Live(cfg, s.before, now);
        assert live.Keys <= s.before.Keys;
        SubsetSize(live.Keys, s.before.Keys);
        assert |live| == |live.Keys|;
        assert pruned.Keys <= s.before.Keys;
      case _ =>
    }
  }

  lemma RoomForAll(cfg: Config, steps: seq<Step>)
    requires ValidConfig(cfg) && IsRun(cfg, steps) && |KeysUsed(steps)| <= cfg.maxKeys
    ensures Answers(cfg, steps)
  {
    NothingEvicted(cfg, steps);
    hide IsRun, Locked;
    forall n: nat | n < |steps| && steps[n].op.Check? ensures AnswersAt(cfg, steps, n) {
      ChecksAnswerTheHistory(cfg, steps, n);
      UnevictedHistory(steps[..n], steps[n].op.key);
    }
  }

  // ---- one key too many

  /** Different keys for different numbers. */
  function KeyNo(i: nat): (key: Key)
    ensures |key| == i
  {
    seq(i, _ => 'x')
  }

  function KeysUpTo(n: nat): set<Key> {
    set i: nat | i <= n :: KeyNo(i)
  }

  lemma {:induction false} KeyCount(n: nat)
    ensures |KeysUpTo(n)| == n + 1
  {
    if n == 0 {
      assert KeysUpTo(0) == {KeyNo(0)};
    } else {
      KeyCount(n - 1);
      assert KeysUpTo(n) == KeysUpTo(n - 1) + {KeyNo(n)};
      forall key | key in KeysUpTo(n - 1) ensures |key| < n {}
    }
  }

  /** A run with what it has come to: its keys, its entries, its time, and the failures of key 0. */
  ghost predicate At(cfg: Config, steps: seq<Step>, keys: set<Key>, entries: Entries, clock: real, failures: seq<real>)
  {
    && IsRun(cfg, steps) && KeysUsed(steps) <= keys && EntriesAfter(steps) == entries && Clock(steps) == clock
    && FailuresSince(OpsOf(steps), KeyNo(0)) == failures
  }

  lemma RunMore(cfg: Config, steps: seq<Step>, s: Step)
    requires IsRun(cfg, steps) && Continues(cfg, steps, s)
    ensures IsRun(cfg, steps + [s])
  {
    var more := steps + [s];
    hide Continues;
    forall m | 0 <= m < |more| ensures Continues(cfg, more[..m], more[m]) {
      if m < |steps| {
        assert more[..m] == steps[..m] && Continues(cfg, steps[..m], steps[m]);
      } else {
        assert more[..m] == steps;
      }
    }
  }

  lemma OpsMore(steps: seq<Step>, s: Step)
    ensures OpsOf(steps + [s]) == OpsOf(steps) + [s.op]
    ensures (OpsOf(steps) + [s.op])[..|steps|] == OpsOf(steps)
    ensures (steps + [s])[..|steps|] == steps
  {}

  /** A check or a failure more. */
  lemma AtMore(cfg: Config, steps: seq<Step>, keys: set<Key>, entries: Entries, clock: real, failures: seq<real>,
               s: Step)
    requires At(cfg, steps, keys, entries, clock, failures) && IsStep(cfg, s) && s.before == entries
    requires (s.op.Check? || s.op.Fail?) && clock <= s.op.now
    ensures At(cfg, steps + [s], keys + {s.op.key}, s.after, s.op.now,
               if s.op.Fail? && s.op.key == KeyNo(0) then failures + [s.op.now] else failures)
  {
    hide IsStep;
    RunMore(cfg, steps, s);
    OpsMore(steps, s);
    hide IsRun, OpsOf;
    assert KeysUsed(steps + [s]) == KeysUsed(steps) + UsedBy(s.op);
  }

  function Zeros(n: nat): (r: seq<real>)
    ensures |r| == n && forall i :: 0 <= i < n ==> r[i] == 0.0
  {
    seq(n, _ => 0.0)
  }

  /** What is left of `m` failures at time 0. */
  function LockedEntry(cfg: Config, m: nat): Entry {
    Entry(Zeros(m), if m >= cfg.maxAttempts && m > 0 then cfg.lock else 0.0, 0.0)
  }

  lemma {:induction false} RecentZeros(n: nat, cutoff: real)
    requires cutoff <= 0.0
    ensures Recent(Zeros(n), cutoff) == Zeros(n)
  {
    if n > 0 {
      assert Zeros(n)[..n - 1] == Zeros(n - 1);
      RecentZeros(n - 1, cutoff);
      assert Zeros(n) == Zeros(n - 1) + [0.0];
    }
  }

  function LockedEntries(cfg: Config, m: nat): Entries {
    if m == 0 then map[] else map[KeyNo(0) := LockedEntry(cfg, m)]
  }

  lemma OneMoreTime(cfg: Config, m: nat)
    requires ValidConfig(cfg) && m > 0
    ensures Failed(cfg, EntryAt(LockedEntries(cfg, m - 1), KeyNo(0)), 0.0) == LockedEntry(cfg, m)
    ensures Zeros(m) == Zeros(m - 1) + [0.0]
  {
    RecentZeros(m - 1, -cfg.window);
    assert Zeros(m) == Zeros(m - 1) + [0.0];
    assert EntryAt(LockedEntries(cfg, m - 1), KeyNo(0)) == LockedEntry(cfg, m - 1);
  }

  lemma OneMoreFailure(cfg: Config, m: nat)
    requires ValidConfig(cfg) && m > 0
    ensures IsStep(cfg, Step(Fail(KeyNo(0), 0.0), LockedEntries(cfg, m - 1), LockedEntries(cfg, m), {}, true))
    ensures Zeros(m) == Zeros(m - 1) + [0.0]
  {
    var before, key := LockedEntries(cfg, m - 1), KeyNo(0);
    OneMoreTime(cfg, m);
    NothingPruned(cfg, before);
    hide Failed, LockedEntry, Pruned, Zeros;
    assert before[key := Failed(cfg, EntryAt(before, key), 0.0)] == LockedEntries(cfg, m);
  }

  /** `m` failures of key 0 at time 0. */
  lemma {:induction false} FailingRun(cfg: Config, m: nat) returns (steps: seq<Step>)
    requires ValidConfig(cfg)
    ensures At(cfg, steps, {KeyNo(0)}, LockedEntries(cfg, m), 0.0, Zeros(m))
  {
    if m == 0 {
      steps := [];
    } else {
      var front := FailingRun(cfg, m - 1);
      OneMoreFailure(cfg, m);
      hide IsStep, At, LockedEntries;
      var s := Step(Fail(KeyNo(0), 0.0), LockedEntries(cfg, m - 1), LockedEntries(cfg, m), {}, true);
      AtMore(cfg, front, {KeyNo(0)}, LockedEntries(cfg, m - 1), 0.0, Zeros(m - 1), s);
      steps := front + [s];
      assert {KeyNo(0)} + {KeyNo(0)} == {KeyNo(0)};
    }
  }

  lemma NothingPruned(cfg: Config, entries: Entries)
    requires ValidConfig(cfg) && entries.Keys <= {KeyNo(0)}
    requires forall k :: k in entries ==> entries[k].lastSeen == 0.0
    ensures Pruned(cfg, entries, 0.0, entries, {})
  {
    var live := Live(cfg, entries, 0.0);
    assert live == entries;
    SubsetSize(entries.Keys, {KeyNo(0)});
    assert |live| == |live.Keys| && live - {} == live;
  }

  /** Key 0 locked at time 0, the keys 1 to `n` checked at time 0.25. */
  function CheckedEntries(cfg: Config, n: nat): Entries {
    map key | key in KeysUpTo(n) ::
      if key == KeyNo(0) then LockedEntry(cfg, cfg.maxAttempts) else Entry([], 0.0, 0.25)
  }

  lemma OneMoreCheck(cfg: Config, n: nat)
    requires ValidConfig(cfg) && n > 0
    ensures var before := CheckedEntries(cfg, n - 1);
      && IsStep(cfg, Step(Check(KeyNo(n), 0.25), before, CheckedEntries(cfg, n), {}, true))
      && KeysUpTo(n) == KeysUpTo(n - 1) + {KeyNo(n)}
  {
    var before, key := CheckedEntries(cfg, n - 1), KeyNo(n);
    assert KeysUpTo(n) == KeysUpTo(n - 1) + {key};
    assert key !in before;
    assert Checked(cfg, EntryAt(before, key), 0.25) == (Entry([], 0.0, 0.25), true);
    hide Checked, LockedEntry;
    assert before[key := Entry([], 0.0, 0.25)] == CheckedEntries(cfg, n);
  }

  lemma {:induction false} CheckingRun(cfg: Config, n: nat) returns (steps: seq<Step>, clock: real)
    requires ValidConfig(cfg)
    ensures At(cfg, steps, KeysUpTo(n), CheckedEntries(cfg, n), clock, Zeros(cfg.maxAttempts))
    ensures clock <= 0.25
  {
    if n == 0 {
      steps := FailingRun(cfg, cfg.maxAttempts);
      clock := 0.0;
      hide At, LockedEntry;
      assert KeysUpTo(0) == {KeyNo(0)};
      assert CheckedEntries(cfg, 0) == LockedEntries(cfg, cfg.maxAttempts);
    } else {
      var front, before := CheckingRun(cfg, n - 1);
      OneMoreCheck(cfg, n);
      hide IsStep, At, CheckedEntries, KeysUpTo;
      var s := Step(Check(KeyNo(n), 0.25), CheckedEntries(cfg, n - 1), CheckedEntries(cfg, n), {}, true);
      AtMore(cfg, front, KeysUpTo(n - 1), CheckedEntries(cfg, n - 1), before, Zeros(cfg.maxAttempts), s);
      steps, clock := front + [s], 0.25;
    }
  }

  /** The next failure evicts the locked key, the only one last seen at time 0. */
  lemma LockIsEvicted(cfg: Config)
    requires ValidConfig(cfg)
    ensures var before := CheckedEntries(cfg, cfg.maxKeys);
      Pruned(cfg, before, 0.5, before - {KeyNo(0)}, {KeyNo(0)})
  {
    var before := CheckedEntries(cfg, cfg.maxKeys);
    assert KeyNo(0) in KeysUpTo(cfg.maxKeys);
    KeyCount(cfg.maxKeys);
    hide KeysUpTo;
    var live := Live(cfg, before, 0.5);
    assert live == before;
    assert live.Keys == KeysUpTo(cfg.maxKeys) && |live| == |live.Keys|;
  }

  lemma ZerosLock(cfg: Config, now: real)
    requires ValidConfig(cfg) && now < cfg.lock
    ensures Locked(cfg, Zeros(cfg.maxAttempts), now)
  {
    var zeros, i := Zeros(cfg.maxAttempts), cfg.maxAttempts - 1;
    assert zeros[..i + 1] == zeros;
    RecentZeros(cfg.maxAttempts, -cfg.window);
    assert Completes(cfg, zeros, i);
  }

  /** The step that evicts the lock: a failure of key 1. */
  function EvictingStep(cfg: Config): Step {
    var before := CheckedEntries(cfg, cfg.maxKeys);
    var pruned := before - {KeyNo(0)};
    Step(Fail(KeyNo(1), 0.5), before, pruned[KeyNo(1) := Failed(cfg, EntryAt(pruned, KeyNo(1)), 0.5)], {KeyNo(0)}, true)
  }

  lemma EvictingIsStep(cfg: Config)
    requires ValidConfig(cfg)
    ensures IsStep(cfg, EvictingStep(cfg)) && KeyNo(0) !in EvictingStep(cfg).after
  {
    LockIsEvicted(cfg);
    assert KeyNo(0) != KeyNo(1);
    hide Pruned, Failed, CheckedEntries;
    var before := CheckedEntries(cfg, cfg.maxKeys);
    assert Pruned(cfg, before, 0.5, before - {KeyNo(0)}, {KeyNo(0)});
  }

  /** The check that lets key 0 in again. */
  function AdmittingStep(cfg: Config, entries: Entries): Step {
    Step(Check(KeyNo(0), 0.75), entries, entries[KeyNo(0) := Entry([], 0.0, 0.75)], {}, true)
  }

  lemma AdmittingIsStep(cfg: Config, entries: Entries)
    requires KeyNo(0) !in entries
    ensures IsStep(cfg, AdmittingStep(cfg, entries))
  {
    assert Checked(cfg, NEW_ENTRY, 0.75) == (Entry([], 0.0, 0.75), true);
  }

  /** The locked key and all others, a failure that evicts the lock, a check of the key. */
  lemma EvictingRun(cfg: Config) returns (front: seq<Step>, last: Step)
    requires ValidConfig(cfg)
    ensures IsRun(cfg, front + [last]) && KeysUsed(front + [last]) <= KeysUpTo(cfg.maxKeys)
    ensures FailuresSince(OpsOf(front), KeyNo(0)) == Zeros(cfg.maxAttempts)
    ensures last.op == Check(KeyNo(0), 0.75) && last.answer
  {
    var n, zeros := cfg.maxKeys, Zeros(cfg.maxAttempts);
    var checked, clock := CheckingRun(cfg, n);
    var s := EvictingStep(cfg);
    EvictingIsStep(cfg);
    last := AdmittingStep(cfg, s.after);
    AdmittingIsStep(cfg, s.after);
    front := checked + [s];
    FirstKeys(n);
    assert s.op == Fail(KeyNo(1), 0.5) && s.before == CheckedEntries(cfg, n);
    assert last.op == Check(KeyNo(0), 0.75) && last.before == s.after && last.answer;
    hide *;
    AtMore(cfg, checked, KeysUpTo(n), s.before, clock, zeros, s);
    var keys := KeysUpTo(n) + {KeyNo(1)};
    AtMore(cfg, front, keys, s.after, 0.5, zeros, last);
    AtMeans(cfg, front, keys, s.after, 0.5, zeros);
    AtMeans(cfg, front + [last], keys + {KeyNo(0)}, last.after, 0.75, zeros);
  }

  lemma AtMeans(cfg: Config, steps: seq<Step>, keys: set<Key>, entries: Entries, clock: real, failures: seq<real>)
    requires At(cfg, steps, keys, entries, clock, failures)
    ensures IsRun(cfg, steps) && KeysUsed(steps) <= keys && FailuresSince(OpsOf(steps), KeyNo(0)) == failures
  {}

  lemma FirstKeys(n: nat)
    requires n >= 1
    ensures KeyNo(0) in KeysUpTo(n) && KeyNo(1) in KeysUpTo(n) && KeyNo(1) != KeyNo(0)
  {}

  /** A check says yes although the failures since the last reset lock its key. */
  ghost predicate LetsLockedIn(cfg: Config, before: seq<Step>, s: Step) {
    s.op.Check? && s.answer && Locked(cfg, FailuresSince(OpsOf(before), s.op.key), s.op.now)
  }

  /** The last step is such a check. */
  ghost predicate EndsForgetful(cfg: Config, steps: seq<Step>) {
    steps != [] && LetsLockedIn(cfg, steps[..|steps| - 1], steps[|steps| - 1])
  }

  lemma LastForgets(cfg: Config, front: seq<Step>, last: Step)
    requires LetsLockedIn(cfg, front, last)
    ensures EndsForgetful(cfg, front + [last])
  {
    assert (front + [last])[..|front|] == front;
  }

  lemma NotAnswered(cfg: Config, steps: seq<Step>)
    requires EndsForgetful(cfg, steps)
    ensures !Answers(cfg, steps)
  {
    hide FailuresSince, Locked, OpsOf;
    assert !AnswersAt(cfg, steps, |steps| - 1);
  }

  /** There is a run over one key more than fit at whose end a locked key is let in. */
  lemma ForgottenLock(cfg: Config)
    requires ValidConfig(cfg)
    ensures exists steps :: IsRun(cfg, steps) && |KeysUsed(steps)| <= cfg.maxKeys + 1 && EndsForgetful(cfg, steps)
  {
    var front, last := EvictingRun(cfg);
    var steps := front + [last];
    KeyCount(cfg.maxKeys);
    ZerosLock(cfg, 0.75);
    assert LetsLockedIn(cfg, front, last);
    SubsetSize(KeysUsed(steps), KeysUpTo(cfg.maxKeys));
    hide *;
    LastForgets(cfg, front, last);
    assert IsRun(cfg, steps) && |KeysUsed(steps)| <= cfg.maxKeys + 1 && EndsForgetful(cfg, steps);
  }

  /**
    The limiter answers by the failures since the last reset, in every run over at most `count`
    keys, if and only if that many keys fit.
   */
  lemma AnswersIfRoom(cfg: Config, count: nat)
    requires ValidConfig(cfg)
    ensures (forall steps :: IsRun(cfg, steps) && |KeysUsed(steps)| <= count ==> Answers(cfg, steps)) <==>
            count <= cfg.maxKeys
  {
    hide IsRun, Answers, KeysUsed, EndsForgetful;
    if count <= cfg.maxKeys {
      forall steps | IsRun(cfg, steps) && |KeysUsed(steps)| <= count ensures Answers(cfg, steps) {
        RoomForAll(cfg, steps);
      }
    } else {
      ForgottenLock(cfg);
      var steps :| IsRun(cfg, steps) && |KeysUsed(steps)| <= cfg.maxKeys + 1 && EndsForgetful(cfg, steps);
      NotAnswered(cfg, steps);
    }
  }
}
