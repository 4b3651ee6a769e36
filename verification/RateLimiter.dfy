/**
  The login rate limiter (`LoginRateLimiter` of security.py) against the definition it
  stands for: a key is locked while some failure that completed a full window is younger
  than the lock time.

  The limiter keeps trimmed failure lists and drops entries. Times are real numbers read
  from a clock that starts at 0 or later and does not go back. A key is the hash of address
  and client.
 */
module RateLimiter {
  datatype Config = Config(window: real, maxAttempts: nat, lock: real, maxKeys: nat)

  ghost predicate ValidConfig(cfg: Config) {
    cfg.window >= 1.0 && cfg.maxAttempts >= 1 && cfg.lock >= 1.0 && cfg.maxKeys >= 1
  }

  datatype Entry = Entry(failures: seq<real>, lockedUntil: real, lastSeen: real)

  type Key = string

  type Entries = map<Key, Entry>

  const NEW_ENTRY: Entry := Entry([], 0.0, 0.0)

  // ---- the definition

  /** The times from `cutoff` on. */
  function Recent(times: seq<real>, cutoff: real): seq<real> {
    if times == [] then []
    else
      var n := |times| - 1;
      Recent(times[..n], cutoff) + (if times[n] >= cutoff then [times[n]] else [])
  }

  /** Failure `i` completes a window of at least `maxAttempts` failures. */
  predicate Completes(cfg: Config, history: seq<real>, i: nat)
    requires i < |history|
  {
    |Recent(history[..i + 1], history[i] - cfg.window)| >= cfg.maxAttempts
  }

  /** Some failure that completed a window is less than `lock` old. */
  ghost predicate Locked(cfg: Config, history: seq<real>, now: real) {
    exists i :: 0 <= i < |history| && Completes(cfg, history, i) && now - history[i] < cfg.lock
  }

  // ---- the operations

  datatype Op = Check(key: Key, now: real) | Fail(key: Key, now: real) | Reset(key: Key) | ResetAll

  function EntryAt(entries: Entries, key: Key): Entry {
    if key in entries then entries[key] else NEW_ENTRY
  }

  predicate Stale(cfg: Config, e: Entry, now: real) {
    e.lastSeen < now - (if cfg.window >= cfg.lock then cfg.window else cfg.lock) && e.lockedUntil < now
  }

  function Live(cfg: Config, entries: Entries, now: real): Entries {
    map k | k in entries && !Stale(cfg, entries[k], now) :: entries[k]
  }

  /** `_prune`: stale entries go; if too many remain, the least recently seen go as well. */
  ghost predicate Pruned(cfg: Config, before: Entries, now: real, after: Entries, evicted: set<Key>) {
    var live := Live(cfg, before, now);
    && evicted <= live.Keys && after == live - evicted
    && |evicted| == (if |live| > cfg.maxKeys then |live| - cfg.maxKeys else 0)
    && forall k, j :: k in evicted && j in after ==> live[k].lastSeen <= live[j].lastSeen
  }

  /** The entry after a check, and the answer. */
  function Checked(cfg: Config, e: Entry, now: real): (Entry, bool) {
    if e.lockedUntil > now then (e.(lastSeen := now), false)
    else (Entry(Recent(e.failures, now - cfg.window), e.lockedUntil, now), true)
  }

  /** The entry after a recorded failure. */
  function Failed(cfg: Config, e: Entry, now: real): Entry {
    var failures := Recent(e.failures, now - cfg.window) + [now];
    Entry(failures, if |failures| >= cfg.maxAttempts then now + cfg.lock else e.lockedUntil, now)
  }

  /** One operation: the entries before and after, what overflow evicted, and the answer of a check. */
  datatype Step = Step(op: Op, before: Entries, after: Entries, evicted: set<Key>, answer: bool)

  ghost predicate IsStep(cfg: Config, s: Step) {
    match s.op
    case Check(key, now) =>
      var (entry, answer) := Checked(cfg, EntryAt(s.before, key), now);
      s.after == s.before[key := entry] && s.answer == answer && s.evicted == {}
    case Fail(key, now) =>
      exists pruned :: Pruned(cfg, s.before, now, pruned, s.evicted) &&
                       s.after == pruned[key := Failed(cfg, EntryAt(pruned, key), now)]
    case Reset(key) => s.after == s.before - {key} && s.evicted == {}
    case ResetAll => s.after == map[] && s.evicted == {}
  }

  // ---- the class

  class LoginRateLimiter {
    const cfg: Config
    var entries: Entries

    constructor (cfg: Config)
      ensures this.cfg == cfg && entries == map[]
    {
      this.cfg := cfg;
      entries := map[];
    }

    method CheckAllowed(key: Key, now: real) returns (allowed: bool)
      modifies this
      ensures IsStep(cfg, Step(Check(key, now), old(entries), entries, {}, allowed))
    {
      var entry := EntryAt(entries, key).(lastSeen := now);
      entries := entries[key := entry];
      if entry.lockedUntil > now {
        return false;
      }
      var cutoff := now - cfg.window;
      entries := entries[key := entry.(failures := Recent(entry.failures, cutoff))];
      allowed := true;
    }

    method RecordFailure(key: Key, now: real) returns (ghost evicted: set<Key>)
      requires ValidConfig(cfg)
      modifies this
      ensures IsStep(cfg, Step(Fail(key, now), old(entries), entries, evicted, true))
      ensures |entries| <= cfg.maxKeys + 1
    {
      hide Pruned, Recent, Live;
      evicted := Prune(now);
      ghost var pruned := entries;
      PrunedFits(cfg, old(entries), now, pruned, evicted);
      var entry := EntryAt(entries, key).(lastSeen := now);
      var cutoff := now - cfg.window;
      entry := entry.(failures := Recent(entry.failures, cutoff));
      entry := entry.(failures := entry.failures + [now]);
      if |entry.failures| >= cfg.maxAttempts {
        entry := entry.(lockedUntil := now + cfg.lock);
      }
      entries := entries[key := entry];
      assert entries == pruned[key := Failed(cfg, EntryAt(pruned, key), now)];
      OneKeyMore(pruned, key, entry);
    }

    method ResetKey(key: Key)
      modifies this
      ensures IsStep(cfg, Step(Reset(key), old(entries), entries, {}, true))
    {
      entries := entries - {key};
    }

    method ResetEverything()
      modifies this
      ensures IsStep(cfg, Step(ResetAll, old(entries), entries, {}, true))
    {
      entries := map[];
    }

    method Prune(now: real) returns (ghost evicted: set<Key>)
      modifies this
      ensures Pruned(cfg, old(entries), now, entries, evicted)
    {
      hide Stale;
      var staleKeys := set k | k in entries && Stale(cfg, entries[k], now);
      entries := entries - staleKeys;
      ghost var live := Live(cfg, old(entries), now);
      assert entries == live;
      evicted := {};
      assert Evicting(live, entries, evicted) by { assert live - {} == live; }
      var overflow := |entries| - cfg.maxKeys;
      if overflow <= 0 {
        return;
      }
      var removed := 0;
      while removed < overflow
        invariant 0 <= removed <= overflow && |evicted| == removed && |entries| == |live| - removed
        invariant Evicting(live, entries, evicted)
      {
        OldestExists(entries);
        var oldest :| oldest in entries && forall j :: j in entries ==> entries[oldest].lastSeen <= entries[j].lastSeen;
        EvictOne(live, entries, evicted, oldest);
        evicted := evicted + {oldest};
        entries := entries - {oldest};
        removed := removed + 1;
      }
    }
  }

  lemma OneKeyMore(entries: Entries, key: Key, e: Entry)
    ensures |entries[key := e]| <= |entries| + 1
  {
    assert entries[key := e].Keys == entries.Keys + {key};
    assert |entries| == |entries.Keys| && |entries[key := e]| == |entries[key := e].Keys|;
  }

  /** Some of the live entries have been evicted, none seen later than one that is left. */
  ghost predicate Evicting(live: Entries, entries: Entries, evicted: set<Key>) {
    && evicted <= live.Keys && entries == live - evicted
    && forall k, j :: k in evicted && j in entries ==> live[k].lastSeen <= live[j].lastSeen
  }

  lemma EvictOne(live: Entries, entries: Entries, evicted: set<Key>, oldest: Key)
    requires Evicting(live, entries, evicted) && oldest in entries
    requires forall j :: j in entries ==> entries[oldest].lastSeen <= entries[j].lastSeen
    ensures Evicting(live, entries - {oldest}, evicted + {oldest})
    ensures |evicted + {oldest}| == |evicted| + 1 && |entries - {oldest}| == |entries| - 1
  {
    assert entries - {oldest} == live - (evicted + {oldest});
    assert (entries - {oldest}).Keys == entries.Keys - {oldest};
    assert |entries| == |entries.Keys| && |entries - {oldest}| == |(entries - {oldest}).Keys|;
  }

  lemma OldestExists(entries: Entries)
    requires |entries| > 0
    ensures exists k :: k in entries && forall j :: j in entries ==> entries[k].lastSeen <= entries[j].lastSeen
  {
    assert |entries.Keys| == |entries|;
    OldestOf(entries, entries.Keys);
  }

  lemma OldestOf(entries: Entries, keys: set<Key>)
    requires keys <= entries.Keys && keys != {}
    ensures exists k :: k in keys && forall j :: j in keys ==> entries[k].lastSeen <= entries[j].lastSeen
  {
    var x :| x in keys;
    var rest := keys - {x};
    if rest == {} {
      assert forall j :: j in keys ==> j == x || j in rest;
    } else {
      OldestOf(entries, rest);
      var k :| k in rest && forall j :: j in rest ==> entries[k].lastSeen <= entries[j].lastSeen;
      var oldest := if entries[x].lastSeen <= entries[k].lastSeen then x else k;
      assert forall j :: j in keys ==> j == x || j in rest;
    }
  }

  /** After pruning at most `maxKeys` entries are left, none of them seen before an evicted one. */
  lemma PrunedFits(cfg: Config, before: Entries, now: real, after: Entries, evicted: set<Key>)
    requires Pruned(cfg, before, now, after, evicted)
    ensures |after| <= cfg.maxKeys
    ensures forall k :: k in after ==> k in before && after[k] == before[k] && !Stale(cfg, before[k], now)
    ensures forall k, j :: k in evicted && j in after ==> before[k].lastSeen <= before[j].lastSeen
    ensures forall k :: k in before && k !in after && k !in evicted ==> Stale(cfg, before[k], now)
  {
    var live := Live(cfg, before, now);
    assert after.Keys == live.Keys - evicted;
    assert |after| == |after.Keys| && |live| == |live.Keys|;
    assert live.Keys == after.Keys + evicted;
  }

  // ---- what one entry remembers of a history

  ghost predicate Ordered(times: seq<real>) {
    forall i, j :: 0 <= i < j < |times| ==> times[i] <= times[j]
  }

  /**
    `failures` and `lockedUntil` answer every question from `clock` on as the full history
    does: the failures left out are too old to count, and the lock ends when it should.
   */
  ghost predicate Tracks(cfg: Config, history: seq<real>, failures: seq<real>, lockedUntil: real, clock: real) {
    && (forall i :: 0 <= i < |history| ==> history[i] <= clock)
    && (exists dropped :: IsTrimmed(cfg, history, dropped, failures, clock))
    && (forall now :: now >= clock ==> (lockedUntil > now <==> Locked(cfg, history, now)))
  }

  ghost predicate IsTrimmed(cfg: Config, history: seq<real>, dropped: seq<real>, failures: seq<real>, clock: real) {
    history == dropped + failures && forall i :: 0 <= i < |dropped| ==> dropped[i] < clock - cfg.window
  }

  lemma {:induction false} RecentConcat(a: seq<real>, b: seq<real>, cutoff: real)
    ensures Recent(a + b, cutoff) == Recent(a, cutoff) + Recent(b, cutoff)
  {
    if b == [] {
      assert a + b == a;
    } else {
      var n := |b| - 1;
      assert (a + b)[..|a + b| - 1] == a + b[..n];
      RecentConcat(a, b[..n], cutoff);
    }
  }

  lemma {:induction false} RecentOfOld(times: seq<real>, cutoff: real)
    requires forall i :: 0 <= i < |times| ==> times[i] < cutoff
    ensures Recent(times, cutoff) == []
  {
    if times != [] {
      RecentOfOld(times[..|times| - 1], cutoff);
    }
  }

  lemma RecentLast(front: seq<real>, last: real, cutoff: real)
    ensures Recent(front + [last], cutoff) == Recent(front, cutoff) + (if last >= cutoff then [last] else [])
  {
    assert (front + [last])[..|front|] == front;
  }

  /** In a time-ordered list the recent times are a tail. */
  lemma {:induction false} RecentIsTail(times: seq<real>, cutoff: real) returns (k: nat)
    requires Ordered(times)
    ensures k <= |times| && Recent(times, cutoff) == times[k..]
    ensures forall i :: 0 <= i < k ==> times[i] < cutoff
  {
    if times == [] {
      k := 0;
    } else {
      hide Recent;
      var front, last := times[..|times| - 1], times[|times| - 1];
      assert times == front + [last];
      if last < cutoff {
        k := |times|;
        RecentOfOld(times, cutoff);
      } else {
        k := RecentIsTail(front, cutoff);
        RecentLast(front, last, cutoff);
        assert (front + [last])[k..] == front[k..] + [last];
      }
    }
  }

  lemma TracksLater(cfg: Config, history: seq<real>, failures: seq<real>, lockedUntil: real, clock: real, now: real)
    requires Tracks(cfg, history, failures, lockedUntil, clock) && clock <= now
    ensures Tracks(cfg, history, failures, lockedUntil, now)
  {
    hide Locked;
    var dropped :| IsTrimmed(cfg, history, dropped, failures, clock);
    assert IsTrimmed(cfg, history, dropped, failures, now);
  }

  /** Trimming to the window loses nothing. */
  lemma TracksTrimmed(cfg: Config, history: seq<real>, failures: seq<real>, lockedUntil: real, now: real)
    requires Tracks(cfg, history, failures, lockedUntil, now) && Ordered(history)
    ensures Tracks(cfg, history, Recent(failures, now - cfg.window), lockedUntil, now)
  {
    hide Locked, Recent;
    var dropped :| IsTrimmed(cfg, history, dropped, failures, now);
    assert Ordered(failures) by {
      forall i, j | 0 <= i < j < |failures| ensures failures[i] <= failures[j] {
        assert failures[i] == history[|dropped| + i] && failures[j] == history[|dropped| + j];
      }
    }
    var k := RecentIsTail(failures, now - cfg.window);
    assert history == (dropped + failures[..k]) + failures[k..];
    assert IsTrimmed(cfg, history, dropped + failures[..k], failures[k..], now);
  }

  /** The failures kept count exactly the failures of the window. */
  lemma WindowCount(cfg: Config, history: seq<real>, failures: seq<real>, lockedUntil: real, now: real)
    requires Tracks(cfg, history, failures, lockedUntil, now)
    ensures Recent(history, now - cfg.window) == Recent(failures, now - cfg.window)
  {
    hide Locked, Recent;
    var dropped :| IsTrimmed(cfg, history, dropped, failures, now);
    RecentConcat(dropped, failures, now - cfg.window);
    RecentOfOld(dropped, now - cfg.window);
  }

  lemma LockedAfterFailure(cfg: Config, history: seq<real>, now: real, later: real)
    ensures Locked(cfg, history + [now], later) <==>
            Locked(cfg, history, later) || (Completes(cfg, history + [now], |history|) && later - now < cfg.lock)
  {
    var more := history + [now];
    assert forall i :: 0 <= i < |history| ==> more[..i + 1] == history[..i + 1] && more[i] == history[i];
    hide Recent;
    forall i | 0 <= i < |history| ensures Completes(cfg, more, i) <==> Completes(cfg, history, i) {}
    if Locked(cfg, history, later) {
      var i :| 0 <= i < |history| && Completes(cfg, history, i) && later - history[i] < cfg.lock;
      assert Completes(cfg, more, i) && later - more[i] < cfg.lock;
    }
    if Completes(cfg, more, |history|) && later - now < cfg.lock {
      assert more[|history|] == now;
    }
  }

  /** Recording a failure keeps the entry in step with the history. */
  lemma TracksFailure(cfg: Config, history: seq<real>, e: Entry, now: real)
    requires ValidConfig(cfg) && Ordered(history) && Tracks(cfg, history, e.failures, e.lockedUntil, now)
    ensures var f := Failed(cfg, e, now);
      Tracks(cfg, history + [now], f.failures, f.lockedUntil, now)
  {
    hide Locked, Completes, Recent;
    var f, more := Failed(cfg, e, now), history + [now];
    WindowCount(cfg, history, e.failures, e.lockedUntil, now);
    CompletesNow(cfg, history, now);
    TracksTrimmed(cfg, history, e.failures, e.lockedUntil, now);
    var recent := Recent(e.failures, now - cfg.window);
    var dropped :| IsTrimmed(cfg, history, dropped, recent, now);
    assert more == dropped + (recent + [now]);
    assert IsTrimmed(cfg, more, dropped, f.failures, now);
    forall later | later >= now ensures f.lockedUntil > later <==> Locked(cfg, more, later) {
      LockedAfterFailure(cfg, history, now, later);
      if Locked(cfg, history, later) {
        LockEndsInTime(cfg, history, now, later);
      }
    }
  }

  lemma CompletesNow(cfg: Config, history: seq<real>, now: real)
    requires ValidConfig(cfg)
    ensures Completes(cfg, history + [now], |history|) <==>
            |Recent(history, now - cfg.window) + [now]| >= cfg.maxAttempts
  {
    var more := history + [now];
    assert more[..|history| + 1] == more && more[..|history|] == history;
    assert Recent(more, now - cfg.window) == Recent(more[..|more| - 1], now - cfg.window) + [now];
  }

  lemma LockEndsInTime(cfg: Config, history: seq<real>, now: real, later: real)
    requires Locked(cfg, history, later) && forall i :: 0 <= i < |history| ==> history[i] <= now
    ensures later - now < cfg.lock
  {
    hide Completes;
  }

  // ---- runs

  /** The failures of a key since it was last reset, or evicted by overflow. */
  function HistoryOf(steps: seq<Step>, key: Key): seq<real> {
    if steps == [] then []
    else
      var before, s := HistoryOf(steps[..|steps| - 1], key), steps[|steps| - 1];
      var kept := if key in s.evicted then [] else before;
      match s.op
      case Check(_, _) => kept
      case Fail(k, now) => if k == key then kept + [now] else kept
      case Reset(k) => if k == key then [] else kept
      case ResetAll => []
  }

  /** The last time read from the clock. */
  function Clock(steps: seq<Step>): real {
    if steps == [] then 0.0
    else
      match steps[|steps| - 1].op
      case Check(_, now) => now
      case Fail(_, now) => now
      case _ => Clock(steps[..|steps| - 1])
  }

  function EntriesAfter(steps: seq<Step>): Entries {
    if steps == [] then map[] else steps[|steps| - 1].after
  }

  /** Steps of one limiter, from the start on, under a clock that does not go back. */
  ghost predicate IsRun(cfg: Config, steps: seq<Step>) {
    forall n :: 0 <= n < |steps| ==> Continues(cfg, steps[..n], steps[n])
  }

  ghost predicate Continues(cfg: Config, before: seq<Step>, s: Step) {
    && IsStep(cfg, s) && s.before == EntriesAfter(before)
    && (s.op.Check? || s.op.Fail? ==> Clock(before) <= s.op.now)
  }

  /** The entry of a key, or its absence, is in step with the key's history. */
  ghost predicate InStep(cfg: Config, entries: Entries, key: Key, history: seq<real>, clock: real) {
    && clock >= 0.0 && Ordered(history)
    && Tracks(cfg, history, EntryAt(entries, key).failures, EntryAt(entries, key).lockedUntil, clock)
    && (key in entries ==> forall i :: 0 <= i < |history| ==> history[i] <= entries[key].lastSeen)
  }

  lemma EmptyInStep(cfg: Config, entries: Entries, key: Key, clock: real)
    requires key !in entries && clock >= 0.0
    ensures InStep(cfg, entries, key, [], clock)
  {
    assert IsTrimmed(cfg, [], [], [], clock);
  }

  lemma CheckInStep(cfg: Config, entries: Entries, key: Key, other: Key, history: seq<real>, clock: real, now: real)
    requires ValidConfig(cfg) && InStep(cfg, entries, key, history, clock) && clock <= now
    ensures var (entry, answer) := Checked(cfg, EntryAt(entries, other), now);
      && InStep(cfg, entries[other := entry], key, history, now)
      && (other == key ==> answer == !Locked(cfg, history, now))
  {
    hide Locked, Recent;
    var e := EntryAt(entries, key);
    TracksLater(cfg, history, e.failures, e.lockedUntil, clock, now);
    TracksTrimmed(cfg, history, e.failures, e.lockedUntil, now);
  }

  /** Pruning is invisible to every key that overflow does not evict. */
  lemma PruneInStep(cfg: Config, before: Entries, now: real, after: Entries, evicted: set<Key>, key: Key,
                    history: seq<real>, clock: real)
    requires ValidConfig(cfg) && Pruned(cfg, before, now, after, evicted)
    requires InStep(cfg, before, key, history, clock) && clock <= now
    ensures InStep(cfg, after, key, if key in evicted then [] else history, now)
  {
    hide Locked, Pruned;
    PrunedFits(cfg, before, now, after, evicted);
    EvictedGone(cfg, before, now, after, evicted);
    if key in evicted {
      EmptyInStep(cfg, after, key, now);
    } else {
      var e := EntryAt(before, key);
      TracksLater(cfg, history, e.failures, e.lockedUntil, clock, now);
      if key in before && key !in after {
        StaleTracks(cfg, history, e, now);
      }
    }
  }

  lemma EvictedGone(cfg: Config, before: Entries, now: real, after: Entries, evicted: set<Key>)
    requires Pruned(cfg, before, now, after, evicted)
    ensures forall k :: k in evicted ==> k !in after
  {}

  /** A stale entry says no more than no entry. */
  lemma StaleTracks(cfg: Config, history: seq<real>, e: Entry, now: real)
    requires ValidConfig(cfg) && now >= 0.0 && Stale(cfg, e, now)
    requires Tracks(cfg, history, e.failures, e.lockedUntil, now)
    requires forall i :: 0 <= i < |history| ==> history[i] <= e.lastSeen
    ensures Tracks(cfg, history, [], 0.0, now)
  {
    hide Locked;
    assert IsTrimmed(cfg, history, history, [], now);
  }

  lemma FailInStep(cfg: Config, entries: Entries, key: Key, other: Key, history: seq<real>, now: real)
    requires ValidConfig(cfg) && InStep(cfg, entries, key, history, now)
    ensures InStep(cfg, entries[other := Failed(cfg, EntryAt(entries, other), now)], key,
                   if other == key then history + [now] else history, now)
  {
    hide Locked, Recent, Completes;
    if other == key {
      TracksFailure(cfg, history, EntryAt(entries, key), now);
    }
  }

  lemma {:induction false} RunInStep(cfg: Config, steps: seq<Step>, key: Key)
    requires ValidConfig(cfg) && IsRun(cfg, steps)
    ensures InStep(cfg, EntriesAfter(steps), key, HistoryOf(steps, key), Clock(steps))
  {
    hide InStep, Pruned, Checked, Failed;
    if steps == [] {
      EmptyInStep(cfg, map[], key, 0.0);
    } else {
      var n := |steps| - 1;
      var front, s := steps[..n], steps[n];
      assert IsRun(cfg, front) by {
        forall m | 0 <= m < |front| ensures Continues(cfg, front[..m], front[m]) {
          assert Continues(cfg, steps[..m], steps[m]) && front[..m] == steps[..m];
        }
      }
      RunInStep(cfg, front, key);
      assert Continues(cfg, front, s);
      StepInStep(cfg, steps, key);
    }
  }

  lemma StepInStep(cfg: Config, steps: seq<Step>, key: Key)
    requires ValidConfig(cfg) && steps != []
    requires var front, s := steps[..|steps| - 1], steps[|steps| - 1];
      Continues(cfg, front, s) && InStep(cfg, EntriesAfter(front), key, HistoryOf(front, key), Clock(front))
    ensures InStep(cfg, EntriesAfter(steps), key, HistoryOf(steps, key), Clock(steps))
  {
    var front, s := steps[..|steps| - 1], steps[|steps| - 1];
    var history, clock := HistoryOf(front, key), Clock(front);
    assert clock >= 0.0;
    hide InStep, Pruned, Checked, Failed;
    match s.op {
      case Check(k, now) =>
        CheckInStep(cfg, s.before, key, k, history, clock, now);
      case Fail(k, now) =>
        var pruned :| Pruned(cfg, s.before, now, pruned, s.evicted) &&
                      s.after == pruned[k := Failed(cfg, EntryAt(pruned, k), now)];
        PruneInStep(cfg, s.before, now, pruned, s.evicted, key, history, clock);
        FailInStep(cfg, pruned, key, k, if key in s.evicted then [] else history, now);
      case Reset(k) =>
        if k == key {
          EmptyInStep(cfg, s.after, key, clock);
        } else {
          OthersInStep(cfg, s.before, s.after, key, history, clock);
        }
      case ResetAll =>
        EmptyInStep(cfg, s.after, key, clock);
    }
  }

  lemma OthersInStep(cfg: Config, before: Entries, after: Entries, key: Key, history: seq<real>, clock: real)
    requires InStep(cfg, before, key, history, clock) && EntryAt(after, key) == EntryAt(before, key)
    requires key in after <==> key in before
    ensures InStep(cfg, after, key, history, clock)
  {
    hide Tracks;
  }

  /**
    In every run, a check says no exactly when the full history of the key is locked: some
    failure since its last reset completed a window and is less than `lock` old. Trimming and
    stale pruning never show; being evicted by overflow counts as a reset.
   */
  lemma ChecksAnswerTheHistory(cfg: Config, steps: seq<Step>, n: nat)
    requires ValidConfig(cfg) && IsRun(cfg, steps) && n < |steps| && steps[n].op.Check?
    ensures steps[n].answer <==> !Locked(cfg, HistoryOf(steps[..n], steps[n].op.key), steps[n].op.now)
  {
    hide InStep, Locked, Checked;
    var front, s := steps[..n], steps[n];
    assert IsRun(cfg, front) by {
      forall m | 0 <= m < |front| ensures Continues(cfg, front[..m], front[m]) {
        assert Continues(cfg, steps[..m], steps[m]) && front[..m] == steps[..m];
      }
    }
    RunInStep(cfg, front, s.op.key);
    assert Continues(cfg, front, s);
    CheckInStep(cfg, s.before, s.op.key, s.op.key, HistoryOf(front, s.op.key), Clock(front), s.op.now);
  }

  /** The failures of a key since its last reset, read off the operations alone. */
  function FailuresSince(ops: seq<Op>, key: Key): seq<real> {
    if ops == [] then []
    else
      var before := FailuresSince(ops[..|ops| - 1], key);
      match ops[|ops| - 1]
      case Check(_, _) => before
      case Fail(k, now) => if k == key then before + [now] else before
      case Reset(k) => if k == key then [] else before
      case ResetAll => []
  }

  function OpsOf(steps: seq<Step>): (r: seq<Op>)
    ensures |r| == |steps|
    ensures forall i :: 0 <= i < |r| ==> r[i] == steps[i].op
  {
    seq(|steps|, i requires 0 <= i < |steps| => steps[i].op)
  }

  /** For a key that overflow never evicts, the history is what the operations say. */
  lemma {:induction false} UnevictedHistory(steps: seq<Step>, key: Key)
    requires forall i :: 0 <= i < |steps| ==> key !in steps[i].evicted
    ensures HistoryOf(steps, key) == FailuresSince(OpsOf(steps), key)
  {
    if steps != [] {
      var n := |steps| - 1;
      UnevictedHistory(steps[..n], key);
      assert OpsOf(steps)[..n] == OpsOf(steps[..n]);
    }
  }
}
