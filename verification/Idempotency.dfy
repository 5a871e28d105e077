/**
The per-table idempotency index (crates/teodb-ingest/src/idempotency.rs).

A table's index is a locked map of claims in progress and a bounded cache of
completed keys. The cache may drop any entry at any time: its capacity and its
own time-to-live are policies of the cache library.
*/
module Idempotency {
  import opened Wrappers

  type Instant = nat

  datatype Receipt = Receipt(batch: nat, writer: nat, generation: nat, rows: nat)

  datatype CompletedEntry = CompletedEntry(receipt: Receipt, claimedAt: Instant)

  datatype TableIndex = TableIndex(inProgress: map<string, Instant>, completed: map<string, CompletedEntry>)

  const EMPTY_INDEX := TableIndex(map[], map[])

  datatype Claim = Acquired | Duplicate(receipt: Receipt) | InProgress

  /** `Instant::duration_since`, which saturates at zero. */
  function Elapsed(now: Instant, since: Instant): nat {
    if now >= since then now - since else 0
  }

  predicate Live(index: TableIndex, key: string, now: Instant, ttl: nat) {
    key in index.completed && Elapsed(now, index.completed[key].claimedAt) <= ttl
  }

  predicate Held(index: TableIndex, key: string, now: Instant, ttl: nat) {
    key in index.inProgress && Elapsed(now, index.inProgress[key]) <= ttl
  }

  function Forget(index: TableIndex, keys: set<string>): TableIndex {
    index.(completed := index.completed - keys)
  }

  /** The answer to a claim and the index after it. */
  function ClaimAnswer(index: TableIndex, key: string, now: Instant, ttl: nat): (r: (Claim, TableIndex))
    ensures r.0.Duplicate? <==> key in index.completed && now - index.completed[key].claimedAt <= ttl
    ensures r.0.InProgress? <==>
            !r.0.Duplicate? && key in index.inProgress && now - index.inProgress[key] <= ttl
    ensures r.0.Duplicate? ==> r.1 == index && r.0.receipt == index.completed[key].receipt
    ensures !r.0.Duplicate? ==>
              r.1.completed == index.completed - {key}
              && r.1.inProgress == if r.0.Acquired? then index.inProgress[key := now] else index.inProgress
  {
    if Live(index, key, now, ttl) then (Duplicate(index.completed[key].receipt), index)
    else
      var pruned := Forget(index, {key});
      if Held(index, key, now, ttl) then (InProgress, pruned)
      else (Acquired, pruned.(inProgress := pruned.inProgress[key := now]))
  }

  function CompleteIndex(index: TableIndex, key: string, receipt: Receipt, dropped: set<string>): TableIndex {
    if key !in index.inProgress then index
    else Forget(TableIndex(index.inProgress - {key},
                           index.completed[key := CompletedEntry(receipt, index.inProgress[key])]),
                dropped)
  }

  /** A completed claim keeps its claim time, and no other key is touched unless the cache
      drops it. */
  lemma CompletedKeepsClaimTime(index: TableIndex, key: string, receipt: Receipt, dropped: set<string>)
    requires key in index.inProgress
    ensures var index' := CompleteIndex(index, key, receipt, dropped);
            && index'.inProgress == index.inProgress - {key}
            && (key !in dropped ==>
                  key in index'.completed
                  && index'.completed[key] == CompletedEntry(receipt, index.inProgress[key]))
            && (forall k | k != key :: k in index'.completed <==> k in index.completed && k !in dropped)
            && (forall k | k != key && k in index'.completed :: index'.completed[k] == index.completed[k])
  {
  }

  function AbortIndex(index: TableIndex, key: string): TableIndex {
    index.(inProgress := index.inProgress - {key})
  }

  /** The index a claim on `table` sees: a new table starts empty. */
  function IndexIn(tables: map<string, TableIndex>, table: string): TableIndex {
    if table in tables then tables[table] else EMPTY_INDEX
  }

  class IdempotencyIndex {
    const ttl: nat
    var tables: map<string, TableIndex>

    constructor (ttl: nat)
      ensures this.ttl == ttl && tables == map[]
    {
      this.ttl := ttl;
      tables := map[];
    }

    function IndexOf(table: string): TableIndex
      reads this
    {
      IndexIn(tables, table)
    }

    /** `completed_duplicate`: a live receipt, or none; an expired entry is invalidated. */
    method CompletedDuplicate(table: string, key: string, now: Instant) returns (r: Option<Receipt>)
      requires table in tables
      modifies this
      ensures r.Some? <==> old(Live(tables[table], key, now, ttl))
      ensures r.Some? ==> tables == old(tables) && r.value == old(tables[table].completed[key].receipt)
      ensures r.None? ==> tables == old(tables)[table := Forget(old(tables[table]), {key})]
    {
      var index := tables[table];
      if key !in index.completed {
        assert index == Forget(index, {key});
        assert tables == tables[table := index];
        return None;
      }
      if Elapsed(now, index.completed[key].claimedAt) <= ttl {
        return Some(index.completed[key].receipt);
      }
      tables := tables[table := index.(completed := index.completed - {key})];
      return None;
    }

    /** `claim` with no other thread in between: checked before the lock and again under it. */
    method TryClaim(table: string, key: string, now: Instant) returns (claim: Claim)
      modifies this
      ensures claim == ClaimAnswer(old(IndexOf(table)), key, now, ttl).0
      ensures tables == old(tables)[table := ClaimAnswer(old(IndexOf(table)), key, now, ttl).1]
    {
      if table !in tables {
        tables := tables[table := EMPTY_INDEX];
      }
      var seen := CompletedDuplicate(table, key, now);
      if seen.Some? {
        return Duplicate(seen.value);
      }
      seen := CompletedDuplicate(table, key, now);
      assert seen.None?;
      var index := tables[table];
      assert index == Forget(old(IndexOf(table)), {key});
      if key in index.inProgress {
        if Elapsed(now, index.inProgress[key]) <= ttl {
          return InProgress;
        }
        index := index.(inProgress := index.inProgress - {key});
      }
      index := index.(inProgress := index.inProgress[key := now]);
      assert index.inProgress == old(IndexOf(table)).inProgress[key := now];
      tables := tables[table := index];
      return Acquired;
    }

    /** `complete`; `dropped` is what the cache evicts while inserting. */
    method Complete(table: string, key: string, receipt: Receipt, dropped: set<string>)
      modifies this
      ensures tables == if table in old(tables)
                        then old(tables)[table := CompleteIndex(old(IndexOf(table)), key, receipt, dropped)]
                        else old(tables)
    {
      if table !in tables {
        return;
      }
      var index := tables[table];
      if key in index.inProgress {
        var claimedAt := index.inProgress[key];
        index := index.(inProgress := index.inProgress - {key});
        index := index.(completed := index.completed[key := CompletedEntry(receipt, claimedAt)]);
        index := index.(completed := index.completed - dropped);
      }
      tables := tables[table := index];
    }

    method Abort(table: string, key: string)
      modifies this
      ensures tables == if table in old(tables)
                        then old(tables)[table := AbortIndex(old(IndexOf(table)), key)] else old(tables)
    {
      if table in tables {
        var index := tables[table];
        tables := tables[table := index.(inProgress := index.inProgress - {key})];
      }
    }

    method EvictTable(table: string)
      modifies this
      ensures tables == old(tables) - {table} && IndexOf(table) == EMPTY_INDEX
    {
      tables := tables - {table};
    }
  }
}

/**
Claims under concurrency: threads interleave between the unlocked check, its
invalidation, and the locked section, each with the time it read at the start.
The table is not evicted.
*/
module IdempotencyThreads {
  import opened Idempotency

  datatype Thread =
    | Idle
    | SawExpired(key: string, now: Instant)  // about to invalidate what it saw
    | Checked(key: string, now: Instant)     // about to take the lock
    | Holding(key: string, claimedAt: Instant)

  datatype State = State(index: TableIndex, clock: Instant, threads: map<nat, Thread>)

  const EMPTY_STATE := State(EMPTY_INDEX, 0, map[])

  datatype Event =
    | Start(t: nat, key: string)
    | Invalidate(t: nat)
    | Lock(t: nat)
    | Finish(t: nat, receipt: Receipt, dropped: set<string>)
    | Release(t: nat)
    | Evict(keys: set<string>)
    | Tick(d: nat)

  function ThreadOf(s: State, t: nat): Thread {
    if t in s.threads then s.threads[t] else Idle
  }

  /** Every holder completes or aborts within the time-to-live of its claim, which
      counts from the time read before the lock was taken. */
  ghost predicate HoldersInTime(s: State, clock: Instant, ttl: nat) {
    forall t | t in s.threads && s.threads[t].Holding? :: clock <= s.threads[t].claimedAt + ttl
  }

  ghost predicate Step(ttl: nat, s: State, ev: Event, s': State) {
    match ev
    case Start(t, key) =>
      && ThreadOf(s, t).Idle?
      && s' == s.(threads := s.threads[t := if key !in s.index.completed then Checked(key, s.clock)
                                            else if Live(s.index, key, s.clock, ttl) then Idle
                                            else SawExpired(key, s.clock)])
    case Invalidate(t) =>
      && ThreadOf(s, t).SawExpired?
      && s' == s.(index := Forget(s.index, {ThreadOf(s, t).key}),
                  threads := s.threads[t := Checked(ThreadOf(s, t).key, ThreadOf(s, t).now)])
    case Lock(t) =>
      && ThreadOf(s, t).Checked?
      && var answer := ClaimAnswer(s.index, ThreadOf(s, t).key, ThreadOf(s, t).now, ttl);
         && (answer.0.Acquired? ==> s.clock <= ThreadOf(s, t).now + ttl)
         && s' == s.(index := answer.1,
                  threads := s.threads[t := if answer.0.Acquired? then Holding(ThreadOf(s, t).key, ThreadOf(s, t).now)
                                            else Idle])
    case Finish(t, receipt, dropped) =>
      && ThreadOf(s, t).Holding?
      && s' == s.(index := CompleteIndex(s.index, ThreadOf(s, t).key, receipt, dropped),
                  threads := s.threads[t := Idle])
    case Release(t) =>
      && ThreadOf(s, t).Holding?
      && s' == s.(index := AbortIndex(s.index, ThreadOf(s, t).key), threads := s.threads[t := Idle])
    case Evict(keys) =>
      s' == s.(index := Forget(s.index, keys))
    case Tick(d) =>
      HoldersInTime(s, s.clock + d, ttl) && s' == s.(clock := s.clock + d)
  }

  ghost predicate Run(ttl: nat, states: seq<State>, events: seq<Event>) {
    && |states| == |events| + 1 && states[0] == EMPTY_STATE
    && forall k | 0 <= k < |events| :: Step(ttl, states[k], events[k], states[k + 1])
  }

  ghost predicate ThreadInv(ttl: nat, s: State, t: nat) {
    match ThreadOf(s, t)
    case Idle => true
    case SawExpired(_, now) => now <= s.clock
    case Checked(_, now) => now <= s.clock
    case Holding(key, at) =>
      && at <= s.clock <= at + ttl
      && key in s.index.inProgress && s.index.inProgress[key] == at
  }

  ghost predicate OneHolder(s: State) {
    forall t, u | t in s.threads && u in s.threads && s.threads[t].Holding? && s.threads[u].Holding?
                  && s.threads[t].key == s.threads[u].key :: t == u
  }

  /** A claim in progress has a holder. */
  ghost predicate ClaimsHaveHolders(s: State) {
    forall key | key in s.index.inProgress ::
      exists t :: t in s.threads && s.threads[t].Holding? && s.threads[t].key == key
  }

  ghost predicate CompletedOrInProgress(index: TableIndex) {
    forall key | key in index.inProgress :: key !in index.completed
  }

  ghost predicate Inv(ttl: nat, s: State) {
    (forall t :: ThreadInv(ttl, s, t)) && OneHolder(s) && ClaimsHaveHolders(s) && CompletedOrInProgress(s.index)
  }

  /** The locked section cannot hand out a key that is held: the time the thread
      read is no later than now, and the holder is within its time. */
  lemma LockRespectsHolder(ttl: nat, s: State, t: nat, u: nat)
    requires Inv(ttl, s) && ThreadOf(s, t).Checked?
    requires u in s.threads && s.threads[u].Holding? && s.threads[u].key == ThreadOf(s, t).key
    ensures !ClaimAnswer(s.index, ThreadOf(s, t).key, ThreadOf(s, t).now, ttl).0.Acquired?
  {
    assert ThreadInv(ttl, s, t) && ThreadInv(ttl, s, u);
  }

  lemma LockKeepsInv(ttl: nat, s: State, t: nat, s': State)
    requires Inv(ttl, s) && Step(ttl, s, Lock(t), s')
    ensures Inv(ttl, s')
  {
    var key, now := ThreadOf(s, t).key, ThreadOf(s, t).now;
    var answer := ClaimAnswer(s.index, key, now, ttl);
    assert ThreadInv(ttl, s, t);
    if answer.0.Acquired? {
      forall u | u in s.threads && s.threads[u].Holding?
        ensures s.threads[u].key != key
      {
        if s.threads[u].key == key {
          LockRespectsHolder(ttl, s, t, u);
        }
      }
      assert s'.threads[t].Holding? && s'.threads[t].key == key;
    }
    forall u
      ensures ThreadInv(ttl, s', u)
    {
      assert ThreadInv(ttl, s, u);
    }
    forall k | k in s'.index.inProgress && k != key
      ensures exists u :: u in s'.threads && s'.threads[u].Holding? && s'.threads[u].key == k
    {
      var u :| u in s.threads && s.threads[u].Holding? && s.threads[u].key == k;
      assert s'.threads[u] == s.threads[u];
    }
    if key in s.index.inProgress && !answer.0.Acquired? {
      var u :| u in s.threads && s.threads[u].Holding? && s.threads[u].key == key;
      assert s'.threads[u] == s.threads[u];
    }
  }

  lemma ReleaseKeepsInv(ttl: nat, s: State, ev: Event, s': State)
    requires Inv(ttl, s) && Step(ttl, s, ev, s') && (ev.Finish? || ev.Release?)
    ensures Inv(ttl, s')
  {
    var t := ev.t;
    var key := ThreadOf(s, t).key;
    assert ThreadInv(ttl, s, t);
    forall u
      ensures ThreadInv(ttl, s', u)
    {
      assert ThreadInv(ttl, s, u);
    }
    forall k | k in s'.index.inProgress
      ensures exists u :: u in s'.threads && s'.threads[u].Holding? && s'.threads[u].key == k
    {
      var u :| u in s.threads && s.threads[u].Holding? && s.threads[u].key == k;
      assert s'.threads[u] == s.threads[u];
    }
  }

  lemma StepKeepsInv(ttl: nat, s: State, ev: Event, s': State)
    requires Inv(ttl, s) && Step(ttl, s, ev, s')
    ensures Inv(ttl, s')
  {
    if ev.Lock? {
      LockKeepsInv(ttl, s, ev.t, s');
    } else if ev.Finish? || ev.Release? {
      ReleaseKeepsInv(ttl, s, ev, s');
    } else {
      forall u
        ensures ThreadInv(ttl, s', u)
      {
        assert ThreadInv(ttl, s, u);
      }
      forall k | k in s'.index.inProgress
        ensures exists u :: u in s'.threads && s'.threads[u].Holding? && s'.threads[u].key == k
      {
        var u :| u in s.threads && s.threads[u].Holding? && s.threads[u].key == k;
        assert s'.threads[u] == s.threads[u];
      }
    }
  }

  lemma {:induction false} RunKeepsInv(ttl: nat, states: seq<State>, events: seq<Event>, k: nat)
    requires Run(ttl, states, events) && k < |states|
    ensures Inv(ttl, states[k])
  {
    if k > 0 {
      RunKeepsInv(ttl, states, events, k - 1);
      StepKeepsInv(ttl, states[k - 1], events[k - 1], states[k]);
    }
  }

  /** In every interleaving, with any cache eviction, at most one claim per key is
      outstanding, and a claim in progress is somebody's. */
  lemma AtMostOneClaimOutstanding(ttl: nat, states: seq<State>, events: seq<Event>, k: nat)
    requires Run(ttl, states, events) && k < |states|
    ensures OneHolder(states[k]) && ClaimsHaveHolders(states[k])
  {
    RunKeepsInv(ttl, states, events, k);
  }

  /** While a completed key stays cached and within its time-to-live, no claim on it
      is acquired: the unlocked check answers with the original receipt, and so does
      a locked check by a thread that started earlier. */
  lemma LiveKeyAnswersOriginal(ttl: nat, s: State, key: string)
    requires Inv(ttl, s) && Live(s.index, key, s.clock, ttl)
    ensures forall t | ThreadOf(s, t).Checked? && ThreadOf(s, t).key == key ::
              ClaimAnswer(s.index, key, ThreadOf(s, t).now, ttl)
              == (Duplicate(s.index.completed[key].receipt), s.index)
    ensures key !in s.index.inProgress
  {
    forall t | ThreadOf(s, t).Checked? && ThreadOf(s, t).key == key
      ensures Live(s.index, key, ThreadOf(s, t).now, ttl)
    {
      assert ThreadInv(ttl, s, t);
    }
  }

  /** A live entry is never overwritten, and it leaves the cache in exactly two ways:
      the cache evicts it, or a thread invalidates it that had seen an older, expired
      entry under the same key. */
  lemma HowLiveEntriesLeave(ttl: nat, s: State, ev: Event, s': State, key: string)
    requires Inv(ttl, s) && Step(ttl, s, ev, s') && Live(s.index, key, s.clock, ttl)
    ensures key in s'.index.completed ==> s'.index.completed[key] == s.index.completed[key]
    ensures key !in s'.index.completed <==>
            || (ev.Evict? && key in ev.keys)
            || (ev.Finish? && key in ev.dropped)
            || (ev.Invalidate? && ThreadOf(s, ev.t).key == key)
  {
    if ev.Finish? || ev.Lock? {
      assert ThreadInv(ttl, s, ev.t);
    }
  }

  /** A thread about to invalidate started when the entry was there and expired. */
  ghost predicate SawAt(ttl: nat, states: seq<State>, events: seq<Event>, t: nat, thread: Thread, j: nat) {
    && j < |events| && j < |states| && thread.SawExpired? && events[j] == Start(t, thread.key)
    && states[j].clock == thread.now && thread.key in states[j].index.completed
    && !Live(states[j].index, thread.key, thread.now, ttl)
  }

  lemma {:induction false} StartedBefore(ttl: nat, states: seq<State>, events: seq<Event>, k: nat, t: nat)
    returns (j: nat)
    requires Run(ttl, states, events) && k < |states| && ThreadOf(states[k], t).SawExpired?
    ensures j < k && SawAt(ttl, states, events, t, ThreadOf(states[k], t), j)
  {
    assert Step(ttl, states[k - 1], events[k - 1], states[k]);
    if ThreadOf(states[k - 1], t) == ThreadOf(states[k], t) {
      j := StartedBefore(ttl, states, events, k - 1, t);
    } else {
      j := k - 1;
    }
  }

  ghost predicate Completes(s: State, ev: Event, key: string) {
    ev.Finish? && ThreadOf(s, ev.t).Holding? && ThreadOf(s, ev.t).key == key
  }

  lemma StepChangesEntry(ttl: nat, s: State, ev: Event, s': State, key: string)
    requires Step(ttl, s, ev, s') && key in s'.index.completed
    requires key in s.index.completed ==> s.index.completed[key] != s'.index.completed[key]
    ensures Completes(s, ev, key)
  {
  }

  /** An entry that was not there before was put there by a completion. */
  lemma {:induction false} ChangedByCompletion(
      ttl: nat, states: seq<State>, events: seq<Event>, j: nat, k: nat, key: string)
    returns (f: nat)
    requires Run(ttl, states, events) && j <= k < |states| && key in states[k].index.completed
    requires key in states[j].index.completed ==>
               states[j].index.completed[key] != states[k].index.completed[key]
    ensures j <= f < k && Completes(states[f], events[f], key)
  {
    assert j < k;
    var s, s' := states[k - 1], states[k];
    assert Step(ttl, s, events[k - 1], s');
    if key in s.index.completed && s.index.completed[key] == s'.index.completed[key] {
      f := ChangedByCompletion(ttl, states, events, j, k - 1, key);
    } else {
      StepChangesEntry(ttl, s, events[k - 1], s', key);
      f := k - 1;
    }
  }

  /** A receipt that is live for the thread that invalidates it is newer than the thread's
      check: the key was completed between the thread's start and its invalidation. */
  lemma LiveRemovalIsLate(ttl: nat, states: seq<State>, events: seq<Event>, k: nat) returns (j: nat, f: nat)
    requires Run(ttl, states, events) && k < |events| && events[k].Invalidate?
    requires var thread := ThreadOf(states[k], events[k].t);
             thread.SawExpired? && Live(states[k].index, thread.key, thread.now, ttl)
    ensures j <= f < k && events[j] == Start(events[k].t, ThreadOf(states[k], events[k].t).key)
    ensures Completes(states[f], events[f], ThreadOf(states[k], events[k].t).key)
  {
    j := StartedBefore(ttl, states, events, k, events[k].t);
    f := ChangedByCompletion(ttl, states, events, j, k, ThreadOf(states[k], events[k].t).key);
  }

  /** Whenever a thread saw an expired entry and the key has since been completed
      again, its late invalidation removes the live receipt and its own locked check
      then acquires the key a second time within the time-to-live. */
  lemma LateInvalidationReadmits(ttl: nat, s: State, t: nat, s': State, s'': State)
    requires Inv(ttl, s) && ThreadOf(s, t).SawExpired? && Live(s.index, ThreadOf(s, t).key, s.clock, ttl)
    requires Step(ttl, s, Invalidate(t), s') && Step(ttl, s', Lock(t), s'')
    ensures !Live(s'.index, ThreadOf(s, t).key, s'.clock, ttl)
    ensures s''.threads[t] == Holding(ThreadOf(s, t).key, ThreadOf(s, t).now)
  {
    assert s'.index.inProgress == s.index.inProgress;
  }

  lemma ExtendRun(ttl: nat, states: seq<State>, events: seq<Event>, ev: Event, s': State)
    requires Run(ttl, states, events) && Step(ttl, states[|events|], ev, s')
    ensures Run(ttl, states + [s'], events + [ev])
  {
    forall k | 0 <= k < |events| + 1
      ensures Step(ttl, (states + [s'])[k], (events + [ev])[k], (states + [s'])[k + 1])
    {
      if k < |events| {
        assert Step(ttl, states[k], events[k], states[k + 1]);
      }
    }
  }

  /** One more step of a run without evictions. */
  lemma Then(ttl: nat, states: seq<State>, events: seq<Event>, ev: Event, s': State)
    returns (states': seq<State>, events': seq<Event>)
    requires Run(ttl, states, events) && Step(ttl, states[|events|], ev, s')
    requires forall e | e in events + [ev] :: !e.Evict? && (e.Finish? ==> e.dropped == {})
    ensures Run(ttl, states', events') && states'[|events'|] == s'
    ensures forall e | e in events' :: !e.Evict? && (e.Finish? ==> e.dropped == {})
  {
    ExtendRun(ttl, states, events, ev, s');
    states', events' := states + [s'], events + [ev];
  }

  /** A key completed at time 0 and expired at time 2. */
  lemma ExpiredKey(key: string, receipt: Receipt) returns (states: seq<State>, events: seq<Event>)
    ensures Run(1, states, events)
    ensures forall ev | ev in events :: !ev.Evict? && (ev.Finish? ==> ev.dropped == {})
    ensures states[|events|]
            == State(TableIndex(map[], map[key := CompletedEntry(receipt, 0)]), 2, map[0 := Idle])
  {
    var done := TableIndex(map[], map[key := CompletedEntry(receipt, 0)]);
    states, events := [EMPTY_STATE], [];
    states, events := Then(1, states, events, Start(0, key), State(EMPTY_INDEX, 0, map[0 := Checked(key, 0)]));
    states, events :=
      Then(1, states, events, Lock(0), State(TableIndex(map[key := 0], map[]), 0, map[0 := Holding(key, 0)]));
    states, events := Then(1, states, events, Finish(0, receipt, {}), State(done, 0, map[0 := Idle]));
    states, events := Then(1, states, events, Tick(2), State(done, 2, map[0 := Idle]));
  }

  /** A schedule that reaches such a state: the key expires, two threads see it, one
      of them completes it afresh. Nothing is evicted. */
  lemma LateInvalidationHappens(key: string, first: Receipt, second: Receipt)
    returns (states: seq<State>, events: seq<Event>)
    ensures Run(1, states, events)
    ensures forall ev | ev in events :: !ev.Evict? && (ev.Finish? ==> ev.dropped == {})
    ensures var s := states[|events|];
            ThreadOf(s, 1) == SawExpired(key, 2) && Live(s.index, key, s.clock, 1)
            && s.index.completed[key].receipt == second && s.clock == 2
  {
    states, events := ExpiredKey(key, first);
    var index, expired := states[|events|].index, SawExpired(key, 2);
    states, events := Then(1, states, events, Start(1, key), State(index, 2, map[0 := Idle, 1 := expired]));
    states, events :=
      Then(1, states, events, Start(2, key), State(index, 2, map[0 := Idle, 1 := expired, 2 := expired]));
    states, events :=
      Then(1, states, events, Invalidate(2), State(EMPTY_INDEX, 2, map[0 := Idle, 1 := expired, 2 := Checked(key, 2)]));
    index := TableIndex(map[key := 2], map[]);
    states, events :=
      Then(1, states, events, Lock(2), State(index, 2, map[0 := Idle, 1 := expired, 2 := Holding(key, 2)]));
    index := TableIndex(map[], map[key := CompletedEntry(second, 2)]);
    states, events :=
      Then(1, states, events, Finish(2, second, {}), State(index, 2, map[0 := Idle, 1 := expired, 2 := Idle]));
  }
}
