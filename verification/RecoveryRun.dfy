/**
Whole recoveries: the fold of the loop body over the log, then the sidecars left
over, and the theorems about them.
*/
module RecoveryRun {
  import opened Wrappers
  import opened AppendGuard
  import opened Idempotency
  import opened TableRecovery
  import opened Replay
  import opened Recovery

  type Metadata = map<TableKey, Option<nat>>

  datatype State = State(
    tables: map<TableKey, Table>, index: map<string, TableIndex>, outcomes: seq<Outcome>, failed: bool)

  /** A claim creates the table's entry in the index. */
  function IndexAfter(index: map<string, TableIndex>, r: Record, claims: bool, own: TableIndex)
    : map<string, TableIndex>
  {
    if claims && r.idem.Some? then index[r.key.ident := own] else index
  }

  /** The record gets as far as claiming its idempotency key. */
  predicate Claims(checkpoint: Option<nat>, t: Table, r: Record, a: Answers) {
    !(checkpoint.Some? && r.generation <= checkpoint.value) && (t.buffer.Some? || a.loads)
  }

  /** One turn of the loop. */
  function Turn(cfg: Config, metadata: Metadata, s: State, r: Record, a: Answers): (s': State)
    requires s.tables.Keys == metadata.Keys
    ensures s'.tables.Keys == metadata.Keys
  {
    if r.key !in metadata then s.(outcomes := s.outcomes + [Dropped])
    else
      var h := Handle(cfg, metadata[r.key], s.tables[r.key], IndexIn(s.index, r.key.ident), r, a);
      State(s.tables[r.key := h.table],
            IndexAfter(s.index, r, Claims(metadata[r.key], s.tables[r.key], r, a), h.index),
            if h.outcome.Some? then s.outcomes + [h.outcome.value] else s.outcomes,
            h.outcome.None?)
  }

  /** The first `n` turns; a failed recovery stays as it is. */
  function Turns(
      cfg: Config, metadata: Metadata, records: seq<Record>, env: nat -> Answers, start: State, n: nat): (s: State)
    requires n <= |records| && start.tables.Keys == metadata.Keys
    ensures s.tables.Keys == metadata.Keys
  {
    if n == 0 then start
    else
      var s := Turns(cfg, metadata, records, env, start, n - 1);
      if s.failed then s else Turn(cfg, metadata, s, records[n - 1], env(n - 1))
  }

  lemma {:induction false} FailureIsFinal(
      cfg: Config, metadata: Metadata, records: seq<Record>, env: nat -> Answers, start: State, m: nat, n: nat)
    requires m <= n <= |records| && start.tables.Keys == metadata.Keys
    requires Turns(cfg, metadata, records, env, start, m).failed
    ensures Turns(cfg, metadata, records, env, start, n) == Turns(cfg, metadata, records, env, start, m)
  {
    if m < n {
      FailureIsFinal(cfg, metadata, records, env, start, m, n - 1);
    }
  }

  /** What every successful turn keeps, all of them keep, and what holds whenever a turn
      fails holds of a failed run. */
  lemma {:induction false} TurnsKeep(
      cfg: Config, metadata: Metadata, records: seq<Record>, env: nat -> Answers, start: State, n: nat,
      inv: State -> bool, onFailure: State -> bool)
    requires n <= |records| && start.tables.Keys == metadata.Keys
    requires start.outcomes == [] && !start.failed && inv(start)
    requires forall i, s: State {:trigger Turn(cfg, metadata, s, records[i], env(i))}
               | 0 <= i < |records| && s.tables.Keys == metadata.Keys && |s.outcomes| == i && inv(s) ::
               var s' := Turn(cfg, metadata, s, records[i], env(i));
               if s'.failed then onFailure(s') else inv(s')
    ensures var s := Turns(cfg, metadata, records, env, start, n);
            if s.failed then onFailure(s) else |s.outcomes| == n && inv(s)
  {
    if n > 0 {
      TurnsKeep(cfg, metadata, records, env, start, n - 1, inv, onFailure);
    }
  }

  // ----- Where recovery starts -----

  function FindIntent(prepared: seq<Intent>, key: TableKey): (r: Option<Intent>)
    ensures r.Some? ==> r.value in prepared && r.value.key == key
    ensures r.None? ==> forall p | p in prepared :: p.key != key
  {
    if prepared == [] then None
    else if prepared[0].key == key then Some(prepared[0])
    else FindIntent(prepared[1..], key)
  }

  /** No buffers yet, and the sidecars found on disk. */
  function StartTables(metadata: Metadata, prepared: seq<Intent>): map<TableKey, Table> {
    map k | k in metadata :: Table(None, FindIntent(prepared, k), FindIntent(prepared, k), None, [], [])
  }

  function Start(metadata: Metadata, prepared: seq<Intent>, index: map<string, TableIndex>): State {
    State(StartTables(metadata, prepared), index, [], false)
  }

  lemma StartIsOk(records: seq<Record>, metadata: Metadata, prepared: seq<Intent>)
    requires SidecarsValid(prepared)
    ensures var tables := StartTables(metadata, prepared);
            TablesOk(records, [], tables) && AllBelow(tables) && AllAccounted(prepared, tables)
  {
    var tables := StartTables(metadata, prepared);
    forall i | 0 <= i < |prepared| && prepared[i].key in tables
      ensures Accounted(tables[prepared[i].key], prepared[i])
    {
      var found := FindIntent(prepared, prepared[i].key);
      var j :| 0 <= j < |prepared| && prepared[j] == found.value;
      assert i == j;
    }
  }

  // ----- Every turn -----

  ghost predicate Inputs(
      cfg: Config, metadata: Metadata, load: string -> Load, records: seq<Record>, prepared: seq<Intent>)
  {
    && PlanOrdered(records) && SidecarsValid(prepared)
    && (forall k | k in metadata :: metadata[k] == CheckpointOf(load(k.ident), cfg.writer))
    && (forall k, k' | k in metadata && k' in metadata && k.ident == k'.ident :: k == k')
    && (forall i | 0 <= i < |records| ::
          && !load(records[i].key.ident).LoadError?
          && (records[i].key in metadata <==> load(records[i].key.ident).Loaded?))
  }

  ghost predicate SoundTables(records: seq<Record>, prepared: seq<Intent>, s: State) {
    |s.outcomes| <= |records| && TablesOk(records, s.outcomes, s.tables) && AllAccounted(prepared, s.tables)
  }

  lemma TurnKeepsTables(
      cfg: Config, metadata: Metadata, records: seq<Record>, prepared: seq<Intent>, s: State, a: Answers)
    requires PlanOrdered(records) && SidecarsValid(prepared) && s.tables.Keys == metadata.Keys
    requires |s.outcomes| < |records| && SoundTables(records, prepared, s) && AllBelow(s.tables)
    ensures var s' := Turn(cfg, metadata, s, records[|s.outcomes|], a);
            AllBelow(s'.tables) && (!s'.failed ==> SoundTables(records, prepared, s'))
  {
    var r := records[|s.outcomes|];
    if r.key in metadata {
      var own := IndexIn(s.index, r.key.ident);
      var h := Handle(cfg, metadata[r.key], s.tables[r.key], own, r, a);
      HandledKeepsBelow(cfg, metadata[r.key], own, a, records, s.outcomes, s.tables);
      if h.outcome.Some? {
        HandledKeepsTables(cfg, metadata[r.key], own, a, records, s.outcomes, s.tables, h);
        HandledKeepsAccounted(cfg, metadata[r.key], own, a, records, s.outcomes, s.tables, prepared);
      }
    } else {
      DroppedKeepsTables(records, s.outcomes, s.tables);
    }
  }

  lemma {:induction false} TurnsKeepTables(
      cfg: Config, metadata: Metadata, records: seq<Record>, prepared: seq<Intent>, env: nat -> Answers,
      index: map<string, TableIndex>, n: nat)
    requires PlanOrdered(records) && SidecarsValid(prepared) && n <= |records|
    ensures var s := Turns(cfg, metadata, records, env, Start(metadata, prepared, index), n);
            && AllBelow(s.tables)
            && (!s.failed ==> |s.outcomes| == n && SoundTables(records, prepared, s))
  {
    StartIsOk(records, metadata, prepared);
    var inv := (s: State) => SoundTables(records, prepared, s) && AllBelow(s.tables);
    var onFailure := (s: State) => AllBelow(s.tables);
    forall i, s: State | 0 <= i < |records| && s.tables.Keys == metadata.Keys && |s.outcomes| == i && inv(s)
      ensures var s' := Turn(cfg, metadata, s, records[i], env(i));
              if s'.failed then onFailure(s') else inv(s')
    {
      TurnKeepsTables(cfg, metadata, records, prepared, s, env(i));
    }
    TurnsKeep(cfg, metadata, records, env, Start(metadata, prepared, index), n, inv, onFailure);
  }

  ghost predicate AllClassified(
      cfg: Config, load: string -> Load, metadata: Metadata, records: seq<Record>, outcomes: seq<Outcome>)
    requires |outcomes| <= |records|
  {
    forall i | 0 <= i < |outcomes| ::
      && Classified(load(records[i].key.ident), cfg.writer, records[i], outcomes[i])
      && (outcomes[i].Replayed? ==> records[i].key in metadata && UsableGeneration(records[i]))
  }

  lemma HandleClassifies(
      cfg: Config, checkpoint: Option<nat>, t: Table, index: TableIndex, r: Record, a: Answers)
    ensures var outcome := Handle(cfg, checkpoint, t, index, r, a).outcome;
            outcome != Some(Dropped)
            && (outcome == Some(Outcome.AlreadyCommitted) <==> checkpoint.Some? && r.generation <= checkpoint.value)
            && (outcome == Some(Replayed) ==> UsableGeneration(r))
  {
  }

  lemma ClassifyNext(
      cfg: Config, load: string -> Load, metadata: Metadata, records: seq<Record>, outcomes: seq<Outcome>,
      outcome: Outcome)
    requires |outcomes| < |records| && AllClassified(cfg, load, metadata, records, outcomes)
    requires var r := records[|outcomes|];
             && Classified(load(r.key.ident), cfg.writer, r, outcome)
             && (outcome.Replayed? ==> r.key in metadata && UsableGeneration(r))
    ensures AllClassified(cfg, load, metadata, records, outcomes + [outcome])
  {
  }

  lemma TurnClassifies(
      cfg: Config, load: string -> Load, metadata: Metadata, records: seq<Record>, prepared: seq<Intent>,
      s: State, a: Answers)
    requires Inputs(cfg, metadata, load, records, prepared) && s.tables.Keys == metadata.Keys
    requires |s.outcomes| < |records| && AllClassified(cfg, load, metadata, records, s.outcomes)
    ensures var s' := Turn(cfg, metadata, s, records[|s.outcomes|], a);
            !s'.failed ==> AllClassified(cfg, load, metadata, records, s'.outcomes)
  {
    var r := records[|s.outcomes|];
    if r.key !in metadata {
      ClassifyNext(cfg, load, metadata, records, s.outcomes, Dropped);
    } else {
      var own := IndexIn(s.index, r.key.ident);
      var outcome := Handle(cfg, metadata[r.key], s.tables[r.key], own, r, a).outcome;
      HandleClassifies(cfg, metadata[r.key], s.tables[r.key], own, r, a);
      if outcome.Some? {
        ClassifyNext(cfg, load, metadata, records, s.outcomes, outcome.value);
      }
    }
  }

  lemma {:induction false} TurnsClassify(
      cfg: Config, load: string -> Load, metadata: Metadata, records: seq<Record>, prepared: seq<Intent>,
      env: nat -> Answers, index: map<string, TableIndex>, n: nat)
    requires Inputs(cfg, metadata, load, records, prepared) && n <= |records|
    ensures var s := Turns(cfg, metadata, records, env, Start(metadata, prepared, index), n);
            !s.failed ==> |s.outcomes| == n && AllClassified(cfg, load, metadata, records, s.outcomes)
  {
    if n > 0 {
      TurnsClassify(cfg, load, metadata, records, prepared, env, index, n - 1);
      var s := Turns(cfg, metadata, records, env, Start(metadata, prepared, index), n - 1);
      if !s.failed {
        TurnClassifies(cfg, load, metadata, records, prepared, s, env(n - 1));
      }
    }
  }

  // ----- Idempotency claims over all turns -----

  lemma TurnIndex(cfg: Config, metadata: Metadata, s: State, r: Record, a: Answers)
    requires s.tables.Keys == metadata.Keys && r.key in metadata
    ensures var h := Handle(cfg, metadata[r.key], s.tables[r.key], IndexIn(s.index, r.key.ident), r, a);
            IndexOnly(s.index, Turn(cfg, metadata, s, r, a).index, r.key.ident, h.index)
  {
  }

  lemma TurnLeavesNoClaim(cfg: Config, metadata: Metadata, s: State, r: Record, a: Answers)
    requires s.tables.Keys == metadata.Keys
    ensures NoNewClaims(s.index, Turn(cfg, metadata, s, r, a).index)
  {
    if r.key in metadata {
      TurnIndex(cfg, metadata, s, r, a);
      HandleLeavesNoClaim(cfg, metadata[r.key], s.tables[r.key], IndexIn(s.index, r.key.ident), r, a);
    }
  }

  lemma {:induction false} TurnsLeaveNoClaim(
      cfg: Config, metadata: Metadata, records: seq<Record>, env: nat -> Answers, start: State, n: nat)
    requires n <= |records| && start.tables.Keys == metadata.Keys
    ensures NoNewClaims(start.index, Turns(cfg, metadata, records, env, start, n).index)
  {
    if n > 0 {
      TurnsLeaveNoClaim(cfg, metadata, records, env, start, n - 1);
      var s := Turns(cfg, metadata, records, env, start, n - 1);
      if !s.failed {
        TurnLeavesNoClaim(cfg, metadata, s, records[n - 1], env(n - 1));
      }
    }
  }

  ghost predicate OneKeyPerName(metadata: Metadata) {
    forall k, k' | k in metadata && k' in metadata && k.ident == k'.ident :: k == k'
  }

  ghost predicate KnownState(metadata: Metadata, records: seq<Record>, s: State) {
    && |s.outcomes| <= |records|
    && AllKnown(records, s.outcomes, metadata.Keys, s.index) && DuplicatesJustified(records, s.outcomes)
  }

  lemma TurnKnows(cfg: Config, metadata: Metadata, records: seq<Record>, s: State, a: Answers)
    requires OneKeyPerName(metadata) && s.tables.Keys == metadata.Keys
    requires |s.outcomes| < |records| && KnownState(metadata, records, s)
    ensures var s' := Turn(cfg, metadata, s, records[|s.outcomes|], a);
            !s'.failed ==> KnownState(metadata, records, s')
  {
    var r := records[|s.outcomes|];
    var s' := Turn(cfg, metadata, s, r, a);
    if r.key !in metadata {
      DroppedKeepsIndex(cfg, records, s.outcomes, metadata.Keys, s.index, {}, 0);
    } else if !s'.failed {
      TurnIndex(cfg, metadata, s, r, a);
      var h := Handle(cfg, metadata[r.key], s.tables[r.key], IndexIn(s.index, r.key.ident), r, a);
      HandledKeepsKnown(cfg, metadata[r.key], s.tables[r.key], a, records, s.outcomes, metadata.Keys, s.index,
                        s'.index, h);
    }
  }

  lemma {:induction false} TurnsKnow(
      cfg: Config, metadata: Metadata, records: seq<Record>, env: nat -> Answers, start: State, n: nat)
    requires OneKeyPerName(metadata) && start.tables.Keys == metadata.Keys && n <= |records|
    requires start.index == map[] && start.outcomes == []
    ensures var s := Turns(cfg, metadata, records, env, start, n);
            !s.failed ==> |s.outcomes| == n && KnownState(metadata, records, s)
  {
    if n > 0 {
      TurnsKnow(cfg, metadata, records, env, start, n - 1);
      var s := Turns(cfg, metadata, records, env, start, n - 1);
      if !s.failed {
        TurnKnows(cfg, metadata, records, s, env(n - 1));
      }
    }
  }

  ghost predicate RememberedState(
      cfg: Config, metadata: Metadata, records: seq<Record>, s: State, times: set<Instant>)
  {
    && |s.outcomes| <= |records|
    && AllRemembered(cfg, records, s.outcomes, metadata.Keys, s.index, times) && KeysReplayedOnce(records, s.outcomes)
  }

  lemma TurnRemembers(
      cfg: Config, metadata: Metadata, records: seq<Record>, s: State, a: Answers, times: set<Instant>)
    requires OneKeyPerName(metadata) && s.tables.Keys == metadata.Keys && Patient(a, times, cfg.ttl)
    requires |s.outcomes| < |records| && RememberedState(cfg, metadata, records, s, times)
    ensures var s' := Turn(cfg, metadata, s, records[|s.outcomes|], a);
            !s'.failed ==> RememberedState(cfg, metadata, records, s', times + {a.now})
  {
    var r := records[|s.outcomes|];
    var s' := Turn(cfg, metadata, s, r, a);
    if r.key !in metadata {
      DroppedKeepsIndex(cfg, records, s.outcomes, metadata.Keys, s.index, times, a.now);
    } else if !s'.failed {
      TurnIndex(cfg, metadata, s, r, a);
      var h := Handle(cfg, metadata[r.key], s.tables[r.key], IndexIn(s.index, r.key.ident), r, a);
      HandledKeepsRemembered(cfg, metadata[r.key], s.tables[r.key], a, records, s.outcomes, metadata.Keys, s.index,
                             s'.index, h, times);
    }
  }

  lemma PatientUpTo(env: nat -> Answers, n: nat, ttl: nat)
    requires n > 0 && AllPatient(env, n, ttl)
    ensures AllPatient(env, n - 1, ttl) && Patient(env(n - 1), Times(env, n - 1), ttl)
    ensures Times(env, n) == Times(env, n - 1) + {env(n - 1).now}
  {
  }

  lemma {:induction false} TurnsRemember(
      cfg: Config, metadata: Metadata, records: seq<Record>, env: nat -> Answers, start: State, n: nat)
    requires OneKeyPerName(metadata) && start.tables.Keys == metadata.Keys && n <= |records|
    requires start.outcomes == [] && AllPatient(env, n, cfg.ttl)
    ensures var s := Turns(cfg, metadata, records, env, start, n);
            !s.failed ==> |s.outcomes| == n && RememberedState(cfg, metadata, records, s, Times(env, n))
  {
    if n > 0 {
      PatientUpTo(env, n, cfg.ttl);
      TurnsRemember(cfg, metadata, records, env, start, n - 1);
      var s := Turns(cfg, metadata, records, env, start, n - 1);
      if !s.failed {
        TurnRemembers(cfg, metadata, records, s, env(n - 1), Times(env, n - 1));
      }
    }
  }

  // ----- The sidecars left over -----

  /** `get_or_load` and `resolve_prepared` for a sidecar the loop did not reach. */
  function SettleLeftover(t: Table, checkpoint: Option<nat>, a: Answers): (Table, bool)
    requires t.unresolved.Some?
  {
    if t.buffer.None? && !a.loads then (t, false)
    else
      var loaded := LoadBuffer(t, if checkpoint.Some? then checkpoint.value else 0, a.landed);
      var (resolved, ok) := Resolve(loaded, t.unresolved.value, a.resolve);
      (if ok then resolved.(unresolved := None) else resolved, ok)
  }

  datatype Leftovers = Leftovers(tables: map<TableKey, Table>, ok: bool)

  /** One sidecar after the loop; that of a table which is gone fails recovery. */
  function NextLeftover(metadata: Metadata, tables: map<TableKey, Table>, intent: Intent, a: Answers)
    : (r: Leftovers)
    requires tables.Keys == metadata.Keys
    ensures r.tables.Keys == metadata.Keys
  {
    if intent.key !in metadata then Leftovers(tables, false)
    else if tables[intent.key].unresolved.None? then Leftovers(tables, true)
    else
      var (t, ok) := SettleLeftover(tables[intent.key], metadata[intent.key], a);
      Leftovers(tables[intent.key := t], ok)
  }

  /** The first `n` sidecars of the directory listing. */
  function SettleLeftovers(
      metadata: Metadata, tables: map<TableKey, Table>, prepared: seq<Intent>, later: nat -> Answers, n: nat)
    : (r: Leftovers)
    requires n <= |prepared| && tables.Keys == metadata.Keys
    ensures r.tables.Keys == metadata.Keys
  {
    if n == 0 then Leftovers(tables, true)
    else
      var r := SettleLeftovers(metadata, tables, prepared, later, n - 1);
      if !r.ok then r else NextLeftover(metadata, r.tables, prepared[n - 1], later(n - 1))
  }

  lemma LastLeftover(
      metadata: Metadata, tables: map<TableKey, Table>, prepared: seq<Intent>, later: nat -> Answers, n: nat)
    requires 0 < n <= |prepared| && tables.Keys == metadata.Keys
    requires SettleLeftovers(metadata, tables, prepared, later, n - 1).ok
    ensures SettleLeftovers(metadata, tables, prepared, later, n)
         == NextLeftover(metadata, SettleLeftovers(metadata, tables, prepared, later, n - 1).tables, prepared[n - 1],
                         later(n - 1))
  {
  }

  lemma {:induction false} LeftoverFailureIsFinal(
      metadata: Metadata, tables: map<TableKey, Table>, prepared: seq<Intent>, later: nat -> Answers, m: nat, n: nat)
    requires m <= n <= |prepared| && tables.Keys == metadata.Keys
    requires !SettleLeftovers(metadata, tables, prepared, later, m).ok
    ensures SettleLeftovers(metadata, tables, prepared, later, n)
         == SettleLeftovers(metadata, tables, prepared, later, m)
  {
    if m < n {
      LeftoverFailureIsFinal(metadata, tables, prepared, later, m, n - 1);
    }
  }

  lemma ResolvedSettles(t: Table, done: seq<Record>, a: ResolveAnswer, t': Table)
    requires TableInv(t, done) && t.buffer.Some? && t.unresolved.Some?
    requires Resolve(t, t.unresolved.value, a).1
    requires t' == Resolve(t, t.unresolved.value, a).0.(unresolved := None)
    ensures TableInv(t', done) && IntentSettled(t', t.unresolved.value)
  {
    ResolveKeepsInv(t, done, a);
    ResolveSettles(t, done, a);
    var resolved := Resolve(t, t.unresolved.value, a).0;
    assert t'.buffer == resolved.buffer && t'.sidecar == resolved.sidecar && t'.published == resolved.published;
  }

  lemma LeftoverSteps(t: Table, checkpoint: Option<nat>, a: Answers) returns (loaded: Table)
    requires t.unresolved.Some? && SettleLeftover(t, checkpoint, a).1
    ensures loaded == LoadBuffer(t, if checkpoint.Some? then checkpoint.value else 0, a.landed)
    ensures loaded.buffer.Some? && loaded.unresolved == t.unresolved && Resolve(loaded, t.unresolved.value, a.resolve).1
    ensures SettleLeftover(t, checkpoint, a).0
         == Resolve(loaded, t.unresolved.value, a.resolve).0.(unresolved := None)
  {
    loaded := LoadBuffer(t, if checkpoint.Some? then checkpoint.value else 0, a.landed);
  }

  lemma LeftoverSettles(t: Table, checkpoint: Option<nat>, a: Answers, done: seq<Record>)
    requires TableInv(t, done) && t.unresolved.Some? && SettleLeftover(t, checkpoint, a).1
    ensures TableInv(SettleLeftover(t, checkpoint, a).0, done)
    ensures IntentSettled(SettleLeftover(t, checkpoint, a).0, t.unresolved.value)
  {
    var loaded := LeftoverSteps(t, checkpoint, a);
    LoadKeepsInv(t, done, if checkpoint.Some? then checkpoint.value else 0, a.landed);
    ResolvedSettles(loaded, done, a.resolve, SettleLeftover(t, checkpoint, a).0);
  }

  /** The replayed records of every table. */
  ghost function DoneMap(metadata: Metadata, records: seq<Record>, outcomes: seq<Outcome>): map<TableKey, seq<Record>>
    requires |outcomes| <= |records|
  {
    map k | k in metadata :: Done(records, outcomes, k)
  }

  ghost predicate FinalTables(done: map<TableKey, seq<Record>>, tables: map<TableKey, Table>) {
    forall k | k in tables :: k in done && TableInv(tables[k], done[k])
  }

  ghost predicate AllSettled(prepared: seq<Intent>, tables: map<TableKey, Table>) {
    forall i | 0 <= i < |prepared| :: prepared[i].key in tables && IntentSettled(tables[prepared[i].key], prepared[i])
  }

  lemma ReplaceAccounted(prepared: seq<Intent>, n: nat, tables: map<TableKey, Table>, t: Table)
    requires SidecarsValid(prepared) && n < |prepared|
    requires AllAccounted(prepared, tables) && Accounted(t, prepared[n])
    ensures AllAccounted(prepared, tables[prepared[n].key := t])
  {
    var tables' := tables[prepared[n].key := t];
    forall i | 0 <= i < |prepared| && prepared[i].key in tables'
      ensures Accounted(tables'[prepared[i].key], prepared[i])
    {
      if i != n {
        assert prepared[i].key != prepared[n].key;
      }
    }
  }

  lemma LeftoverStep(t: Table, checkpoint: Option<nat>, a: Answers, done: seq<Record>, intent: Intent)
    requires TableInv(t, done) && Accounted(t, intent)
    ensures t.unresolved.None? ==> IntentSettled(t, intent)
    ensures t.unresolved.Some? && SettleLeftover(t, checkpoint, a).1 ==>
              TableInv(SettleLeftover(t, checkpoint, a).0, done)
              && IntentSettled(SettleLeftover(t, checkpoint, a).0, intent)
  {
    if t.unresolved.Some? {
      assert t.unresolved.value == intent;
      if SettleLeftover(t, checkpoint, a).1 {
        LeftoverSettles(t, checkpoint, a, done);
      }
    }
  }

  ghost predicate Sound(done: map<TableKey, seq<Record>>, prepared: seq<Intent>, tables: map<TableKey, Table>) {
    FinalTables(done, tables) && AllAccounted(prepared, tables)
  }

  lemma NextKeepsSound(
      metadata: Metadata, done: map<TableKey, seq<Record>>, prepared: seq<Intent>, n: nat,
      tables: map<TableKey, Table>, a: Answers)
    requires n < |prepared| && SidecarsValid(prepared) && tables.Keys == metadata.Keys
    requires Sound(done, prepared, tables) && NextLeftover(metadata, tables, prepared[n], a).ok
    ensures Sound(done, prepared, NextLeftover(metadata, tables, prepared[n], a).tables)
  {
    var key := prepared[n].key;
    var t := tables[key];
    assert Accounted(t, prepared[n]);
    LeftoverStep(t, metadata[key], a, done[key], prepared[n]);
    if t.unresolved.Some? {
      var t' := SettleLeftover(t, metadata[key], a).0;
      assert NextLeftover(metadata, tables, prepared[n], a).tables == tables[key := t'];
      ReplaceAccounted(prepared, n, tables, t');
    }
  }

  /** What every leftover keeps, all of them keep. */
  lemma {:induction false} LeftoversKeep(
      metadata: Metadata, tables: map<TableKey, Table>, prepared: seq<Intent>, later: nat -> Answers, n: nat,
      inv: map<TableKey, Table> -> bool)
    requires n <= |prepared| && tables.Keys == metadata.Keys && inv(tables)
    requires forall i, t: map<TableKey, Table> {:trigger NextLeftover(metadata, t, prepared[i], later(i))}
               | 0 <= i < |prepared| && t.Keys == metadata.Keys && inv(t) ::
               NextLeftover(metadata, t, prepared[i], later(i)).ok
               ==> inv(NextLeftover(metadata, t, prepared[i], later(i)).tables)
    ensures var r := SettleLeftovers(metadata, tables, prepared, later, n);
            r.ok ==> inv(r.tables)
  {
    if n > 0 {
      LeftoversKeep(metadata, tables, prepared, later, n - 1, inv);
    }
  }

  lemma {:induction false} LeftoversKeepSound(
      metadata: Metadata, tables: map<TableKey, Table>, prepared: seq<Intent>, later: nat -> Answers,
      done: map<TableKey, seq<Record>>)
    requires tables.Keys == metadata.Keys && SidecarsValid(prepared) && Sound(done, prepared, tables)
    ensures var r := SettleLeftovers(metadata, tables, prepared, later, |prepared|);
            r.ok ==> Sound(done, prepared, r.tables)
  {
    var inv := (t: map<TableKey, Table>) => Sound(done, prepared, t);
    forall i, t: map<TableKey, Table> | 0 <= i < |prepared| && t.Keys == metadata.Keys && inv(t)
      ensures NextLeftover(metadata, t, prepared[i], later(i)).ok
              ==> inv(NextLeftover(metadata, t, prepared[i], later(i)).tables)
    {
      if NextLeftover(metadata, t, prepared[i], later(i)).ok {
        NextKeepsSound(metadata, done, prepared, i, t, later(i));
      }
    }
    LeftoversKeep(metadata, tables, prepared, later, |prepared|, inv);
  }

  /** Once the directory listing has been gone through, no intent is unresolved. */
  lemma {:induction false} LeftoversResolve(
      metadata: Metadata, tables: map<TableKey, Table>, prepared: seq<Intent>, later: nat -> Answers, n: nat, i: nat)
    requires i < n <= |prepared| && tables.Keys == metadata.Keys
    requires SettleLeftovers(metadata, tables, prepared, later, n).ok
    ensures var tables' := SettleLeftovers(metadata, tables, prepared, later, n).tables;
            prepared[i].key in tables' && tables'[prepared[i].key].unresolved.None?
  {
    if i < n - 1 {
      LeftoversResolve(metadata, tables, prepared, later, n - 1, i);
    }
  }

  lemma NextStaysBelow(metadata: Metadata, tables: map<TableKey, Table>, intent: Intent, a: Answers)
    requires tables.Keys == metadata.Keys && AllBelow(tables)
    ensures AllBelow(NextLeftover(metadata, tables, intent, a).tables)
  {
    var tables' := NextLeftover(metadata, tables, intent, a).tables;
    assert forall k | k in tables :: tables'[k].flushes == tables[k].flushes;
  }

  lemma {:induction false} LeftoversStayBelow(
      metadata: Metadata, tables: map<TableKey, Table>, prepared: seq<Intent>, later: nat -> Answers, n: nat)
    requires n <= |prepared| && tables.Keys == metadata.Keys && AllBelow(tables)
    ensures AllBelow(SettleLeftovers(metadata, tables, prepared, later, n).tables)
  {
    if n > 0 {
      LeftoversStayBelow(metadata, tables, prepared, later, n - 1);
      var r := SettleLeftovers(metadata, tables, prepared, later, n - 1);
      if r.ok {
        NextStaysBelow(metadata, r.tables, prepared[n - 1], later(n - 1));
      }
    }
  }

  // ----- Whole recoveries -----

  /** Recovery once the tables are loaded; no outcomes means that it failed. */
  function Recover(
      cfg: Config, metadata: Metadata, records: seq<Record>, prepared: seq<Intent>, index: map<string, TableIndex>,
      env: nat -> Answers, later: nat -> Answers)
    : (State, Option<seq<Outcome>>)
  {
    var s := Turns(cfg, metadata, records, env, Start(metadata, prepared, index), |records|);
    if s.failed then (s, None)
    else
      var r := SettleLeftovers(metadata, s.tables, prepared, later, |prepared|);
      (s.(tables := r.tables), if r.ok then Some(s.outcomes) else None)
  }

  lemma TurnsEndSound(metadata: Metadata, records: seq<Record>, prepared: seq<Intent>, s: State)
    requires s.tables.Keys == metadata.Keys && SoundTables(records, prepared, s)
    ensures Sound(DoneMap(metadata, records, s.outcomes), prepared, s.tables)
  {
    var done := DoneMap(metadata, records, s.outcomes);
    forall k | k in s.tables
      ensures k in done && TableInv(s.tables[k], done[k])
    {
      assert TableOk(s.tables[k], Done(records, s.outcomes, k));
    }
  }

  /** On success every record has exactly one outcome, of which the catalog decides
      the first two; every replayed record of every table is conserved; and every
      intent is proven published, or its table is blocked with the sidecar kept. */
  lemma RecoveryIsComplete(
      cfg: Config, load: string -> Load, metadata: Metadata, records: seq<Record>, prepared: seq<Intent>,
      index: map<string, TableIndex>, env: nat -> Answers, later: nat -> Answers)
    requires Inputs(cfg, metadata, load, records, prepared)
    requires Recover(cfg, metadata, records, prepared, index, env, later).1.Some?
    ensures var (s, result) := Recover(cfg, metadata, records, prepared, index, env, later);
            && |result.value| == |records|
            && AllClassified(cfg, load, metadata, records, result.value)
            && FinalTables(DoneMap(metadata, records, result.value), s.tables)
            && AllSettled(prepared, s.tables)
  {
    var s := Turns(cfg, metadata, records, env, Start(metadata, prepared, index), |records|);
    TurnsKeepTables(cfg, metadata, records, prepared, env, index, |records|);
    TurnsClassify(cfg, load, metadata, records, prepared, env, index, |records|);
    var done := DoneMap(metadata, records, s.outcomes);
    TurnsEndSound(metadata, records, prepared, s);
    LeftoversKeepSound(metadata, s.tables, prepared, later, done);
    var tables := SettleLeftovers(metadata, s.tables, prepared, later, |prepared|).tables;
    forall i | 0 <= i < |prepared|
      ensures prepared[i].key in tables && IntentSettled(tables[prepared[i].key], prepared[i])
    {
      LeftoversResolve(metadata, s.tables, prepared, later, |prepared|, i);
      assert Accounted(tables[prepared[i].key], prepared[i]);
    }
  }

  /** The final table of a replayed record, and the records replayed to it. */
  lemma FinalTableOf(
      cfg: Config, load: string -> Load, metadata: Metadata, records: seq<Record>, prepared: seq<Intent>,
      index: map<string, TableIndex>, env: nat -> Answers, later: nat -> Answers, i: nat)
    returns (t: Table, done: seq<Record>)
    requires Inputs(cfg, metadata, load, records, prepared) && i < |records|
    requires var result := Recover(cfg, metadata, records, prepared, index, env, later).1;
             result.Some? && |result.value| == |records| && result.value[i].Replayed?
    ensures var tables := Recover(cfg, metadata, records, prepared, index, env, later).0.tables;
            records[i].key in tables && tables[records[i].key] == t
    ensures TableInv(t, done) && records[i] in done
    ensures records[i].key in metadata
    ensures records[i].generation > 0
    ensures metadata[records[i].key].Some? ==> records[i].generation > metadata[records[i].key].value
  {
    RecoveryIsComplete(cfg, load, metadata, records, prepared, index, env, later);
    RecoverKeepsKeys(cfg, metadata, records, prepared, index, env, later);
    var (s, result) := Recover(cfg, metadata, records, prepared, index, env, later);
    var r := records[i];
    assert Classified(load(r.key.ident), cfg.writer, r, result.value[i]) && r.key in metadata;
    DoneIn(records, result.value, r.key, r);
    t, done := s.tables[r.key], DoneMap(metadata, records, result.value)[r.key];
  }

  /** After a successful recovery a replayed record is in its buffer or in one append
      of the catalog, exactly once, unless an append found published or one without
      proof covers it; then it is in both. */
  lemma ReplayedExactlyOnce(
      cfg: Config, load: string -> Load, metadata: Metadata, records: seq<Record>, prepared: seq<Intent>,
      index: map<string, TableIndex>, env: nat -> Answers, later: nat -> Answers, i: nat)
    requires Inputs(cfg, metadata, load, records, prepared) && i < |records|
    requires var result := Recover(cfg, metadata, records, prepared, index, env, later).1;
             result.Some? && |result.value| == |records| && result.value[i].Replayed?
    ensures var tables := Recover(cfg, metadata, records, prepared, index, env, later).0.tables;
            && records[i].key in tables
            && (ExactlyOnce(tables[records[i].key], records[i]) <==>
                !FoundCovers(tables[records[i].key], records[i]) && !HiddenCovers(tables[records[i].key], records[i]))
            && (InBoth(tables[records[i].key], records[i]) <==> !ExactlyOnce(tables[records[i].key], records[i]))
  {
    var t, done := FinalTableOf(cfg, load, metadata, records, prepared, index, env, later, i);
    WhereRecordsAre(t, done, records[i]);
  }

  lemma RecoverKeepsKeys(
      cfg: Config, metadata: Metadata, records: seq<Record>, prepared: seq<Intent>,
      index: map<string, TableIndex>, env: nat -> Answers, later: nat -> Answers)
    ensures Recover(cfg, metadata, records, prepared, index, env, later).0.tables.Keys == metadata.Keys
  {
  }

  /** Whether or not recovery succeeds: every flush it issued on a table with an
      unresolved intent drained only generations below the intent's range and never
      reached the catalog, and every claim it took is gone. */
  lemma RecoveryNeverOvertakes(
      cfg: Config, metadata: Metadata, records: seq<Record>, prepared: seq<Intent>,
      index: map<string, TableIndex>, env: nat -> Answers, later: nat -> Answers)
    requires PlanOrdered(records) && SidecarsValid(prepared)
    ensures var s := Recover(cfg, metadata, records, prepared, index, env, later).0;
            AllBelow(s.tables) && NoNewClaims(index, s.index)
  {
    var start := Start(metadata, prepared, index);
    var s := Turns(cfg, metadata, records, env, start, |records|);
    TurnsKeepTables(cfg, metadata, records, prepared, env, index, |records|);
    TurnsLeaveNoClaim(cfg, metadata, records, env, start, |records|);
    LeftoversStayBelow(metadata, s.tables, prepared, later, |prepared|);
  }

  /** Starting from an empty index, a record is set aside only for an earlier replayed
      record with its key, and, while nothing is evicted or expires, always; the index
      then answers with the receipts of the replayed records. */
  lemma DeduplicationIsExact(
      cfg: Config, metadata: Metadata, records: seq<Record>, prepared: seq<Intent>,
      env: nat -> Answers, later: nat -> Answers)
    requires OneKeyPerName(metadata)
    requires Recover(cfg, metadata, records, prepared, map[], env, later).1.Some?
    ensures var (s, outcomes) := Recover(cfg, metadata, records, prepared, map[], env, later);
            && |outcomes.value| == |records|
            && DuplicatesJustified(records, outcomes.value)
            && (AllPatient(env, |records|, cfg.ttl) ==>
                  && KeysReplayedOnce(records, outcomes.value)
                  && AllRemembered(cfg, records, outcomes.value, metadata.Keys, s.index, Times(env, |records|)))
  {
    var start := Start(metadata, prepared, map[]);
    TurnsKnow(cfg, metadata, records, env, start, |records|);
    if AllPatient(env, |records|, cfg.ttl) {
      TurnsRemember(cfg, metadata, records, env, start, |records|);
    }
  }
}
