/**
Startup recovery of the write-ahead log
(`replay_wal_inner`, `recovery_keys` and `load_target_metadata` in
crates/teodb-ingest/src/replay.rs).
*/
module Replay {
  import opened Wrappers
  import opened WriteProtocol
  import opened AppendGuard
  import opened Idempotency
  import opened TableRecovery

  datatype Outcome = Dropped | AlreadyCommitted | Deduplicated | Replayed

  // What storage, the clock and the catalog answer while one record is handled.
  datatype Answers = Answers(
    loads: bool, landed: bool, now: Instant, evicted: set<string>, flush: FlushAnswer, resolve: ResolveAnswer)

  datatype Config = Config(writer: Uuid, maxBytes: nat, hasFlusher: bool, ttl: nat)

  // ----- Which tables are recovered -----

  /** The generation up to which the catalog holds this writer's records. */
  function CheckpointOf(load: Load, writer: Uuid): Option<nat> {
    if !load.Loaded? then None
    else match ParseCheckpoint(load.t.properties, writer)
      case Success(Some(checkpoint)) => Some(checkpoint.generation)
      case _ => None
  }

  /** `recovery_keys`: every key a record or a sidecar names. A table name may not
      stand for two incarnations, one of them a sidecar's. */
  method RecoveryKeys(recordKeys: set<TableKey>, prepared: seq<Intent>) returns (r: Option<set<TableKey>>)
    ensures r.Some? ==> r.value == recordKeys + set p | p in prepared :: p.key
    ensures r.None? ==>
      exists p, k | p in prepared && k in recordKeys + (set q | q in prepared :: q.key) ::
        k.ident == p.key.ident && k.uuid != p.key.uuid
    ensures r.Some? && (forall k, k' | k in recordKeys && k' in recordKeys && k.ident == k'.ident :: k == k')
            ==> forall k, k' | k in r.value && k' in r.value && k.ident == k'.ident :: k == k'
  {
    var keys := recordKeys;
    for i := 0 to |prepared|
      invariant keys == recordKeys + set p | p in prepared[..i] :: p.key
      invariant (forall k, k' | k in recordKeys && k' in recordKeys && k.ident == k'.ident :: k == k')
                ==> forall k, k' | k in keys && k' in keys && k.ident == k'.ident :: k == k'
    {
      var intent := prepared[i];
      if exists k :: k in keys && k.ident == intent.key.ident {
        var existing :| existing in keys && existing.ident == intent.key.ident;
        if existing.uuid != intent.key.uuid {
          return None;
        }
      }
      keys := keys + {intent.key};
      assert prepared[..i + 1] == prepared[..i] + [intent];
    }
    assert prepared[..|prepared|] == prepared;
    return Some(keys);
  }

  /** `load_target_metadata`: fails on exactly the keys whose table cannot be read, is
      another incarnation, or has a bad registry; a missing table is left out. */
  method LoadTargetMetadata(keys: set<TableKey>, load: string -> Load, writer: Uuid)
    returns (r: Option<map<TableKey, Option<nat>>>)
    ensures r.None? <==>
            exists k | k in keys ::
              || load(k.ident).LoadError?
              || (load(k.ident).Loaded?
                  && (load(k.ident).t.uuid != k.uuid || !RegistryWellFormed(load(k.ident).t.properties)))
    ensures r.Some? ==> forall k | k in r.value :: load(k.ident).Loaded? && load(k.ident).t.uuid == k.uuid
    ensures r.Some? ==> r.value.Keys == set k | k in keys && load(k.ident).Loaded?
    ensures r.Some? ==> forall k | k in r.value :: r.value[k] == CheckpointOf(load(k.ident), writer)
    ensures r.Some? ==> forall k, k' | k in r.value && k' in r.value && k.ident == k'.ident :: k == k'
  {
    var loaded: map<TableKey, Option<nat>> := map[];
    var todo := keys;
    while todo != {}
      invariant todo <= keys
      invariant forall k | k in keys - todo ::
                  || load(k.ident).NotFound?
                  || (load(k.ident).Loaded? && load(k.ident).t.uuid == k.uuid
                      && RegistryWellFormed(load(k.ident).t.properties))
      invariant loaded.Keys == set k | k in keys - todo && load(k.ident).Loaded?
      invariant forall k | k in loaded :: loaded[k] == CheckpointOf(load(k.ident), writer)
    {
      var key :| key in todo;
      todo := todo - {key};
      var answer := load(key.ident);
      if answer.LoadError? {
        return None;
      }
      if answer.Loaded? {
        if answer.t.uuid != key.uuid {
          return None;
        }
        var counted := ValidateWriterCheckpoints(answer.t.properties);
        var checkpoint := ParseCheckpoint(answer.t.properties, writer);
        if counted.Failure? || checkpoint.Failure? {
          return None;
        }
        loaded := loaded[key := CheckpointOf(answer, writer)];
      }
    }
    return Some(loaded);
  }

  // ----- One record -----

  /** Admit the record; under capacity pressure flush what came before it, but never
      part of an unresolved intent's range, and try once more. */
  function InsertOrFlush(cfg: Config, t: Table, r: Record, a: FlushAnswer): (res: (Table, bool))
    requires t.buffer.Some?
    ensures res.0.buffer.Some? && res.0.unresolved == t.unresolved
  {
    if Fits(t.buffer.value, r, cfg.maxBytes) then
      if UsableGeneration(r) then (Insert(t, r), true) else (t, false)
    else if !cfg.hasFlusher then (t, false)
    else if t.unresolved.Some? && r.generation > t.unresolved.value.gens.lo then (t, false)
    else
      var (flushed, result) := Flush(t, r.key, a);
      if result.Committed? && Fits(flushed.buffer.value, r, cfg.maxBytes) && UsableGeneration(r)
      then (Insert(flushed, r), true) else (flushed, false)
  }

  /** Resolve the table's intent once its last generation has been replayed. */
  function ResolveIfReached(t: Table, r: Record, a: ResolveAnswer): (Table, bool)
    requires t.buffer.Some?
  {
    if t.unresolved.Some? && r.generation >= t.unresolved.value.gens.hi then
      var (resolved, ok) := Resolve(t, t.unresolved.value, a);
      (if ok then resolved.(unresolved := None) else resolved, ok)
    else (t, true)
  }

  function ReceiptOf(cfg: Config, r: Record): Receipt {
    Receipt(r.batch, cfg.writer, r.generation, r.rows)
  }

  // No outcome: recovery fails at this record.
  datatype Handled = Handled(table: Table, index: TableIndex, outcome: Option<Outcome>)

  /** From admission on: insert, settle the claim, resolve a reached intent. */
  function Admitted(cfg: Config, t: Table, claimed: TableIndex, r: Record, a: Answers): Handled
    requires t.buffer.Some?
  {
    var (inserted, ok) := InsertOrFlush(cfg, t, r, a.flush);
    if !ok then Handled(inserted, if r.idem.Some? then AbortIndex(claimed, r.idem.value) else claimed, None)
    else
      var completed := if r.idem.Some?
                       then CompleteIndex(claimed, r.idem.value, ReceiptOf(cfg, r), a.evicted) else claimed;
      var (resolved, ok) := ResolveIfReached(inserted, r, a.resolve);
      Handled(resolved, completed, if ok then Some(Replayed) else None)
  }

  /** A record without an idempotency key needs no claim. */
  function ClaimOf(cfg: Config, index: TableIndex, r: Record, now: Instant): (Claim, TableIndex) {
    if r.idem.Some? then ClaimAnswer(index, r.idem.value, now, cfg.ttl) else (Acquired, index)
  }

  /** A record whose key is held or completed is set aside. */
  function Claimed(cfg: Config, t: Table, index: TableIndex, r: Record, a: Answers): Handled
    requires t.buffer.Some?
  {
    var (claim, claimed) := ClaimOf(cfg, index, r, a.now);
    if !claim.Acquired? then Handled(t, claimed, Some(Deduplicated)) else Admitted(cfg, t, claimed, r, a)
  }

  /** What one record does to its table and to the table's idempotency index. */
  function Handle(cfg: Config, checkpoint: Option<nat>, t: Table, index: TableIndex, r: Record, a: Answers): Handled {
    if checkpoint.Some? && r.generation <= checkpoint.value then Handled(t, index, Some(Outcome.AlreadyCommitted))
    else if t.buffer.None? && !a.loads then Handled(t, index, None)
    else Claimed(cfg, LoadBuffer(t, if checkpoint.Some? then checkpoint.value else 0, a.landed), index, r, a)
  }

  ghost predicate Follows(done: seq<Record>, r: Record) {
    done != [] ==> done[|done| - 1].generation < r.generation
  }

  ghost predicate IntentWellFormed(t: Table) {
    t.unresolved.Some? ==> t.unresolved.value.gens.lo <= t.unresolved.value.gens.hi
  }

  lemma DoneIsBefore(done: seq<Record>, r: Record)
    requires StrictlyIncreasing(done) && Follows(done, r)
    ensures forall x | x in done :: x.generation < r.generation
  {
    forall i | 0 <= i < |done|
      ensures done[i].generation < r.generation
    {
      assert i < |done| - 1 ==> done[i].generation < done[|done| - 1].generation;
    }
  }

  lemma InsertOrFlushKeepsInv(cfg: Config, t: Table, done: seq<Record>, r: Record, a: FlushAnswer)
    requires TableInv(t, done) && NotAhead(t.published, done) && t.buffer.Some? && Follows(done, r)
    requires InsertOrFlush(cfg, t, r, a).1 && IntentWellFormed(t)
    ensures var t' := InsertOrFlush(cfg, t, r, a).0;
            TableInv(t', done + [r]) && NotAhead(t'.published, done + [r])
  {
    var t' := InsertOrFlush(cfg, t, r, a).0;
    if Fits(t.buffer.value, r, cfg.maxBytes) {
      assert t' == Insert(t, r);
      InsertKeepsInv(t, done, r);
    } else {
      var flushed := Flush(t, r.key, a).0;
      assert t' == Insert(flushed, r);
      if t.unresolved.Some? {
        DoneIsBefore(done, r);
        FlushStopsAtSidecar(t, done, r.key, a);
      } else {
        FlushKeepsInv(t, done, r.key, a);
        InsertKeepsInv(flushed, done, r);
      }
    }
  }

  /** While an intent is unresolved a record is admitted if and only if it fits beside
      everything replayed so far: the flush that would make room is always stopped. */
  lemma AdmittedIfItFits(cfg: Config, t: Table, done: seq<Record>, r: Record, a: FlushAnswer)
    requires TableInv(t, done) && t.buffer.Some? && t.unresolved.Some? && IntentWellFormed(t) && Follows(done, r)
    ensures InsertOrFlush(cfg, t, r, a).1 <==> Fits(t.buffer.value, r, cfg.maxBytes) && UsableGeneration(r)
  {
    if !Fits(t.buffer.value, r, cfg.maxBytes) && r.generation <= t.unresolved.value.gens.lo {
      DoneIsBefore(done, r);
      FlushStopsAtSidecar(t, done, r.key, a);
    }
  }

  /** Recovery never overtakes an unresolved intent, whether or not it succeeds. */
  lemma InsertOrFlushStaysBelow(cfg: Config, t: Table, done: seq<Record>, r: Record, a: FlushAnswer)
    requires TableInv(t, done) && t.buffer.Some? && Follows(done, r) && IntentWellFormed(t) && FlushesBelow(t.flushes)
    ensures FlushesBelow(InsertOrFlush(cfg, t, r, a).0.flushes)
  {
    if !Fits(t.buffer.value, r, cfg.maxBytes) {
      if t.unresolved.None? {
        FlushWithoutIntent(t, r.key, a);
      } else if r.generation <= t.unresolved.value.gens.lo {
        DoneIsBefore(done, r);
        FlushStopsAtSidecar(t, done, r.key, a);
      }
    }
  }

  lemma ResolveIfReachedKeepsInv(t: Table, done: seq<Record>, r: Record, a: ResolveAnswer)
    requires TableInv(t, done + [r]) && NotAhead(t.published, done + [r]) && t.buffer.Some?
    requires ResolveIfReached(t, r, a).1
    ensures var t' := ResolveIfReached(t, r, a).0;
            TableInv(t', done + [r]) && NotAhead(t'.published, done + [r])
  {
    var t' := ResolveIfReached(t, r, a).0;
    if t.unresolved.Some? && r.generation >= t.unresolved.value.gens.hi {
      assert t' == Resolve(t, t.unresolved.value, a).0.(unresolved := None);
      ResolveKeepsInv(t, done + [r], a);
      ResolveStaysBehind(t, done + [r], a);
    } else {
      assert t' == t;
    }
  }

  function NextDone(done: seq<Record>, r: Record, outcome: Outcome): seq<Record> {
    if outcome.Replayed? then done + [r] else done
  }

  /** A record that reaches the buffer goes through these steps. */
  lemma HandleSteps(cfg: Config, checkpoint: Option<nat>, t: Table, index: TableIndex, r: Record, a: Answers)
    returns (loaded: Table, inserted: Table)
    ensures loaded == LoadBuffer(t, if checkpoint.Some? then checkpoint.value else 0, a.landed)
    ensures loaded.buffer.Some? && loaded.unresolved == t.unresolved
    ensures loaded.published == t.published && loaded.flushes == t.flushes
    ensures inserted == InsertOrFlush(cfg, loaded, r, a.flush).0 && inserted.buffer.Some?
    ensures var h := Handle(cfg, checkpoint, t, index, r, a);
            || (h.table == t && h.outcome != Some(Replayed))
            || (h.table == loaded && h.outcome == Some(Deduplicated))
            || (h.table == inserted && h.outcome.None? && !InsertOrFlush(cfg, loaded, r, a.flush).1)
            || (h.table == ResolveIfReached(inserted, r, a.resolve).0 && InsertOrFlush(cfg, loaded, r, a.flush).1
                && h.outcome == if ResolveIfReached(inserted, r, a.resolve).1 then Some(Replayed) else None)
    ensures var flushes := Handle(cfg, checkpoint, t, index, r, a).table.flushes;
            flushes == t.flushes || flushes == inserted.flushes
  {
    loaded := LoadBuffer(t, if checkpoint.Some? then checkpoint.value else 0, a.landed);
    inserted := InsertOrFlush(cfg, loaded, r, a.flush).0;
  }

  lemma ReplayedKeepsInv(cfg: Config, loaded: Table, inserted: Table, r: Record, a: Answers, done: seq<Record>)
    requires TableInv(loaded, done) && NotAhead(loaded.published, done) && Follows(done, r)
    requires IntentWellFormed(loaded) && loaded.buffer.Some?
    requires InsertOrFlush(cfg, loaded, r, a.flush) == (inserted, true) && inserted.buffer.Some?
    requires ResolveIfReached(inserted, r, a.resolve).1
    ensures TableInv(ResolveIfReached(inserted, r, a.resolve).0, done + [r])
    ensures NotAhead(ResolveIfReached(inserted, r, a.resolve).0.published, done + [r])
  {
    InsertOrFlushKeepsInv(cfg, loaded, done, r, a.flush);
    ResolveIfReachedKeepsInv(inserted, done, r, a.resolve);
  }

  lemma HandleReplayed(cfg: Config, checkpoint: Option<nat>, t: Table, index: TableIndex, r: Record, a: Answers)
    returns (loaded: Table, inserted: Table)
    requires Handle(cfg, checkpoint, t, index, r, a).outcome == Some(Replayed)
    ensures loaded == LoadBuffer(t, if checkpoint.Some? then checkpoint.value else 0, a.landed)
    ensures loaded.buffer.Some? && loaded.unresolved == t.unresolved && loaded.published == t.published
    ensures InsertOrFlush(cfg, loaded, r, a.flush) == (inserted, true) && inserted.buffer.Some?
    ensures ResolveIfReached(inserted, r, a.resolve) == (Handle(cfg, checkpoint, t, index, r, a).table, true)
  {
    loaded, inserted := HandleSteps(cfg, checkpoint, t, index, r, a);
  }

  lemma HandleNotReplayed(cfg: Config, checkpoint: Option<nat>, t: Table, index: TableIndex, r: Record, a: Answers)
    requires var outcome := Handle(cfg, checkpoint, t, index, r, a).outcome;
             outcome.Some? && !outcome.value.Replayed?
    ensures var h := Handle(cfg, checkpoint, t, index, r, a);
            h.table == t || h.table == LoadBuffer(t, if checkpoint.Some? then checkpoint.value else 0, a.landed)
  {
    var _, _ := HandleSteps(cfg, checkpoint, t, index, r, a);
  }

  lemma HandleReplayedKeepsInv(
      cfg: Config, checkpoint: Option<nat>, t: Table, index: TableIndex, r: Record, a: Answers, done: seq<Record>)
    requires TableInv(t, done) && NotAhead(t.published, done) && Follows(done, r) && IntentWellFormed(t)
    requires Handle(cfg, checkpoint, t, index, r, a).outcome == Some(Replayed)
    ensures var t' := Handle(cfg, checkpoint, t, index, r, a).table;
            IntentWellFormed(t') && TableInv(t', done + [r]) && NotAhead(t'.published, done + [r])
  {
    var loaded, inserted := HandleReplayed(cfg, checkpoint, t, index, r, a);
    LoadKeepsInv(t, done, if checkpoint.Some? then checkpoint.value else 0, a.landed);
    ReplayedKeepsInv(cfg, loaded, inserted, r, a, done);
    assert ResolveIfReached(inserted, r, a.resolve).0 == Handle(cfg, checkpoint, t, index, r, a).table;
  }

  lemma HandleOtherKeepsInv(
      cfg: Config, checkpoint: Option<nat>, t: Table, index: TableIndex, r: Record, a: Answers, done: seq<Record>)
    requires TableInv(t, done) && NotAhead(t.published, done) && IntentWellFormed(t)
    requires var outcome := Handle(cfg, checkpoint, t, index, r, a).outcome;
             outcome.Some? && !outcome.value.Replayed?
    ensures var t' := Handle(cfg, checkpoint, t, index, r, a).table;
            IntentWellFormed(t') && TableInv(t', done) && NotAhead(t'.published, done)
  {
    var loaded := LoadBuffer(t, if checkpoint.Some? then checkpoint.value else 0, a.landed);
    LoadKeepsInv(t, done, if checkpoint.Some? then checkpoint.value else 0, a.landed);
    HandleNotReplayed(cfg, checkpoint, t, index, r, a);
    var t' := Handle(cfg, checkpoint, t, index, r, a).table;
    assert t' == t || t' == loaded;
  }

  /** One record keeps the invariant of its table. */
  lemma HandleKeepsInv(
      cfg: Config, checkpoint: Option<nat>, t: Table, index: TableIndex, r: Record, a: Answers, done: seq<Record>)
    requires TableInv(t, done) && NotAhead(t.published, done) && Follows(done, r) && IntentWellFormed(t)
    requires Handle(cfg, checkpoint, t, index, r, a).outcome.Some?
    ensures var h := Handle(cfg, checkpoint, t, index, r, a);
            && IntentWellFormed(h.table)
            && TableInv(h.table, NextDone(done, r, h.outcome.value))
            && NotAhead(h.table.published, NextDone(done, r, h.outcome.value))
  {
    var h := Handle(cfg, checkpoint, t, index, r, a);
    if h.outcome.value.Replayed? {
      HandleReplayedKeepsInv(cfg, checkpoint, t, index, r, a, done);
      assert NextDone(done, r, h.outcome.value) == done + [r];
    } else {
      HandleOtherKeepsInv(cfg, checkpoint, t, index, r, a, done);
      assert NextDone(done, r, h.outcome.value) == done;
    }
  }

  lemma LoadedStaysBelow(cfg: Config, t: Table, loaded: Table, r: Record, a: FlushAnswer, done: seq<Record>,
                         checkpoint: nat, landed: bool)
    requires TableInv(t, done) && Follows(done, r) && IntentWellFormed(t) && FlushesBelow(t.flushes)
    requires loaded == LoadBuffer(t, checkpoint, landed)
    ensures FlushesBelow(InsertOrFlush(cfg, loaded, r, a).0.flushes)
  {
    LoadKeepsInv(t, done, checkpoint, landed);
    InsertOrFlushStaysBelow(cfg, loaded, done, r, a);
  }

  /** Whether or not recovery succeeds, it never overtakes an unresolved intent. */
  lemma HandleStaysBelow(
      cfg: Config, checkpoint: Option<nat>, t: Table, index: TableIndex, r: Record, a: Answers, done: seq<Record>)
    requires TableInv(t, done) && Follows(done, r) && IntentWellFormed(t) && FlushesBelow(t.flushes)
    ensures FlushesBelow(Handle(cfg, checkpoint, t, index, r, a).table.flushes)
  {
    var loaded, inserted := HandleSteps(cfg, checkpoint, t, index, r, a);
    LoadedStaysBelow(cfg, t, loaded, r, a.flush, done, if checkpoint.Some? then checkpoint.value else 0, a.landed);
    assert FlushesBelow(inserted.flushes);
  }

  /** An intent is still unresolved or has been settled, and stays settled. */
  ghost predicate Accounted(t: Table, intent: Intent) {
    t.unresolved == Some(intent) || IntentSettled(t, intent)
  }

  lemma InsertOrFlushKeepsAccounted(
      cfg: Config, t: Table, done: seq<Record>, r: Record, a: FlushAnswer, intent: Intent)
    requires TableInv(t, done) && t.buffer.Some? && InsertOrFlush(cfg, t, r, a).1
    requires Accounted(t, intent) && intent.gens.lo <= intent.gens.hi
    ensures Accounted(InsertOrFlush(cfg, t, r, a).0, intent)
  {
    if !Fits(t.buffer.value, r, cfg.maxBytes) && t.unresolved != Some(intent) {
      FlushKeepsSettled(t, done, r.key, a, intent);
    }
  }

  lemma HandleKeepsAccounted(
      cfg: Config, checkpoint: Option<nat>, t: Table, index: TableIndex, r: Record, a: Answers, done: seq<Record>,
      intent: Intent)
    requires TableInv(t, done) && NotAhead(t.published, done) && Follows(done, r) && IntentWellFormed(t)
    requires Accounted(t, intent) && intent.gens.lo <= intent.gens.hi
    requires Handle(cfg, checkpoint, t, index, r, a).outcome.Some?
    ensures Accounted(Handle(cfg, checkpoint, t, index, r, a).table, intent)
  {
    var h := Handle(cfg, checkpoint, t, index, r, a);
    var loaded, inserted := HandleSteps(cfg, checkpoint, t, index, r, a);
    LoadKeepsInv(t, done, if checkpoint.Some? then checkpoint.value else 0, a.landed);
    if h.outcome.value.Replayed? {
      InsertOrFlushKeepsInv(cfg, loaded, done, r, a.flush);
      InsertOrFlushKeepsAccounted(cfg, loaded, done, r, a.flush, intent);
      if inserted.unresolved.Some? && r.generation >= inserted.unresolved.value.gens.hi {
        ResolveSettles(inserted, done + [r], a.resolve);
      }
    }
  }
}
