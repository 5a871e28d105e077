/**
The recovery object and its loops (`Replayer` in crates/teodb-ingest/src/replay.rs).

The source keeps buffers by table name and intents by table UUID. Among the tables
that recovery touches both determine the key, so one map by key stands for them.
*/
module WalReplayer {
  import opened Wrappers
  import opened AppendGuard
  import opened Idempotency
  import opened TableRecovery
  import opened Replay
  import opened Recovery
  import opened RecoveryRun

  class Replayer {
    const cfg: Config
    const idempotency: IdempotencyIndex
    var tables: map<TableKey, Table>

    constructor (cfg: Config, idempotency: IdempotencyIndex)
      ensures this.cfg == cfg && this.idempotency == idempotency && tables == map[]
    {
      this.cfg := cfg;
      this.idempotency := idempotency;
      tables := map[];
    }

    method InsertWithFlush(r: Record, a: FlushAnswer) returns (ok: bool)
      requires r.key in tables && tables[r.key].buffer.Some?
      modifies this
      ensures ok == InsertOrFlush(cfg, old(tables[r.key]), r, a).1
      ensures tables == old(tables)[r.key := InsertOrFlush(cfg, old(tables[r.key]), r, a).0]
    {
      var t := tables[r.key];
      if Fits(t.buffer.value, r, cfg.maxBytes) {
        if UsableGeneration(r) {
          tables := tables[r.key := Insert(t, r)];
        }
        return UsableGeneration(r);
      }
      if !cfg.hasFlusher {
        return false;
      }
      if t.unresolved.Some? && r.generation > t.unresolved.value.gens.lo {
        return false;
      }
      var flushed := Flush(t, r.key, a);
      tables := tables[r.key := flushed.0];
      if !flushed.1.Committed? || !Fits(flushed.0.buffer.value, r, cfg.maxBytes) || !UsableGeneration(r) {
        return false;
      }
      tables := tables[r.key := Insert(flushed.0, r)];
      return true;
    }

    method ResolveReached(r: Record, a: ResolveAnswer) returns (ok: bool)
      requires r.key in tables && tables[r.key].buffer.Some?
      modifies this
      ensures ok == ResolveIfReached(old(tables[r.key]), r, a).1
      ensures tables == old(tables)[r.key := ResolveIfReached(old(tables[r.key]), r, a).0]
    {
      var t := tables[r.key];
      if t.unresolved.None? || r.generation < t.unresolved.value.gens.hi {
        return true;
      }
      var resolved := Resolve(t, t.unresolved.value, a);
      tables := tables[r.key := resolved.0];
      if resolved.1 {
        tables := tables[r.key := tables[r.key].(unresolved := None)];
      }
      return resolved.1;
    }

    /** From admission on; `outcome` is absent when recovery fails. */
    method AdmitRecord(r: Record, a: Answers) returns (outcome: Option<Outcome>)
      requires r.key in tables && tables[r.key].buffer.Some?
      requires r.idem.Some? ==> r.key.ident in idempotency.tables
      modifies this, idempotency
      ensures var h := Admitted(cfg, old(tables[r.key]), old(IndexIn(idempotency.tables, r.key.ident)), r, a);
              && outcome == h.outcome
              && tables == old(tables)[r.key := h.table]
              && idempotency.tables == IndexAfter(old(idempotency.tables), r, true, h.index)
    {
      var inserted := InsertWithFlush(r, a.flush);
      if !inserted {
        if r.idem.Some? {
          idempotency.Abort(r.key.ident, r.idem.value);
        }
        return None;
      }
      if r.idem.Some? {
        idempotency.Complete(r.key.ident, r.idem.value, ReceiptOf(cfg, r), a.evicted);
      }
      var ok := ResolveReached(r, a.resolve);
      return if ok then Some(Replayed) else None;
    }

    /** The claim of the record's key; a record without one is always admitted. */
    method ClaimKey(r: Record, now: Instant) returns (claim: Claim)
      requires idempotency.ttl == cfg.ttl
      modifies idempotency
      ensures claim == ClaimOf(cfg, old(IndexIn(idempotency.tables, r.key.ident)), r, now).0
      ensures IndexIn(idempotency.tables, r.key.ident)
           == ClaimOf(cfg, old(IndexIn(idempotency.tables, r.key.ident)), r, now).1
      ensures idempotency.tables
           == IndexAfter(old(idempotency.tables), r, true, IndexIn(idempotency.tables, r.key.ident))
    {
      claim := Acquired;
      if r.idem.Some? {
        claim := idempotency.TryClaim(r.key.ident, r.idem.value, now);
      }
    }

    method ClaimAndAdmit(r: Record, a: Answers) returns (outcome: Option<Outcome>)
      requires r.key in tables && tables[r.key].buffer.Some? && idempotency.ttl == cfg.ttl
      modifies this, idempotency
      ensures var h := Claimed(cfg, old(tables[r.key]), old(IndexIn(idempotency.tables, r.key.ident)), r, a);
              && outcome == h.outcome
              && tables == old(tables)[r.key := h.table]
              && idempotency.tables == IndexAfter(old(idempotency.tables), r, true, h.index)
    {
      var claim := ClaimKey(r, a.now);
      if !claim.Acquired? {
        return Some(Deduplicated);
      }
      outcome := AdmitRecord(r, a);
    }

    /** The body of the loop for a record of a table that exists. */
    method HandleRecord(r: Record, checkpoint: Option<nat>, a: Answers) returns (outcome: Option<Outcome>)
      requires r.key in tables && idempotency.ttl == cfg.ttl
      modifies this, idempotency
      ensures var t, own := old(tables[r.key]), old(IndexIn(idempotency.tables, r.key.ident));
              var h := Handle(cfg, checkpoint, t, own, r, a);
              && outcome == h.outcome
              && tables == old(tables)[r.key := h.table]
              && idempotency.tables == IndexAfter(old(idempotency.tables), r, Claims(checkpoint, t, r, a), h.index)
    {
      if checkpoint.Some? && r.generation <= checkpoint.value {
        return Some(Outcome.AlreadyCommitted);
      }
      if tables[r.key].buffer.None? && !a.loads {
        return None;
      }
      var loaded := LoadBuffer(tables[r.key], if checkpoint.Some? then checkpoint.value else 0, a.landed);
      tables := tables[r.key := loaded];
      outcome := ClaimAndAdmit(r, a);
    }

    method TakeTurn(metadata: Metadata, r: Record, a: Answers) returns (outcome: Option<Outcome>)
      requires idempotency.ttl == cfg.ttl && tables.Keys == metadata.Keys
      modifies this, idempotency
      ensures tables.Keys == metadata.Keys
      ensures forall outcomes :: (
                Turn(cfg, metadata, State(old(tables), old(idempotency.tables), outcomes, false), r, a)
                == State(tables, idempotency.tables,
                         if outcome.Some? then outcomes + [outcome.value] else outcomes, outcome.None?))
    {
      if r.key !in metadata {
        return Some(Dropped);
      }
      outcome := HandleRecord(r, metadata[r.key], a);
    }

    /** The loop over the log; `env` answers for each record. */
    method ReplayRecords(metadata: Metadata, records: seq<Record>, env: nat -> Answers)
      returns (failed: bool, outcomes: seq<Outcome>)
      requires idempotency.ttl == cfg.ttl && tables.Keys == metadata.Keys
      modifies this, idempotency
      ensures State(tables, idempotency.tables, outcomes, failed)
           == Turns(cfg, metadata, records, env, State(old(tables), old(idempotency.tables), [], false), |records|)
    {
      outcomes := [];
      ghost var start := State(tables, idempotency.tables, [], false);
      for n := 0 to |records|
        invariant tables.Keys == metadata.Keys
        invariant State(tables, idempotency.tables, outcomes, false) == Turns(cfg, metadata, records, env, start, n)
      {
        ghost var before := State(tables, idempotency.tables, outcomes, false);
        var outcome := TakeTurn(metadata, records[n], env(n));
        assert Turns(cfg, metadata, records, env, start, n + 1) == Turn(cfg, metadata, before, records[n], env(n));
        if outcome.None? {
          FailureIsFinal(cfg, metadata, records, env, start, n + 1, |records|);
          return true, outcomes;
        }
        outcomes := outcomes + [outcome.value];
      }
      failed := false;
    }

    method ResolveLeftover(metadata: Metadata, intent: Intent, a: Answers) returns (ok: bool)
      requires tables.Keys == metadata.Keys
      modifies this
      ensures Leftovers(tables, ok) == NextLeftover(metadata, old(tables), intent, a)
    {
      if intent.key !in metadata {
        return false;
      }
      if tables[intent.key].unresolved.None? {
        return true;
      }
      var settled := SettleLeftover(tables[intent.key], metadata[intent.key], a);
      tables := tables[intent.key := settled.0];
      return settled.1;
    }

    /** The sidecars the loop did not reach, in the order of the directory listing. */
    method ResolveLeftovers(metadata: Metadata, prepared: seq<Intent>, later: nat -> Answers) returns (ok: bool)
      requires tables.Keys == metadata.Keys
      modifies this
      ensures Leftovers(tables, ok) == SettleLeftovers(metadata, old(tables), prepared, later, |prepared|)
    {
      ghost var start := tables;
      var n := 0;
      ok := true;
      while n < |prepared| && ok
        invariant n <= |prepared| && tables.Keys == metadata.Keys
        invariant Leftovers(tables, ok) == SettleLeftovers(metadata, start, prepared, later, n)
      {
        ok := ResolveLeftover(metadata, prepared[n], later(n));
        n := n + 1;
        LastLeftover(metadata, start, prepared, later, n);
      }
      if !ok {
        LeftoverFailureIsFinal(metadata, start, prepared, later, n, |prepared|);
      }
    }

    /** `replay_wal_inner`: load the tables, replay the log, resolve what is left. */
    method ReplayWal(
        records: seq<Record>, prepared: seq<Intent>, load: string -> Load, env: nat -> Answers, later: nat -> Answers)
      returns (metadata: Option<Metadata>, result: Option<seq<Outcome>>)
      requires idempotency.ttl == cfg.ttl && PlanOrdered(records) && SidecarsValid(prepared)
      modifies this, idempotency
      ensures metadata.None? ==> result.None? && tables == map[] && idempotency.tables == old(idempotency.tables)
      ensures metadata.Some? ==>
                Inputs(cfg, metadata.value, load, records, prepared)
                && forall i | 0 <= i < |prepared| ::
                     prepared[i].key in metadata.value <==> load(prepared[i].key.ident).Loaded?
      ensures metadata.Some? ==>
                var (s, r) := Recover(cfg, metadata.value, records, prepared, old(idempotency.tables), env, later);
                tables == s.tables && idempotency.tables == s.index && result == r
    {
      tables := map[];
      metadata, result := None, None;
      var keys := RecoveryKeys(set r | r in records :: r.key, prepared);
      if keys.None? {
        return;
      }
      metadata := LoadTargetMetadata(keys.value, load, cfg.writer);
      if metadata.None? {
        return;
      }
      assert forall i | 0 <= i < |records| :: records[i].key in keys.value;
      assert forall i | 0 <= i < |prepared| :: prepared[i].key in keys.value;
      tables := StartTables(metadata.value, prepared);
      var failed, outcomes := ReplayRecords(metadata.value, records, env);
      if failed {
        return;
      }
      var ok := ResolveLeftovers(metadata.value, prepared, later);
      if ok {
        result := Some(outcomes);
      }
    }
  }
}
