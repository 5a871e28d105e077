/**
The recovery loop (`replay_wal_inner` in crates/teodb-ingest/src/replay.rs) over a
whole log of many tables, and what a recovery has achieved when it returns.
*/
module Recovery {
  import opened Wrappers
  import opened WriteProtocol
  import opened AppendGuard
  import opened Idempotency
  import opened TableRecovery
  import opened Replay

  /** The plan sorts records by generation, and a table's generations are distinct. */
  ghost predicate PlanOrdered(records: seq<Record>) {
    forall i, j | 0 <= i < j < |records| && records[i].key == records[j].key ::
      records[i].generation < records[j].generation
  }

  /** One sidecar file per incarnation, each validated when it is read. */
  ghost predicate SidecarsValid(prepared: seq<Intent>) {
    && (forall i, j | 0 <= i < j < |prepared| :: prepared[i].key != prepared[j].key)
    && (forall i | 0 <= i < |prepared| :: prepared[i].gens.lo <= prepared[i].gens.hi)
  }

  /** The records of one table that were replayed, in order. */
  ghost function Done(records: seq<Record>, outcomes: seq<Outcome>, key: TableKey): seq<Record>
    requires |outcomes| <= |records|
  {
    if outcomes == [] then []
    else
      var n := |outcomes| - 1;
      Done(records, outcomes[..n], key)
      + if outcomes[n].Replayed? && records[n].key == key then [records[n]] else []
  }

  lemma {:induction false} DoneGrows(records: seq<Record>, outcomes: seq<Outcome>, outcome: Outcome, key: TableKey)
    requires |outcomes| < |records|
    ensures Done(records, outcomes + [outcome], key)
            == if records[|outcomes|].key == key
               then NextDone(Done(records, outcomes, key), records[|outcomes|], outcome)
               else Done(records, outcomes, key)
  {
    assert (outcomes + [outcome])[..|outcomes|] == outcomes;
  }

  lemma {:induction false} DoneIn(records: seq<Record>, outcomes: seq<Outcome>, key: TableKey, r: Record)
    requires |outcomes| <= |records|
    ensures r in Done(records, outcomes, key) <==>
            exists i :: 0 <= i < |outcomes| && outcomes[i].Replayed? && records[i] == r && r.key == key
  {
    if outcomes != [] {
      var n := |outcomes| - 1;
      DoneIn(records, outcomes[..n], key, r);
      if r in Done(records, outcomes[..n], key) {
        var i :| 0 <= i < n && outcomes[..n][i].Replayed? && records[i] == r && r.key == key;
        assert outcomes[i].Replayed?;
      }
      if i :| 0 <= i < |outcomes| && outcomes[i].Replayed? && records[i] == r && r.key == key {
        if i < n {
          assert outcomes[..n][i].Replayed?;
        }
      }
    }
  }

  lemma {:induction false} DoneBefore(records: seq<Record>, outcomes: seq<Outcome>, m: nat)
    requires PlanOrdered(records) && |outcomes| <= m < |records|
    ensures Follows(Done(records, outcomes, records[m].key), records[m])
  {
    if outcomes != [] {
      DoneBefore(records, outcomes[..|outcomes| - 1], m);
    }
  }

  lemma {:induction false} NextFollows(records: seq<Record>, outcomes: seq<Outcome>)
    requires PlanOrdered(records) && |outcomes| < |records|
    ensures Follows(Done(records, outcomes, records[|outcomes|].key), records[|outcomes|])
  {
    DoneBefore(records, outcomes, |outcomes|);
  }

  // ----- The invariant of the loop -----

  ghost predicate TableOk(t: Table, done: seq<Record>) {
    TableInv(t, done) && NotAhead(t.published, done) && IntentWellFormed(t)
  }

  ghost predicate TablesOk(records: seq<Record>, outcomes: seq<Outcome>, tables: map<TableKey, Table>)
    requires |outcomes| <= |records|
  {
    forall k | k in tables :: TableOk(tables[k], Done(records, outcomes, k))
  }

  ghost predicate AllBelow(tables: map<TableKey, Table>) {
    forall k | k in tables :: FlushesBelow(tables[k].flushes)
  }

  ghost predicate AllAccounted(prepared: seq<Intent>, tables: map<TableKey, Table>) {
    forall i | 0 <= i < |prepared| && prepared[i].key in tables :: Accounted(tables[prepared[i].key], prepared[i])
  }

  /** A dropped table, or a generation the checkpoint covers, and otherwise one of the
      other two outcomes. */
  ghost predicate Classified(load: Load, writer: Uuid, r: Record, outcome: Outcome) {
    && (outcome.Dropped? <==> load.NotFound?)
    && (outcome.AlreadyCommitted? <==>
        load.Loaded? && CheckpointOf(load, writer).Some? && r.generation <= CheckpointOf(load, writer).value)
  }

  lemma DroppedKeepsTables(records: seq<Record>, outcomes: seq<Outcome>, tables: map<TableKey, Table>)
    requires |outcomes| < |records| && TablesOk(records, outcomes, tables)
    ensures TablesOk(records, outcomes + [Dropped], tables)
  {
    forall k | k in tables
      ensures TableOk(tables[k], Done(records, outcomes + [Dropped], k))
    {
      DoneGrows(records, outcomes, Dropped, k);
      assert Done(records, outcomes + [Dropped], k) == Done(records, outcomes, k);
    }
  }

  lemma HandledTableOk(
      cfg: Config, checkpoint: Option<nat>, t: Table, index: TableIndex, r: Record, a: Answers, done: seq<Record>)
    requires TableOk(t, done) && Follows(done, r) && Handle(cfg, checkpoint, t, index, r, a).outcome.Some?
    ensures var h := Handle(cfg, checkpoint, t, index, r, a);
            TableOk(h.table, NextDone(done, r, h.outcome.value))
  {
    HandleKeepsInv(cfg, checkpoint, t, index, r, a, done);
  }

  lemma HandledKeepsTables(
      cfg: Config, checkpoint: Option<nat>, index: TableIndex, a: Answers,
      records: seq<Record>, outcomes: seq<Outcome>, tables: map<TableKey, Table>, h: Handled)
    requires PlanOrdered(records) && |outcomes| < |records| && TablesOk(records, outcomes, tables)
    requires records[|outcomes|].key in tables && h.outcome.Some?
    requires h == Handle(cfg, checkpoint, tables[records[|outcomes|].key], index, records[|outcomes|], a)
    ensures TablesOk(records, outcomes + [h.outcome.value], tables[records[|outcomes|].key := h.table])
  {
    var r := records[|outcomes|];
    var done := Done(records, outcomes, r.key);
    NextFollows(records, outcomes);
    assert TableOk(tables[r.key], done);
    HandledTableOk(cfg, checkpoint, tables[r.key], index, r, a, done);
    ReplaceTable(records, outcomes, h.outcome.value, tables, h.table);
  }

  lemma {:induction false} ReplaceTable(
      records: seq<Record>, outcomes: seq<Outcome>, outcome: Outcome, tables: map<TableKey, Table>, t: Table)
    requires |outcomes| < |records| && TablesOk(records, outcomes, tables)
    requires var r := records[|outcomes|]; TableOk(t, NextDone(Done(records, outcomes, r.key), r, outcome))
    ensures TablesOk(records, outcomes + [outcome], tables[records[|outcomes|].key := t])
  {
    var tables' := tables[records[|outcomes|].key := t];
    forall k | k in tables'
      ensures TableOk(tables'[k], Done(records, outcomes + [outcome], k))
    {
      DoneGrows(records, outcomes, outcome, k);
    }
  }

  lemma HandledKeepsBelow(
      cfg: Config, checkpoint: Option<nat>, index: TableIndex, a: Answers,
      records: seq<Record>, outcomes: seq<Outcome>, tables: map<TableKey, Table>)
    requires PlanOrdered(records) && |outcomes| < |records| && TablesOk(records, outcomes, tables) && AllBelow(tables)
    requires records[|outcomes|].key in tables
    ensures var r := records[|outcomes|];
            AllBelow(tables[r.key := Handle(cfg, checkpoint, tables[r.key], index, r, a).table])
  {
    var r := records[|outcomes|];
    NextFollows(records, outcomes);
    assert TableOk(tables[r.key], Done(records, outcomes, r.key));
    HandleStaysBelow(cfg, checkpoint, tables[r.key], index, r, a, Done(records, outcomes, r.key));
  }

  lemma HandledKeepsAccounted(
      cfg: Config, checkpoint: Option<nat>, index: TableIndex, a: Answers,
      records: seq<Record>, outcomes: seq<Outcome>, tables: map<TableKey, Table>, prepared: seq<Intent>)
    requires PlanOrdered(records) && |outcomes| < |records| && TablesOk(records, outcomes, tables)
    requires SidecarsValid(prepared) && AllAccounted(prepared, tables)
    requires records[|outcomes|].key in tables
    requires Handle(cfg, checkpoint, tables[records[|outcomes|].key], index, records[|outcomes|], a).outcome.Some?
    ensures var r := records[|outcomes|];
            AllAccounted(prepared, tables[r.key := Handle(cfg, checkpoint, tables[r.key], index, r, a).table])
  {
    var r := records[|outcomes|];
    var tables' := tables[r.key := Handle(cfg, checkpoint, tables[r.key], index, r, a).table];
    forall i | 0 <= i < |prepared| && prepared[i].key in tables'
      ensures Accounted(tables'[prepared[i].key], prepared[i])
    {
      assert Accounted(tables[prepared[i].key], prepared[i]);
      if prepared[i].key == r.key {
        NextFollows(records, outcomes);
        assert TableOk(tables[r.key], Done(records, outcomes, r.key));
        HandleKeepsAccounted(cfg, checkpoint, tables[r.key], index, r, a, Done(records, outcomes, r.key), prepared[i]);
      }
    }
  }

  // ----- Idempotency claims -----

  /** Recovery leaves no claim behind, whether it goes on or fails. */
  lemma HandleLeavesNoClaim(
      cfg: Config, checkpoint: Option<nat>, t: Table, index: TableIndex, r: Record, a: Answers)
    ensures Handle(cfg, checkpoint, t, index, r, a).index.inProgress.Keys <= index.inProgress.Keys
  {
  }

  ghost predicate NoNewClaims(index: map<string, TableIndex>, index': map<string, TableIndex>) {
    forall t :: IndexIn(index', t).inProgress.Keys <= IndexIn(index, t).inProgress.Keys
  }

  /** Every key the index knows was brought in by a replayed record. */
  ghost predicate KnownFrom(index: TableIndex, done: seq<Record>) {
    forall key | key in index.inProgress || key in index.completed ::
      exists i :: 0 <= i < |done| && done[i].idem == Some(key)
  }

  lemma HandleKnows(
      cfg: Config, checkpoint: Option<nat>, t: Table, index: TableIndex, r: Record, a: Answers, done: seq<Record>)
    requires KnownFrom(index, done) && Handle(cfg, checkpoint, t, index, r, a).outcome.Some?
    ensures var h := Handle(cfg, checkpoint, t, index, r, a);
            && KnownFrom(h.index, NextDone(done, r, h.outcome.value))
            && (h.outcome.value.Deduplicated? ==>
                  r.idem.Some? && exists i :: 0 <= i < |done| && done[i].idem == r.idem)
  {
    var h := Handle(cfg, checkpoint, t, index, r, a);
    var done' := NextDone(done, r, h.outcome.value);
    forall key | key in h.index.inProgress || key in h.index.completed
      ensures exists i :: 0 <= i < |done'| && done'[i].idem == Some(key)
    {
      if key in index.inProgress || key in index.completed {
        var i :| 0 <= i < |done| && done[i].idem == Some(key);
        assert done'[i].idem == Some(key);
      } else {
        assert done'[|done|].idem == Some(key);
      }
    }
  }

  /** Nothing is evicted, and no claim has expired since any of `times`. */
  ghost predicate Patient(a: Answers, times: set<Instant>, ttl: nat) {
    a.evicted == {} && forall s | s in times :: Elapsed(a.now, s) <= ttl
  }

  /** The index has the receipt of every replayed record with a key. */
  ghost predicate Remembers(cfg: Config, index: TableIndex, done: seq<Record>, times: set<Instant>) {
    forall i | 0 <= i < |done| && done[i].idem.Some? ::
      && done[i].idem.value in index.completed
      && index.completed[done[i].idem.value].receipt
         == Receipt(done[i].batch, cfg.writer, done[i].generation, done[i].rows)
      && index.completed[done[i].idem.value].claimedAt in times
  }

  lemma HandleRemembers(
      cfg: Config, checkpoint: Option<nat>, t: Table, index: TableIndex, r: Record, a: Answers, done: seq<Record>,
      times: set<Instant>)
    requires Remembers(cfg, index, done, times) && Patient(a, times, cfg.ttl)
    requires Handle(cfg, checkpoint, t, index, r, a).outcome.Some?
    ensures var h := Handle(cfg, checkpoint, t, index, r, a);
            && Remembers(cfg, h.index, NextDone(done, r, h.outcome.value), times + {a.now})
            && (h.outcome.value.Replayed? && r.idem.Some? ==> forall i | 0 <= i < |done| :: done[i].idem != r.idem)
  {
  }

  ghost predicate AllKnown(
      records: seq<Record>, outcomes: seq<Outcome>, keys: set<TableKey>, index: map<string, TableIndex>)
    requires |outcomes| <= |records|
  {
    forall k | k in keys :: KnownFrom(IndexIn(index, k.ident), Done(records, outcomes, k))
  }

  ghost predicate AllRemembered(
      cfg: Config, records: seq<Record>, outcomes: seq<Outcome>, keys: set<TableKey>, index: map<string, TableIndex>,
      times: set<Instant>)
    requires |outcomes| <= |records|
  {
    forall k | k in keys :: Remembers(cfg, IndexIn(index, k.ident), Done(records, outcomes, k), times)
  }

  ghost function Times(env: nat -> Answers, n: nat): set<Instant> {
    set i | 0 <= i < n :: env(i).now
  }

  ghost predicate AllPatient(env: nat -> Answers, n: nat, ttl: nat) {
    forall i | 0 <= i < n :: Patient(env(i), Times(env, i), ttl)
  }

  ghost predicate SameKey(r: Record, r': Record) {
    r.key == r'.key && r.idem.Some? && r.idem == r'.idem
  }

  /** A record is set aside only for an earlier one with the same idempotency key. */
  ghost predicate DuplicatesJustified(records: seq<Record>, outcomes: seq<Outcome>)
    requires |outcomes| <= |records|
  {
    forall j | 0 <= j < |outcomes| && outcomes[j].Deduplicated? ::
      exists i :: 0 <= i < j && outcomes[i].Replayed? && SameKey(records[i], records[j])
  }

  /** No idempotency key is replayed twice. */
  ghost predicate KeysReplayedOnce(records: seq<Record>, outcomes: seq<Outcome>)
    requires |outcomes| <= |records|
  {
    forall i, j | 0 <= i < j < |outcomes| && outcomes[i].Replayed? && outcomes[j].Replayed? ::
      !SameKey(records[i], records[j])
  }

  /** Only the record's own table changes in the index. */
  ghost predicate IndexOnly(
      index: map<string, TableIndex>, index': map<string, TableIndex>, ident: string, own: TableIndex)
  {
    forall t: string :: IndexIn(index', t) == if t == ident then own else IndexIn(index, t)
  }

  lemma DroppedKeepsIndex(
      cfg: Config, records: seq<Record>, outcomes: seq<Outcome>, keys: set<TableKey>, index: map<string, TableIndex>,
      times: set<Instant>, now: Instant)
    requires |outcomes| < |records|
    ensures AllKnown(records, outcomes, keys, index) ==> AllKnown(records, outcomes + [Dropped], keys, index)
    ensures AllRemembered(cfg, records, outcomes, keys, index, times)
            ==> AllRemembered(cfg, records, outcomes + [Dropped], keys, index, times + {now})
    ensures DuplicatesJustified(records, outcomes) ==> DuplicatesJustified(records, outcomes + [Dropped])
    ensures KeysReplayedOnce(records, outcomes) ==> KeysReplayedOnce(records, outcomes + [Dropped])
  {
    forall k | k in keys
      ensures Done(records, outcomes + [Dropped], k) == Done(records, outcomes, k)
    {
      DoneGrows(records, outcomes, Dropped, k);
    }
    if DuplicatesJustified(records, outcomes) {
      JustifyNext(records, outcomes, Dropped);
    }
  }

  lemma JustifyNext(records: seq<Record>, outcomes: seq<Outcome>, outcome: Outcome)
    requires |outcomes| < |records| && DuplicatesJustified(records, outcomes)
    requires outcome.Deduplicated? ==>
      exists i :: 0 <= i < |outcomes| && outcomes[i].Replayed? && SameKey(records[i], records[|outcomes|])
    ensures DuplicatesJustified(records, outcomes + [outcome])
  {
    var outcomes' := outcomes + [outcome];
    forall j | 0 <= j < |outcomes'| && outcomes'[j].Deduplicated?
      ensures exists i :: 0 <= i < j && outcomes'[i].Replayed? && SameKey(records[i], records[j])
    {
      var i :| 0 <= i < j && outcomes[i].Replayed? && SameKey(records[i], records[j]);
      assert outcomes'[i].Replayed?;
    }
  }

  lemma HandledKeepsKnown(
      cfg: Config, checkpoint: Option<nat>, t: Table, a: Answers, records: seq<Record>, outcomes: seq<Outcome>,
      keys: set<TableKey>, index: map<string, TableIndex>, index': map<string, TableIndex>, h: Handled)
    requires |outcomes| < |records| && records[|outcomes|].key in keys && h.outcome.Some?
    requires forall k, k' | k in keys && k' in keys && k.ident == k'.ident :: k == k'
    requires var r := records[|outcomes|];
             && h == Handle(cfg, checkpoint, t, IndexIn(index, r.key.ident), r, a)
             && IndexOnly(index, index', r.key.ident, h.index)
    requires AllKnown(records, outcomes, keys, index) && DuplicatesJustified(records, outcomes)
    ensures AllKnown(records, outcomes + [h.outcome.value], keys, index')
    ensures DuplicatesJustified(records, outcomes + [h.outcome.value])
  {
    var r := records[|outcomes|];
    var done := Done(records, outcomes, r.key);
    HandleKnows(cfg, checkpoint, t, IndexIn(index, r.key.ident), r, a, done);
    forall k | k in keys
      ensures KnownFrom(IndexIn(index', k.ident), Done(records, outcomes + [h.outcome.value], k))
    {
      DoneGrows(records, outcomes, h.outcome.value, k);
      assert KnownFrom(IndexIn(index, k.ident), Done(records, outcomes, k));
    }
    if h.outcome.value.Deduplicated? {
      var d :| 0 <= d < |done| && done[d].idem == r.idem;
      DoneIn(records, outcomes, r.key, done[d]);
      var i :| 0 <= i < |outcomes| && outcomes[i].Replayed? && records[i] == done[d] && done[d].key == r.key;
      assert SameKey(records[i], r);
    }
    JustifyNext(records, outcomes, h.outcome.value);
  }

  lemma HandledKeepsRemembered(
      cfg: Config, checkpoint: Option<nat>, t: Table, a: Answers, records: seq<Record>, outcomes: seq<Outcome>,
      keys: set<TableKey>, index: map<string, TableIndex>, index': map<string, TableIndex>, h: Handled,
      times: set<Instant>)
    requires |outcomes| < |records| && records[|outcomes|].key in keys && h.outcome.Some?
    requires forall k, k' | k in keys && k' in keys && k.ident == k'.ident :: k == k'
    requires var r := records[|outcomes|];
             && h == Handle(cfg, checkpoint, t, IndexIn(index, r.key.ident), r, a)
             && IndexOnly(index, index', r.key.ident, h.index)
    requires AllRemembered(cfg, records, outcomes, keys, index, times) && KeysReplayedOnce(records, outcomes)
    requires Patient(a, times, cfg.ttl)
    ensures AllRemembered(cfg, records, outcomes + [h.outcome.value], keys, index', times + {a.now})
    ensures KeysReplayedOnce(records, outcomes + [h.outcome.value])
  {
    var r := records[|outcomes|];
    var done := Done(records, outcomes, r.key);
    assert Remembers(cfg, IndexIn(index, r.key.ident), done, times);
    HandleRemembers(cfg, checkpoint, t, IndexIn(index, r.key.ident), r, a, done, times);
    forall k | k in keys
      ensures Remembers(cfg, IndexIn(index', k.ident), Done(records, outcomes + [h.outcome.value], k), times + {a.now})
    {
      DoneGrows(records, outcomes, h.outcome.value, k);
      assert Remembers(cfg, IndexIn(index, k.ident), Done(records, outcomes, k), times);
    }
    forall i | 0 <= i < |outcomes| && outcomes[i].Replayed? && h.outcome.value.Replayed?
      ensures !SameKey(records[i], r)
    {
      if records[i].key == r.key {
        DoneIn(records, outcomes, r.key, records[i]);
      }
    }
  }
}
