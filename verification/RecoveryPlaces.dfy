/**
When a replayed record is in exactly one place after recovery. It is in the buffer
and in the catalog too in two cases: the delayed original of its intent lands between
the two reads of the writer's checkpoint, `load_target_metadata` and `get_or_load`,
or recovery contains the intent although the catalog has it, for example because the
reply of the retried commit was lost
(crates/teodb-ingest/src/replay.rs, crates/teodb-ingest/src/buffer/registry.rs).
*/
module RecoveryPlaces {
  import opened Wrappers
  import opened WriteProtocol
  import opened AppendGuard
  import opened Idempotency
  import opened TableRecovery
  import opened Replay
  import opened Recovery
  import opened RecoveryRun

  function CheckpointValue(checkpoint: Option<nat>): nat {
    if checkpoint.Some? then checkpoint.value else 0
  }

  // ----- What a table's state says about its intent -----

  ghost predicate NoneFound(published: seq<Append>, from: nat) {
    forall i | from <= i < |published| :: !FoundPublished(published[i])
  }

  /** The table never had an intent. */
  ghost predicate WithoutIntent(t: Table) {
    t.unresolved.None? && t.hidden.None? && NoneFound(t.published, 0)
  }

  /** The intent is unresolved; `landed` is the answer at the load, if there was one. */
  ghost predicate Open(t: Table, p: Intent, checkpoint: nat, landed: Option<bool>) {
    && t.unresolved == Some(p) && t.published == []
    && (landed.None? ==> t.hidden.None?)
    && (landed.Some? ==>
          && t.hidden == (if LandsLate(Some(p), checkpoint, landed.value) then Some(p) else None)
          && t.buffer.Some?
          && t.buffer.value.highWater
             == if LandsLate(Some(p), checkpoint, landed.value) then p.gens.hi else checkpoint)
  }

  /** The intent is the first append, which took no records if it was covered already. */
  ghost predicate Proved(t: Table, p: Intent, checkpoint: nat, landed: bool) {
    && t.unresolved.None? && t.hidden.None? && t.published != [] && t.published[0].gens == p.gens
    && (FoundPublished(t.published[0]) <==>
        p.gens.hi <= checkpoint || LandsLate(Some(p), checkpoint, landed))
    && NoneFound(t.published, 1)
  }

  /** The table is blocked on the intent, which may be in the catalog all the same. */
  ghost predicate Held(t: Table, p: Intent, checkpoint: nat, landed: bool, inCatalog: bool) {
    && t.unresolved.None? && t.published == []
    && t.hidden == (if inCatalog || LandsLate(Some(p), checkpoint, landed) then Some(p) else None)
    && t.buffer.Some? && t.buffer.value.flush.Blocked?
  }

  ghost predicate Traced(
      t: Table, p: Option<Intent>, checkpoint: nat, landed: Option<bool>, resolved: Option<ResolveAnswer>)
  {
    && (t.buffer.Some? <==> landed.Some?)
    && match p
       case None => WithoutIntent(t)
       case Some(intent) =>
         match resolved
         case None => Open(t, intent, checkpoint, landed)
         case Some(Invalid) => false
         case Some(Proven(_)) => landed.Some? && Proved(t, intent, checkpoint, landed.value)
         case Some(Contained(inCatalog)) => landed.Some? && Held(t, intent, checkpoint, landed.value, inCatalog)
  }

  // ----- One record -----

  lemma LoadTraced(t: Table, done: seq<Record>, p: Option<Intent>, checkpoint: nat, landed: Option<bool>,
                   resolved: Option<ResolveAnswer>, lands: bool)
    requires TableInv(t, done) && Traced(t, p, checkpoint, landed, resolved)
    ensures Traced(LoadBuffer(t, checkpoint, lands), p, checkpoint,
                   if landed.Some? then landed else Some(lands), resolved)
  {
  }

  /** Without an open intent a flush may commit, and its append takes records. */
  lemma FlushTraced(t: Table, done: seq<Record>, key: TableKey, a: FlushAnswer, p: Option<Intent>, checkpoint: nat,
                    landed: Option<bool>, resolved: Option<ResolveAnswer>)
    requires TableInv(t, done) && t.buffer.Some? && t.unresolved.None? && Flush(t, key, a).1.Committed?
    requires Traced(t, p, checkpoint, landed, resolved)
    ensures Traced(Flush(t, key, a).0, p, checkpoint, landed, resolved)
  {
    CommittedFlush(t, key, a);
    var pending := t.buffer.value.pending;
    var append := Append(RangeOf(pending), pending);
    assert !FoundPublished(append);
    assert NoneFound(t.published, 0) ==> NoneFound(t.published + [append], 0);
    assert NoneFound(t.published, 1) ==> t.published != [] ==> NoneFound(t.published + [append], 1);
  }

  lemma InsertTraced(t: Table, r: Record, p: Option<Intent>, checkpoint: nat, landed: Option<bool>,
                     resolved: Option<ResolveAnswer>)
    requires t.buffer.Some? && Traced(t, p, checkpoint, landed, resolved)
    ensures Traced(Insert(t, r), p, checkpoint, landed, resolved)
  {
  }

  lemma InsertOrFlushTraced(
      cfg: Config, t: Table, done: seq<Record>, r: Record, a: FlushAnswer, p: Option<Intent>, checkpoint: nat,
      landed: Option<bool>, resolved: Option<ResolveAnswer>)
    requires TableInv(t, done) && t.buffer.Some? && Follows(done, r) && IntentWellFormed(t)
    requires InsertOrFlush(cfg, t, r, a).1 && Traced(t, p, checkpoint, landed, resolved)
    ensures Traced(InsertOrFlush(cfg, t, r, a).0, p, checkpoint, landed, resolved)
  {
    if t.unresolved.Some? {
      AdmittedIfItFits(cfg, t, done, r, a);
    }
    if Fits(t.buffer.value, r, cfg.maxBytes) {
      InsertTraced(t, r, p, checkpoint, landed, resolved);
    } else {
      var flushed := Flush(t, r.key, a).0;
      FlushTraced(t, done, r.key, a, p, checkpoint, landed, resolved);
      InsertTraced(flushed, r, p, checkpoint, landed, resolved);
    }
  }

  lemma ResolveTraced(t: Table, done: seq<Record>, a: ResolveAnswer, p: Intent, checkpoint: nat, landed: Option<bool>)
    requires TableInv(t, done) && t.buffer.Some? && Traced(t, Some(p), checkpoint, landed, None)
    requires Resolve(t, p, a).1
    ensures Traced(Resolve(t, p, a).0.(unresolved := None), Some(p), checkpoint, landed, Some(a))
  {
    var t' := Resolve(t, p, a).0.(unresolved := None);
    var restored := Restore(t.buffer.value, p).value;
    if a.Proven? {
      assert t'.published == [Append(p.gens, restored.inFlight)];
      assert restored.inFlight == [] <==> p.gens.hi <= t.buffer.value.highWater;
    }
  }

  /** The record resolves the table's intent. */
  predicate Reaches(p: Option<Intent>, r: Record, outcome: Outcome) {
    p.Some? && outcome.Replayed? && r.generation >= p.value.gens.hi
  }

  predicate CoveredBy(checkpoint: Option<nat>, r: Record) {
    checkpoint.Some? && r.generation <= checkpoint.value
  }

  lemma ReplayedTraced(
      cfg: Config, loaded: Table, r: Record, a: Answers, done: seq<Record>, p: Option<Intent>, checkpoint: nat,
      landed: Option<bool>, resolved: Option<ResolveAnswer>)
    requires TableInv(loaded, done) && NotAhead(loaded.published, done) && loaded.buffer.Some?
    requires Follows(done, r) && IntentWellFormed(loaded) && Traced(loaded, p, checkpoint, landed, resolved)
    requires InsertOrFlush(cfg, loaded, r, a.flush).1
    requires ResolveIfReached(InsertOrFlush(cfg, loaded, r, a.flush).0, r, a.resolve).1
    ensures Traced(ResolveIfReached(InsertOrFlush(cfg, loaded, r, a.flush).0, r, a.resolve).0, p, checkpoint, landed,
                   if resolved.None? && Reaches(p, r, Replayed) then Some(a.resolve) else resolved)
  {
    var inserted := InsertOrFlush(cfg, loaded, r, a.flush).0;
    InsertOrFlushKeepsInv(cfg, loaded, done, r, a.flush);
    InsertOrFlushTraced(cfg, loaded, done, r, a.flush, p, checkpoint, landed, resolved);
    if inserted.unresolved.Some? && r.generation >= inserted.unresolved.value.gens.hi {
      ResolveTraced(inserted, done + [r], a.resolve, p.value, checkpoint, landed);
    }
  }

  lemma HandleTraced(
      cfg: Config, checkpoint: Option<nat>, t: Table, index: TableIndex, r: Record, a: Answers, done: seq<Record>,
      p: Option<Intent>, landed: Option<bool>, resolved: Option<ResolveAnswer>)
    requires TableInv(t, done) && NotAhead(t.published, done) && Follows(done, r) && IntentWellFormed(t)
    requires Traced(t, p, CheckpointValue(checkpoint), landed, resolved)
    requires Handle(cfg, checkpoint, t, index, r, a).outcome.Some?
    ensures var h := Handle(cfg, checkpoint, t, index, r, a);
            Traced(h.table, p, CheckpointValue(checkpoint),
                   if landed.Some? || CoveredBy(checkpoint, r) then landed else Some(a.landed),
                   if resolved.None? && Reaches(p, r, h.outcome.value) then Some(a.resolve) else resolved)
  {
    var h := Handle(cfg, checkpoint, t, index, r, a);
    if !CoveredBy(checkpoint, r) {
      var loaded, inserted := HandleSteps(cfg, checkpoint, t, index, r, a);
      var landed' := if landed.Some? then landed else Some(a.landed);
      LoadTraced(t, done, p, CheckpointValue(checkpoint), landed, resolved, a.landed);
      LoadKeepsInv(t, done, CheckpointValue(checkpoint), a.landed);
      if h.outcome.value.Replayed? {
        ReplayedTraced(cfg, loaded, r, a, done, p, CheckpointValue(checkpoint), landed', resolved);
      } else {
        assert h.table == loaded;
      }
    }
  }

  // ----- The whole log -----

  /** The first record of the table that the first read of the checkpoint does not
      cover: it makes recovery load the buffer. */
  function LoadTurn(records: seq<Record>, checkpoint: Option<nat>, key: TableKey, n: nat): Option<nat>
    requires n <= |records|
  {
    if n == 0 then None
    else if LoadTurn(records, checkpoint, key, n - 1).Some? then LoadTurn(records, checkpoint, key, n - 1)
    else if records[n - 1].key == key && !CoveredBy(checkpoint, records[n - 1]) then Some(n - 1) else None
  }

  /** The first replayed record of the table that reaches the end of the intent. */
  function ResolveTurn(records: seq<Record>, p: Intent, outcomes: seq<Outcome>): Option<nat>
    requires |outcomes| <= |records|
  {
    if outcomes == [] then None
    else
      var n := |outcomes| - 1;
      if ResolveTurn(records, p, outcomes[..n]).Some? then ResolveTurn(records, p, outcomes[..n])
      else if records[n].key == p.key && Reaches(Some(p), records[n], outcomes[n]) then Some(n) else None
  }

  ghost predicate IsLoadTurn(records: seq<Record>, checkpoint: Option<nat>, key: TableKey, i: nat) {
    && i < |records| && records[i].key == key && !CoveredBy(checkpoint, records[i])
    && forall j | 0 <= j < i :: records[j].key == key ==> CoveredBy(checkpoint, records[j])
  }

  ghost predicate IsResolveTurn(records: seq<Record>, p: Intent, outcomes: seq<Outcome>, i: nat)
    requires |outcomes| <= |records|
  {
    && i < |outcomes| && records[i].key == p.key && Reaches(Some(p), records[i], outcomes[i])
    && forall j | 0 <= j < i :: !(records[j].key == p.key && Reaches(Some(p), records[j], outcomes[j]))
  }

  lemma {:induction false} LoadTurnIsFirst(records: seq<Record>, checkpoint: Option<nat>, key: TableKey, n: nat, i: nat)
    requires n <= |records| && i < n
    ensures LoadTurn(records, checkpoint, key, n) == Some(i) <==> IsLoadTurn(records, checkpoint, key, i)
  {
    if i < n - 1 {
      LoadTurnIsFirst(records, checkpoint, key, n - 1, i);
    } else {
      NoLoadTurn(records, checkpoint, key, n - 1);
    }
  }

  lemma {:induction false} NoLoadTurn(records: seq<Record>, checkpoint: Option<nat>, key: TableKey, n: nat)
    requires n <= |records|
    ensures LoadTurn(records, checkpoint, key, n).None? <==>
            forall j | 0 <= j < n :: records[j].key == key ==> CoveredBy(checkpoint, records[j])
    ensures LoadTurn(records, checkpoint, key, n).Some? ==> LoadTurn(records, checkpoint, key, n).value < n
  {
    if n > 0 {
      NoLoadTurn(records, checkpoint, key, n - 1);
    }
  }

  lemma {:induction false} NoResolveTurn(records: seq<Record>, p: Intent, outcomes: seq<Outcome>)
    requires |outcomes| <= |records|
    ensures ResolveTurn(records, p, outcomes).None? <==>
            forall j | 0 <= j < |outcomes| :: !(records[j].key == p.key && Reaches(Some(p), records[j], outcomes[j]))
    ensures ResolveTurn(records, p, outcomes).Some? ==> ResolveTurn(records, p, outcomes).value < |outcomes|
  {
    if outcomes != [] {
      NoResolveTurn(records, p, outcomes[..|outcomes| - 1]);
    }
  }

  lemma {:induction false} ResolveTurnIsFirst(records: seq<Record>, p: Intent, outcomes: seq<Outcome>, i: nat)
    requires i < |outcomes| <= |records|
    ensures ResolveTurn(records, p, outcomes) == Some(i) <==> IsResolveTurn(records, p, outcomes, i)
  {
    var n := |outcomes| - 1;
    if i < n {
      ResolveTurnIsFirst(records, p, outcomes[..n], i);
    } else {
      NoResolveTurn(records, p, outcomes[..n]);
    }
  }

  /** The answers at those turns. */
  ghost function LandedSoFar(
      records: seq<Record>, checkpoint: Option<nat>, key: TableKey, env: nat -> Answers, n: nat): Option<bool>
    requires n <= |records|
  {
    var turn := LoadTurn(records, checkpoint, key, n);
    if turn.Some? then Some(env(turn.value).landed) else None
  }

  ghost function ResolvedSoFar(
      records: seq<Record>, p: Option<Intent>, env: nat -> Answers, outcomes: seq<Outcome>): Option<ResolveAnswer>
    requires |outcomes| <= |records|
  {
    if p.None? || ResolveTurn(records, p.value, outcomes).None? then None
    else Some(env(ResolveTurn(records, p.value, outcomes).value).resolve)
  }

  ghost predicate TracedAt(
      t: Table, p: Option<Intent>, checkpoint: Option<nat>, key: TableKey, records: seq<Record>, env: nat -> Answers,
      outcomes: seq<Outcome>)
    requires |outcomes| <= |records|
  {
    Traced(t, p, CheckpointValue(checkpoint), LandedSoFar(records, checkpoint, key, env, |outcomes|),
           ResolvedSoFar(records, p, env, outcomes))
  }

  ghost predicate TableTraced(
      metadata: Metadata, records: seq<Record>, prepared: seq<Intent>, env: nat -> Answers, key: TableKey, s: State)
  {
    && key in metadata && key in s.tables && |s.outcomes| <= |records|
    && TracedAt(s.tables[key], FindIntent(prepared, key), metadata[key], key, records, env, s.outcomes)
  }

  lemma LandedNext(records: seq<Record>, checkpoint: Option<nat>, key: TableKey, env: nat -> Answers, n: nat)
    requires n < |records|
    ensures var landed := LandedSoFar(records, checkpoint, key, env, n);
            LandedSoFar(records, checkpoint, key, env, n + 1)
            == if landed.Some? || records[n].key != key || CoveredBy(checkpoint, records[n]) then landed
               else Some(env(n).landed)
  {
  }

  lemma ResolvedNext(records: seq<Record>, p: Option<Intent>, env: nat -> Answers, outcomes: seq<Outcome>, o: Outcome)
    requires |outcomes| < |records|
    ensures var resolved := ResolvedSoFar(records, p, env, outcomes);
            var n := |outcomes|;
            ResolvedSoFar(records, p, env, outcomes + [o])
            == if resolved.None? && p.Some? && records[n].key == p.value.key && Reaches(p, records[n], o)
               then Some(env(n).resolve) else resolved
  {
    assert (outcomes + [o])[..|outcomes|] == outcomes;
  }

  lemma NextTraced(
      t: Table, p: Option<Intent>, checkpoint: Option<nat>, records: seq<Record>, env: nat -> Answers,
      outcomes: seq<Outcome>, o: Outcome, landed: Option<bool>, resolved: Option<ResolveAnswer>)
    requires |outcomes| < |records| && (p.Some? ==> p.value.key == records[|outcomes|].key)
    requires landed == LandedSoFar(records, checkpoint, records[|outcomes|].key, env, |outcomes|)
    requires resolved == ResolvedSoFar(records, p, env, outcomes)
    requires var r, a := records[|outcomes|], env(|outcomes|);
             Traced(t, p, CheckpointValue(checkpoint),
                    if landed.Some? || CoveredBy(checkpoint, r) then landed else Some(a.landed),
                    if resolved.None? && Reaches(p, r, o) then Some(a.resolve) else resolved)
    ensures TracedAt(t, p, checkpoint, records[|outcomes|].key, records, env, outcomes + [o])
  {
    LandedNext(records, checkpoint, records[|outcomes|].key, env, |outcomes|);
    ResolvedNext(records, p, env, outcomes, o);
  }

  lemma OwnRecordTraced(
      cfg: Config, checkpoint: Option<nat>, t: Table, index: TableIndex, done: seq<Record>, p: Option<Intent>,
      records: seq<Record>, env: nat -> Answers, outcomes: seq<Outcome>, h: Handled)
    requires |outcomes| < |records| && TableOk(t, done) && Follows(done, records[|outcomes|])
    requires p.Some? ==> p.value.key == records[|outcomes|].key
    requires h == Handle(cfg, checkpoint, t, index, records[|outcomes|], env(|outcomes|)) && h.outcome.Some?
    requires TracedAt(t, p, checkpoint, records[|outcomes|].key, records, env, outcomes)
    ensures TracedAt(h.table, p, checkpoint, records[|outcomes|].key, records, env, outcomes + [h.outcome.value])
  {
    var n, key := |outcomes|, records[|outcomes|].key;
    var landed, resolved := LandedSoFar(records, checkpoint, key, env, n), ResolvedSoFar(records, p, env, outcomes);
    HandleTraced(cfg, checkpoint, t, index, records[n], env(n), done, p, landed, resolved);
    NextTraced(h.table, p, checkpoint, records, env, outcomes, h.outcome.value, landed, resolved);
  }

  lemma OtherRecordTraced(
      t: Table, p: Option<Intent>, checkpoint: Option<nat>, key: TableKey, records: seq<Record>, env: nat -> Answers,
      outcomes: seq<Outcome>, outcome: Outcome)
    requires |outcomes| < |records| && records[|outcomes|].key != key && (p.Some? ==> p.value.key == key)
    requires TracedAt(t, p, checkpoint, key, records, env, outcomes)
    ensures TracedAt(t, p, checkpoint, key, records, env, outcomes + [outcome])
  {
    LandedNext(records, checkpoint, key, env, |outcomes|);
    ResolvedNext(records, p, env, outcomes, outcome);
  }

  lemma OtherTurn(cfg: Config, metadata: Metadata, s: State, r: Record, a: Answers, key: TableKey)
    returns (outcome: Outcome)
    requires s.tables.Keys == metadata.Keys && key in metadata && r.key != key
    requires !Turn(cfg, metadata, s, r, a).failed
    ensures var s' := Turn(cfg, metadata, s, r, a);
            s'.tables[key] == s.tables[key] && s'.outcomes == s.outcomes + [outcome]
  {
    if r.key !in metadata {
      outcome := Dropped;
    } else {
      outcome := Handle(cfg, metadata[r.key], s.tables[r.key], IndexIn(s.index, r.key.ident), r, a).outcome.value;
    }
  }

  lemma OwnTurn(cfg: Config, metadata: Metadata, s: State, r: Record, a: Answers) returns (h: Handled)
    requires s.tables.Keys == metadata.Keys && r.key in metadata && !Turn(cfg, metadata, s, r, a).failed
    ensures h == Handle(cfg, metadata[r.key], s.tables[r.key], IndexIn(s.index, r.key.ident), r, a) && h.outcome.Some?
    ensures var s' := Turn(cfg, metadata, s, r, a);
            s'.tables[r.key] == h.table && s'.outcomes == s.outcomes + [h.outcome.value]
  {
    h := Handle(cfg, metadata[r.key], s.tables[r.key], IndexIn(s.index, r.key.ident), r, a);
  }

  lemma {:induction false} OwnTurnTraced(
      cfg: Config, metadata: Metadata, records: seq<Record>, prepared: seq<Intent>, env: nat -> Answers, s: State,
      h: Handled)
    requires PlanOrdered(records) && s.tables.Keys == metadata.Keys && |s.outcomes| < |records|
    requires TablesOk(records, s.outcomes, s.tables)
    requires TableTraced(metadata, records, prepared, env, records[|s.outcomes|].key, s)
    requires var r := records[|s.outcomes|];
             h == Handle(cfg, metadata[r.key], s.tables[r.key], IndexIn(s.index, r.key.ident), r, env(|s.outcomes|))
             && h.outcome.Some?
    ensures var key := records[|s.outcomes|].key;
            TracedAt(h.table, FindIntent(prepared, key), metadata[key], key, records, env,
                     s.outcomes + [h.outcome.value])
  {
    var key := records[|s.outcomes|].key;
    NextFollows(records, s.outcomes);
    var done := Done(records, s.outcomes, key);
    assert TableOk(s.tables[key], done);
    OwnRecordTraced(cfg, metadata[key], s.tables[key], IndexIn(s.index, key.ident), done,
                    FindIntent(prepared, key), records, env, s.outcomes, h);
  }

  lemma TurnTraced(
      cfg: Config, metadata: Metadata, records: seq<Record>, prepared: seq<Intent>, env: nat -> Answers,
      key: TableKey, s: State, s': State)
    requires PlanOrdered(records) && s.tables.Keys == metadata.Keys && |s.outcomes| < |records|
    requires TablesOk(records, s.outcomes, s.tables) && TableTraced(metadata, records, prepared, env, key, s)
    requires s' == Turn(cfg, metadata, s, records[|s.outcomes|], env(|s.outcomes|)) && !s'.failed
    ensures TableTraced(metadata, records, prepared, env, key, s')
  {
    var n := |s.outcomes|;
    if records[n].key == key {
      var h := OwnTurn(cfg, metadata, s, records[n], env(n));
      OwnTurnTraced(cfg, metadata, records, prepared, env, s, h);
    } else {
      var outcome := OtherTurn(cfg, metadata, s, records[n], env(n), key);
      OtherRecordTraced(s.tables[key], FindIntent(prepared, key), metadata[key], key, records, env, s.outcomes,
                        outcome);
    }
  }

  lemma {:induction false} TurnsTraced(
      cfg: Config, metadata: Metadata, records: seq<Record>, prepared: seq<Intent>, env: nat -> Answers,
      index: map<string, TableIndex>, key: TableKey, n: nat)
    requires PlanOrdered(records) && SidecarsValid(prepared) && key in metadata && n <= |records|
    ensures var s := Turns(cfg, metadata, records, env, Start(metadata, prepared, index), n);
            s.failed || (|s.outcomes| == n && TableTraced(metadata, records, prepared, env, key, s))
  {
    var start := Start(metadata, prepared, index);
    var inv := (s: State) =>
      SoundTables(records, prepared, s) && AllBelow(s.tables)
      && TableTraced(metadata, records, prepared, env, key, s);
    StartIsOk(records, metadata, prepared);
    forall i, s: State | 0 <= i < |records| && s.tables.Keys == metadata.Keys && |s.outcomes| == i && inv(s)
      ensures Turn(cfg, metadata, s, records[i], env(i)).failed || inv(Turn(cfg, metadata, s, records[i], env(i)))
    {
      TurnKeepsTables(cfg, metadata, records, prepared, s, env(i));
      var s' := Turn(cfg, metadata, s, records[i], env(i));
      if !s'.failed {
        TurnTraced(cfg, metadata, records, prepared, env, key, s, s');
      }
    }
    TurnsKeep(cfg, metadata, records, env, start, n, inv, _ => true);
  }

  // ----- The leftovers -----

  lemma {:induction false} LeftoversSkip(
      metadata: Metadata, tables: map<TableKey, Table>, prepared: seq<Intent>, later: nat -> Answers, n: nat,
      key: TableKey)
    requires n <= |prepared| && tables.Keys == metadata.Keys && key in metadata
    requires forall j | 0 <= j < n :: prepared[j].key != key
    ensures SettleLeftovers(metadata, tables, prepared, later, n).tables[key] == tables[key]
  {
    if n > 0 {
      LeftoversSkip(metadata, tables, prepared, later, n - 1, key);
    }
  }

  /** Only its own sidecar touches a table after the loop. */
  lemma {:induction false} LeftoverOf(
      metadata: Metadata, tables: map<TableKey, Table>, prepared: seq<Intent>, later: nat -> Answers, n: nat, m: nat)
    requires m < n <= |prepared| && tables.Keys == metadata.Keys && prepared[m].key in metadata
    requires SidecarsValid(prepared) && SettleLeftovers(metadata, tables, prepared, later, n).ok
    ensures var key := prepared[m].key;
            var t := SettleLeftovers(metadata, tables, prepared, later, n).tables[key];
            if tables[key].unresolved.None? then t == tables[key]
            else SettleLeftover(tables[key], metadata[key], later(m)) == (t, true)
  {
    var key := prepared[m].key;
    if m == n - 1 {
      LeftoversSkip(metadata, tables, prepared, later, m, key);
    } else {
      LeftoverOf(metadata, tables, prepared, later, n - 1, m);
      assert prepared[n - 1].key != key;
    }
  }

  lemma LeftoverTraced(
      t: Table, done: seq<Record>, checkpoint: Option<nat>, a: Answers, p: Intent, landed: Option<bool>)
    requires TableInv(t, done) && Traced(t, Some(p), CheckpointValue(checkpoint), landed, None)
    requires t.unresolved.Some? && SettleLeftover(t, checkpoint, a).1
    ensures Traced(SettleLeftover(t, checkpoint, a).0, Some(p), CheckpointValue(checkpoint),
                   if landed.Some? then landed else Some(a.landed), Some(a.resolve))
  {
    var loaded := LoadBuffer(t, CheckpointValue(checkpoint), a.landed);
    LoadTraced(t, done, Some(p), CheckpointValue(checkpoint), landed, None, a.landed);
    LoadKeepsInv(t, done, CheckpointValue(checkpoint), a.landed);
    ResolveTraced(loaded, done, a.resolve, p, CheckpointValue(checkpoint),
                  if landed.Some? then landed else Some(a.landed));
  }

  // ----- Where a replayed record is -----

  function IntentIndex(prepared: seq<Intent>, key: TableKey): (r: Option<nat>)
    ensures r.Some? ==> r.value < |prepared| && prepared[r.value].key == key
                        && FindIntent(prepared, key) == Some(prepared[r.value])
    ensures r.None? <==> FindIntent(prepared, key).None?
  {
    if prepared == [] then None
    else if prepared[0].key == key then Some(0)
    else match IntentIndex(prepared[1..], key)
      case None => None
      case Some(m) => Some(m + 1)
  }

  /** The catalog's answer when the intent was resolved: at the record that reached it,
      or after the loop. */
  ghost function FinalAnswer(
      records: seq<Record>, prepared: seq<Intent>, outcomes: seq<Outcome>, env: nat -> Answers, later: nat -> Answers,
      m: nat): ResolveAnswer
    requires |outcomes| <= |records| && m < |prepared|
  {
    var turn := ResolveTurn(records, prepared[m], outcomes);
    if turn.Some? then env(turn.value).resolve else later(m).resolve
  }

  /** At the turn that loads the table's buffer, the intent's original has landed. */
  ghost predicate LandsBetweenReads(
      records: seq<Record>, checkpoint: Option<nat>, key: TableKey, env: nat -> Answers)
  {
    LandedSoFar(records, checkpoint, key, env, |records|) == Some(true)
  }

  /** What puts a record in both places, from the log, the sidecars and the answers. */
  ghost predicate Doubles(
      metadata: Metadata, records: seq<Record>, prepared: seq<Intent>, outcomes: seq<Outcome>,
      env: nat -> Answers, later: nat -> Answers, r: Record)
    requires |outcomes| <= |records| && r.key in metadata
  {
    var m := IntentIndex(prepared, r.key);
    && m.Some? && Contains(prepared[m.value].gens, r.generation)
    && (|| LandsBetweenReads(records, metadata[r.key], r.key, env)
        || FinalAnswer(records, prepared, outcomes, env, later, m.value) == Contained(true))
  }

  /** The trace of a resolved intent tells where its records are. */
  lemma TraceTellsPlace(
      t: Table, done: seq<Record>, r: Record, p: Option<Intent>, checkpoint: nat, landed: bool, answer: ResolveAnswer)
    requires TableInv(t, done) && r in done && r.generation > checkpoint
    requires Traced(t, p, checkpoint, Some(landed), if p.Some? then Some(answer) else None)
    ensures ExactlyOnce(t, r) <==>
            !(p.Some? && Contains(p.value.gens, r.generation) && (landed || answer == Contained(true)))
  {
    WhereRecordsAre(t, done, r);
    if p.Some? && answer.Proven? {
      assert FoundCovers(t, r) <==> FoundPublished(t.published[0]) && Contains(t.published[0].gens, r.generation);
    }
  }

  lemma OpenUntilResolved(
      t: Table, p: Intent, checkpoint: nat, landed: Option<bool>, resolved: Option<ResolveAnswer>)
    requires Traced(t, Some(p), checkpoint, landed, resolved)
    ensures t.unresolved.Some? <==> resolved.None?
  {
  }

  lemma LeftoverEndsTraced(
      t: Table, t': Table, done: seq<Record>, checkpoint: Option<nat>, a: Answers, p: Intent, landed: bool,
      resolved: Option<ResolveAnswer>)
    requires TableInv(t, done) && Traced(t, Some(p), CheckpointValue(checkpoint), Some(landed), resolved)
    requires if t.unresolved.None? then t' == t else SettleLeftover(t, checkpoint, a) == (t', true)
    ensures Traced(t', Some(p), CheckpointValue(checkpoint), Some(landed),
                   Some(if resolved.Some? then resolved.value else a.resolve))
  {
    OpenUntilResolved(t, p, CheckpointValue(checkpoint), Some(landed), resolved);
    if t.unresolved.Some? {
      LeftoverTraced(t, done, checkpoint, a, p, Some(landed));
    }
  }

  /** After the leftovers the table's intent is resolved. */
  lemma {:induction false} LeftoversTraced(
      metadata: Metadata, tables: map<TableKey, Table>, prepared: seq<Intent>, later: nat -> Answers, key: TableKey,
      done: seq<Record>, landed: bool, resolved: Option<ResolveAnswer>, m: nat)
    requires tables.Keys == metadata.Keys && key in metadata && SidecarsValid(prepared) && TableInv(tables[key], done)
    requires m < |prepared| && prepared[m].key == key
    requires SettleLeftovers(metadata, tables, prepared, later, |prepared|).ok
    requires Traced(tables[key], Some(prepared[m]), CheckpointValue(metadata[key]), Some(landed), resolved)
    ensures var t := SettleLeftovers(metadata, tables, prepared, later, |prepared|).tables[key];
            Traced(t, Some(prepared[m]), CheckpointValue(metadata[key]), Some(landed),
                   Some(if resolved.Some? then resolved.value else later(m).resolve))
  {
    var t' := SettleLeftovers(metadata, tables, prepared, later, |prepared|).tables[key];
    LeftoverOf(metadata, tables, prepared, later, |prepared|, m);
    LeftoverEndsTraced(tables[key], t', done, metadata[key], later(m), prepared[m], landed, resolved);
  }

  lemma {:induction false} NoLeftover(
      metadata: Metadata, tables: map<TableKey, Table>, prepared: seq<Intent>, later: nat -> Answers, key: TableKey)
    requires tables.Keys == metadata.Keys && key in metadata && FindIntent(prepared, key).None?
    ensures SettleLeftovers(metadata, tables, prepared, later, |prepared|).tables[key] == tables[key]
  {
    forall j | 0 <= j < |prepared|
      ensures prepared[j].key != key
    {
      assert prepared[j] in prepared;
    }
    LeftoversSkip(metadata, tables, prepared, later, |prepared|, key);
  }

  lemma TracesAgree(
      t: Table, p: Option<Intent>, m: Option<nat>, records: seq<Record>, prepared: seq<Intent>,
      outcomes: seq<Outcome>, env: nat -> Answers, later: nat -> Answers, checkpoint: nat, landed: bool)
    requires |outcomes| <= |records| && (m.None? <==> p.None?)
    requires m.Some? ==> m.value < |prepared| && p == Some(prepared[m.value])
    requires m.None? ==> Traced(t, None, checkpoint, Some(landed), None)
    requires m.Some? ==>
               var resolved := ResolvedSoFar(records, p, env, outcomes);
               Traced(t, p, checkpoint, Some(landed),
                      Some(if resolved.Some? then resolved.value else later(m.value).resolve))
    ensures Traced(t, p, checkpoint, Some(landed),
                   if m.Some? then Some(FinalAnswer(records, prepared, outcomes, env, later, m.value)) else None)
  {
  }

  lemma {:induction false} FinalTrace(
      cfg: Config, metadata: Metadata, records: seq<Record>, prepared: seq<Intent>, index: map<string, TableIndex>,
      env: nat -> Answers, later: nat -> Answers, key: TableKey, landed: bool)
    requires PlanOrdered(records) && SidecarsValid(prepared) && key in metadata
    requires Recover(cfg, metadata, records, prepared, index, env, later).1.Some?
    requires LandedSoFar(records, metadata[key], key, env, |records|) == Some(landed)
    ensures var (s, outcomes) := Recover(cfg, metadata, records, prepared, index, env, later);
            && |outcomes.value| == |records| && key in s.tables
            && var m := IntentIndex(prepared, key);
               Traced(s.tables[key], FindIntent(prepared, key), CheckpointValue(metadata[key]), Some(landed),
                      if m.Some? then Some(FinalAnswer(records, prepared, outcomes.value, env, later, m.value))
                      else None)
  {
    var s := Turns(cfg, metadata, records, env, Start(metadata, prepared, index), |records|);
    TurnsTraced(cfg, metadata, records, prepared, env, index, key, |records|);
    TurnsKeepTables(cfg, metadata, records, prepared, env, index, |records|);
    var done := Done(records, s.outcomes, key);
    assert TableOk(s.tables[key], done);
    var m, p := IntentIndex(prepared, key), FindIntent(prepared, key);
    var t := Recover(cfg, metadata, records, prepared, index, env, later).0.tables[key];
    if m.None? {
      NoLeftover(metadata, s.tables, prepared, later, key);
    } else {
      LeftoversTraced(metadata, s.tables, prepared, later, key, done, landed,
                      ResolvedSoFar(records, p, env, s.outcomes), m.value);
    }
    TracesAgree(t, p, m, records, prepared, s.outcomes, env, later, CheckpointValue(metadata[key]), landed);
  }

  /** After a successful recovery a replayed record is in exactly one place, the buffer
      or one append of the catalog, if and only if nothing doubles it: it lies in no
      intent's range, or its intent had not landed when the buffer was loaded and was
      not contained while the catalog had it. */
  lemma ExactlyOnceIffNotDoubled(
      cfg: Config, load: string -> Load, metadata: Metadata, records: seq<Record>, prepared: seq<Intent>,
      index: map<string, TableIndex>, env: nat -> Answers, later: nat -> Answers, i: nat)
    requires Inputs(cfg, metadata, load, records, prepared) && i < |records|
    requires var result := Recover(cfg, metadata, records, prepared, index, env, later).1;
             result.Some? && |result.value| == |records| && result.value[i].Replayed?
    ensures var (s, result) := Recover(cfg, metadata, records, prepared, index, env, later);
            && records[i].key in s.tables && records[i].key in metadata
            && (ExactlyOnce(s.tables[records[i].key], records[i]) <==>
                !Doubles(metadata, records, prepared, result.value, env, later, records[i]))
  {
    var t, done := FinalTableOf(cfg, load, metadata, records, prepared, index, env, later, i);
    var r := records[i];
    var outcomes := Recover(cfg, metadata, records, prepared, index, env, later).1.value;
    NoLoadTurn(records, metadata[r.key], r.key, |records|);
    var landed := LandedSoFar(records, metadata[r.key], r.key, env, |records|).value;
    FinalTrace(cfg, metadata, records, prepared, index, env, later, r.key, landed);
    var m := IntentIndex(prepared, r.key);
    TraceTellsPlace(t, done, r, FindIntent(prepared, r.key), CheckpointValue(metadata[r.key]), landed,
                    if m.Some? then FinalAnswer(records, prepared, outcomes, env, later, m.value) else Invalid);
  }

  // ----- Two recoveries that leave a record in both places -----

  const KEY := TableKey(1, "t")
  const RECORD := Record(KEY, 0, 1, None, 1, 1)
  const INTENT := Intent(KEY, GenerationRange(1, 1), 5)
  const UNCHECKPOINTED: Metadata := map[KEY := None]

  function Always(a: Answers): nat -> Answers {
    _ => a
  }

  const PREPARED_TABLE := Table(None, Some(INTENT), Some(INTENT), None, [], [])

  lemma StartOfOne()
    ensures Start(UNCHECKPOINTED, [INTENT], map[]) == State(map[KEY := PREPARED_TABLE], map[], [], false)
  {
    assert FindIntent([INTENT], KEY) == Some(INTENT);
  }

  lemma TurnOfOne(cfg: Config, a: Answers, t: Table)
    requires Handle(cfg, None, PREPARED_TABLE, EMPTY_INDEX, RECORD, a) == Handled(t, EMPTY_INDEX, Some(Replayed))
    ensures Turn(cfg, UNCHECKPOINTED, State(map[KEY := PREPARED_TABLE], map[], [], false), RECORD, a)
         == State(map[KEY := t], map[], [Replayed], false)
  {
    assert IndexIn(map[], "t") == EMPTY_INDEX;
    assert map[KEY := PREPARED_TABLE][KEY := t] == map[KEY := t];
  }

  lemma {:induction false} OneRecordTurns(cfg: Config, a: Answers, start: State)
    requires start.tables.Keys == UNCHECKPOINTED.Keys && !start.failed
    ensures Turns(cfg, UNCHECKPOINTED, [RECORD], Always(a), start, 1) == Turn(cfg, UNCHECKPOINTED, start, RECORD, a)
  {
    assert Turns(cfg, UNCHECKPOINTED, [RECORD], Always(a), start, 0) == start;
  }

  lemma {:induction false} OneSettledLeftover(tables: map<TableKey, Table>, later: nat -> Answers)
    requires tables.Keys == UNCHECKPOINTED.Keys && tables[KEY].unresolved.None?
    ensures SettleLeftovers(UNCHECKPOINTED, tables, [INTENT], later, 1) == Leftovers(tables, true)
  {
    assert SettleLeftovers(UNCHECKPOINTED, tables, [INTENT], later, 0) == Leftovers(tables, true);
  }

  /** A recovery of one record with one intent, if the loop ends as given. */
  lemma OneRecordRecovery(cfg: Config, a: Answers, t: Table)
    requires Handle(cfg, None, PREPARED_TABLE, EMPTY_INDEX, RECORD, a)
             == Handled(t, EMPTY_INDEX, Some(Replayed))
    requires t.unresolved.None?
    ensures Recover(cfg, UNCHECKPOINTED, [RECORD], [INTENT], map[], Always(a), Always(a))
            == (State(map[KEY := t], map[], [Replayed], false), Some([Replayed]))
  {
    StartOfOne();
    TurnOfOne(cfg, a, t);
    OneRecordTurns(cfg, a, Start(UNCHECKPOINTED, [INTENT], map[]));
    OneSettledLeftover(map[KEY := t], Always(a));
  }

  /** The intent lands between the reads and is then found published: the record is in
      the buffer's pending rows and in the catalog, and recovery succeeds. */
  lemma LandingDoubles() returns (cfg: Config, a: Answers)
    ensures a.landed && a.resolve == Proven(true)
    ensures var (s, result) := Recover(cfg, UNCHECKPOINTED, [RECORD], [INTENT], map[], Always(a), Always(a));
            && result == Some([Replayed]) && KEY in s.tables
            && s.tables[KEY].buffer.Some? && s.tables[KEY].buffer.value.pending == [RECORD]
            && InBoth(s.tables[KEY], RECORD) && !ExactlyOnce(s.tables[KEY], RECORD)
  {
    cfg := Config(1, 10, false, 1);
    a := Answers(true, true, 0, {}, WriteFails, Proven(true));
    var t := Table(Some(Buffer([RECORD], [], 1, Idle)), None, None, None, [Append(INTENT.gens, [])], []);
    LandingTurn(cfg, a);
    OneRecordRecovery(cfg, a, t);
    assert Buffered(t) == [RECORD] && multiset([RECORD])[RECORD] == 1;
    assert CoversAlone(t.published, 0, RECORD);
    assert t.published[0] in t.published && Contains(t.published[0].gens, RECORD.generation);
  }

  lemma LandingTurn(cfg: Config, a: Answers)
    requires cfg.maxBytes == 10 && a.landed && a.loads && a.resolve == Proven(true)
    ensures Handle(cfg, None, PREPARED_TABLE, EMPTY_INDEX, RECORD, a)
            == Handled(Table(Some(Buffer([RECORD], [], 1, Idle)), None, None, None, [Append(INTENT.gens, [])], []),
                       EMPTY_INDEX, Some(Replayed))
  {
    var t := PREPARED_TABLE;
    var loaded := LoadBuffer(t, 0, true);
    assert loaded == Table(Some(Buffer([], [], 1, Idle)), Some(INTENT), Some(INTENT), Some(INTENT), [], []);
    var inserted := loaded.(buffer := Some(Buffer([RECORD], [], 1, Idle)));
    assert [] + [RECORD] == [RECORD];
    assert InsertOrFlush(cfg, loaded, RECORD, a.flush) == (inserted, true);
    assert Restore(inserted.buffer.value, INTENT) == Some(Buffer([RECORD], [], 1, Prepared(INTENT)));
    assert [] + [Append(INTENT.gens, [])] == [Append(INTENT.gens, [])];
    assert ResolveIfReached(inserted, RECORD, a.resolve)
        == (Table(Some(Buffer([RECORD], [], 1, Idle)), None, None, None, [Append(INTENT.gens, [])], []), true);
  }

  /** Recovery's own retry publishes and loses the reply: the record is in flight in the
      blocked buffer and in the catalog, and recovery succeeds. */
  lemma LostReplyDoubles() returns (cfg: Config, a: Answers)
    ensures !a.landed && a.resolve == Contained(true)
    ensures var (s, result) := Recover(cfg, UNCHECKPOINTED, [RECORD], [INTENT], map[], Always(a), Always(a));
            && result == Some([Replayed]) && KEY in s.tables
            && s.tables[KEY].buffer.Some? && s.tables[KEY].buffer.value.inFlight == [RECORD]
            && s.tables[KEY].published == [] && InBoth(s.tables[KEY], RECORD) && !ExactlyOnce(s.tables[KEY], RECORD)
  {
    cfg := Config(1, 10, false, 1);
    a := Answers(true, false, 0, {}, WriteFails, Contained(true));
    var t := Table(Some(Buffer([], [RECORD], 0, Blocked(INTENT))), Some(INTENT), None, Some(INTENT), [], []);
    LostReplyTurn(cfg, a);
    OneRecordRecovery(cfg, a, t);
    assert Buffered(t) == [RECORD] && multiset([RECORD])[RECORD] == 1;
  }

  lemma LostReplyTurn(cfg: Config, a: Answers)
    requires cfg.maxBytes == 10 && !a.landed && a.loads && a.resolve == Contained(true)
    ensures Handle(cfg, None, PREPARED_TABLE, EMPTY_INDEX, RECORD, a)
            == Handled(Table(Some(Buffer([], [RECORD], 0, Blocked(INTENT))), Some(INTENT), None, Some(INTENT), [], []),
                       EMPTY_INDEX, Some(Replayed))
  {
    var t := PREPARED_TABLE;
    var loaded := LoadBuffer(t, 0, false);
    assert loaded == Table(Some(Buffer([], [], 0, Idle)), Some(INTENT), Some(INTENT), None, [], []);
    var inserted := loaded.(buffer := Some(Buffer([RECORD], [], 0, Idle)));
    assert [] + [RECORD] == [RECORD];
    assert InsertOrFlush(cfg, loaded, RECORD, a.flush) == (inserted, true);
    assert [RECORD][..0] == [] && Split([], INTENT.gens, true) == [] && Split([], INTENT.gens, false) == [];
    assert Split([RECORD], INTENT.gens, true) == [RECORD] && Split([RECORD], INTENT.gens, false) == [];
    assert RangeOf([RECORD]) == INTENT.gens;
    assert Restore(inserted.buffer.value, INTENT) == Some(Buffer([], [RECORD], 0, Prepared(INTENT)));
    assert ResolveIfReached(inserted, RECORD, a.resolve)
        == (Table(Some(Buffer([], [RECORD], 0, Blocked(INTENT))), Some(INTENT), None, Some(INTENT), [], []), true);
  }
}
