/**
When recovery gets through. A table without an unresolved intent makes room for the next
record by flushing what came before it, so a log larger than the buffer is recovered as
long as every record fits alone and the flushes publish
(`replay_wal_inner` in crates/teodb-ingest/src/replay.rs).
*/
module RecoveryProgress {
  import opened Wrappers
  import opened WriteProtocol
  import opened Idempotency
  import opened TableRecovery
  import opened Replay
  import opened Recovery
  import opened RecoveryRun
  import opened RecoveryPlaces
  import opened RecoveryRoom

  // ----- One record -----

  ghost predicate FitsBeside(cfg: Config, t: Table, r: Record) {
    Bytes(Buffered(t)) + r.bytes <= cfg.maxBytes
  }

  /** Without an intent a record is admitted if and only if its generation is usable and
      it fits beside what is buffered, or there is a flusher, the flush commits and the
      record alone fits. */
  lemma AdmittedWithoutIntent(cfg: Config, t: Table, r: Record, a: FlushAnswer)
    requires t.buffer.Some? && Settled(t) && t.unresolved.None?
    ensures InsertOrFlush(cfg, t, r, a).1 <==>
            && r.generation != 0 && r.generation != GENERATION_MAX
            && (|| FitsBeside(cfg, t, r)
                || (cfg.hasFlusher && FlushCommits(t, r.key, a) && r.bytes <= cfg.maxBytes))
  {
    var b := t.buffer.value;
    BytesConcat(b.inFlight, b.pending);
    CommittedFlush(t, r.key, a);
    if !Fits(b, r, cfg.maxBytes) && FlushCommits(t, r.key, a) {
      assert Bytes([]) == 0;
    }
  }

  lemma AdmittedAtOnce(cfg: Config, t: Table, r: Record, a: FlushAnswer)
    requires t.buffer.Some? && InsertOrFlush(cfg, t, r, a).1 && FitsBeside(cfg, t, r)
    ensures InsertOrFlush(cfg, t, r, a).0
         == t.(buffer := Some(t.buffer.value.(pending := t.buffer.value.pending + [r])))
  {
    BytesConcat(t.buffer.value.inFlight, t.buffer.value.pending);
  }

  lemma AdmittedAfterFlush(cfg: Config, t: Table, r: Record, a: FlushAnswer)
    requires t.buffer.Some? && Settled(t) && t.unresolved.None? && InsertOrFlush(cfg, t, r, a).1
    requires !FitsBeside(cfg, t, r)
    ensures var t', b := InsertOrFlush(cfg, t, r, a).0, t.buffer.value;
            && b.pending != [] && t'.published == t.published + [Append(RangeOf(b.pending), b.pending)]
            && t'.buffer == Some(Buffer([r], [], RangeOf(b.pending).hi, Idle))
            && t'.sidecar == Flush(t, r.key, a).0.sidecar
  {
    BytesConcat(t.buffer.value.inFlight, t.buffer.value.pending);
    CommittedFlush(t, r.key, a);
    var flushed := Flush(t, r.key, a).0;
    assert InsertOrFlush(cfg, t, r, a).0 == Insert(flushed, r);
    assert [] + [r] == [r];
  }

  /** It is then pending: after everything pending before, or alone, with everything
      pending before in one new append. */
  lemma AdmittedIsPending(cfg: Config, t: Table, r: Record, a: FlushAnswer)
    requires t.buffer.Some? && Settled(t) && t.unresolved.None? && InsertOrFlush(cfg, t, r, a).1
    ensures var t', b := InsertOrFlush(cfg, t, r, a).0, t.buffer.value;
            if FitsBeside(cfg, t, r)
            then t' == t.(buffer := Some(b.(pending := b.pending + [r])))
            else
              && b.pending != [] && t'.published == t.published + [Append(RangeOf(b.pending), b.pending)]
              && t'.buffer == Some(Buffer([r], [], RangeOf(b.pending).hi, Idle))
  {
    if FitsBeside(cfg, t, r) {
      AdmittedAtOnce(cfg, t, r, a);
    } else {
      AdmittedAfterFlush(cfg, t, r, a);
    }
  }

  // ----- A table without sidecar -----

  /** Idle, no sidecar, and what is pending lies above the high-water mark and not above
      the generations handled so far. */
  ghost predicate Smooth(t: Table, checkpoint: nat, bound: nat) {
    && t.unresolved.None? && t.sidecar.None?
    && (t.buffer.Some? ==>
          var b := t.buffer.value;
          && b.flush.Idle? && b.inFlight == [] && (b.highWater <= checkpoint || b.highWater <= bound)
          && forall r | r in b.pending :: b.highWater < r.generation <= bound)
  }

  ghost predicate Publishing(a: Answers) {
    a.loads && a.flush.Commits? && a.flush.answer == Publishes(true)
  }

  lemma LoadIsSmooth(t: Table, checkpoint: nat, bound: nat, landed: bool)
    requires Smooth(t, checkpoint, bound)
    ensures Smooth(LoadBuffer(t, checkpoint, landed), checkpoint, bound)
  {
  }

  lemma SmoothFlushCommits(t: Table, checkpoint: nat, bound: nat, key: TableKey, a: FlushAnswer)
    requires Smooth(t, checkpoint, bound) && t.buffer.Some? && t.buffer.value.pending != []
    requires a.Commits? && a.answer == Publishes(true)
    ensures FlushCommits(t, key, a) && Flush(t, key, a).0.sidecar.None?
    ensures RangeOf(t.buffer.value.pending).hi <= bound
  {
    RangeOfBounds(t.buffer.value.pending);
  }

  lemma SmoothInsert(cfg: Config, t: Table, checkpoint: nat, bound: nat, r: Record, a: FlushAnswer)
    requires Smooth(t, checkpoint, bound) && t.buffer.Some? && bound < r.generation && checkpoint < r.generation
    requires r.generation != GENERATION_MAX && cfg.hasFlusher && a.Commits? && a.answer == Publishes(true)
    ensures InsertOrFlush(cfg, t, r, a).1 <==> r.bytes <= cfg.maxBytes
    ensures InsertOrFlush(cfg, t, r, a).1 ==> Smooth(InsertOrFlush(cfg, t, r, a).0, checkpoint, r.generation)
  {
    var b := t.buffer.value;
    AdmittedWithoutIntent(cfg, t, r, a);
    if b.pending == [] {
      assert Buffered(t) == [];
    } else {
      SmoothFlushCommits(t, checkpoint, bound, r.key, a);
    }
    if InsertOrFlush(cfg, t, r, a).1 {
      SmoothAfter(cfg, t, checkpoint, bound, r, a);
    }
  }

  lemma SmoothAfter(cfg: Config, t: Table, checkpoint: nat, bound: nat, r: Record, a: FlushAnswer)
    requires Smooth(t, checkpoint, bound) && t.buffer.Some? && bound < r.generation && checkpoint < r.generation
    requires a.Commits? && a.answer == Publishes(true) && InsertOrFlush(cfg, t, r, a).1
    ensures Smooth(InsertOrFlush(cfg, t, r, a).0, checkpoint, r.generation)
  {
    if FitsBeside(cfg, t, r) {
      AdmittedAtOnce(cfg, t, r, a);
    } else {
      AdmittedAfterFlush(cfg, t, r, a);
      SmoothFlushCommits(t, checkpoint, bound, r.key, a);
    }
  }

  /** A record of such a table fails recovery if and only if it comes to admission and is
      larger than the buffer. */
  lemma SmoothHandle(
      cfg: Config, checkpoint: Option<nat>, t: Table, index: TableIndex, r: Record, a: Answers, bound: nat)
    requires Smooth(t, CheckpointValue(checkpoint), bound) && bound < r.generation != GENERATION_MAX
    requires cfg.hasFlusher && Publishing(a)
    ensures var h := Handle(cfg, checkpoint, t, index, r, a);
            && (h.outcome.None? <==> ComesToAdmission(cfg, checkpoint, t, index, r, a) && r.bytes > cfg.maxBytes)
            && (h.outcome.Some? ==> Smooth(h.table, CheckpointValue(checkpoint), r.generation))
  {
    var loaded := LoadBuffer(t, CheckpointValue(checkpoint), a.landed);
    LoadIsSmooth(t, CheckpointValue(checkpoint), bound, a.landed);
    if !CoveredBy(checkpoint, r) {
      SmoothInsert(cfg, loaded, CheckpointValue(checkpoint), bound, r, a.flush);
    }
  }

  // ----- Whole logs -----

  /** The generation of the table's last record among the first `n`. */
  function LastGeneration(records: seq<Record>, key: TableKey, n: nat): nat
    requires n <= |records|
  {
    if n == 0 then 0
    else if records[n - 1].key == key then records[n - 1].generation
    else LastGeneration(records, key, n - 1)
  }

  lemma {:induction false} LastIsBelow(records: seq<Record>, n: nat, m: nat)
    requires PlanOrdered(records) && n <= m < |records| && records[m].generation != 0
    ensures LastGeneration(records, records[m].key, n) < records[m].generation
  {
    if n > 0 && records[n - 1].key != records[m].key {
      LastIsBelow(records, n - 1, m);
    }
  }

  ghost predicate AllSmooth(metadata: Metadata, records: seq<Record>, s: State) {
    && |s.outcomes| <= |records| && !s.failed
    && forall k | k in s.tables && k in metadata ::
         Smooth(s.tables[k], CheckpointValue(metadata[k]), LastGeneration(records, k, |s.outcomes|))
  }

  /** Every record of a surviving table has a usable generation. */
  ghost predicate Usable(records: seq<Record>) {
    forall i | 0 <= i < |records| :: records[i].generation != 0 && records[i].generation != GENERATION_MAX
  }

  /** The next record of a table, by the outcome of its turn. */
  lemma OwnSmoothTurn(cfg: Config, metadata: Metadata, records: seq<Record>, s: State, a: Answers)
    requires PlanOrdered(records) && Usable(records) && cfg.hasFlusher && Publishing(a)
    requires s.tables.Keys == metadata.Keys && |s.outcomes| < |records| && AllSmooth(metadata, records, s)
    requires records[|s.outcomes|].key in metadata
    ensures var r := records[|s.outcomes|];
            var own := IndexIn(s.index, r.key.ident);
            var h := Handle(cfg, metadata[r.key], s.tables[r.key], own, r, a);
            && (h.outcome.None? <==>
                ComesToAdmission(cfg, metadata[r.key], s.tables[r.key], own, r, a) && r.bytes > cfg.maxBytes)
            && (h.outcome.Some? ==> Smooth(h.table, CheckpointValue(metadata[r.key]), r.generation))
  {
    var n, r := |s.outcomes|, records[|s.outcomes|];
    LastIsBelow(records, n, n);
    SmoothHandle(cfg, metadata[r.key], s.tables[r.key], IndexIn(s.index, r.key.ident), r, a,
                 LastGeneration(records, r.key, n));
  }

  lemma TablesStaySmooth(metadata: Metadata, records: seq<Record>, s: State, s': State)
    requires |s.outcomes| < |records| && AllSmooth(metadata, records, s)
    requires !s'.failed && |s'.outcomes| == |s.outcomes| + 1
    requires forall k | k in s'.tables && k in metadata && k != records[|s.outcomes|].key ::
               k in s.tables && s'.tables[k] == s.tables[k]
    requires var r := records[|s.outcomes|];
             r.key in s'.tables && r.key in metadata ==>
             Smooth(s'.tables[r.key], CheckpointValue(metadata[r.key]), r.generation)
    ensures AllSmooth(metadata, records, s')
  {
    forall k | k in s'.tables && k in metadata
      ensures Smooth(s'.tables[k], CheckpointValue(metadata[k]), LastGeneration(records, k, |s'.outcomes|))
    {
    }
  }

  lemma SmoothTurn(cfg: Config, metadata: Metadata, records: seq<Record>, s: State, a: Answers)
    requires PlanOrdered(records) && Usable(records) && cfg.hasFlusher && Publishing(a)
    requires s.tables.Keys == metadata.Keys && |s.outcomes| < |records| && AllSmooth(metadata, records, s)
    ensures var r := records[|s.outcomes|];
            var s' := Turn(cfg, metadata, s, r, a);
            && (s'.failed <==>
                && r.key in metadata && r.bytes > cfg.maxBytes
                && ComesToAdmission(cfg, metadata[r.key], s.tables[r.key], IndexIn(s.index, r.key.ident), r, a))
            && (!s'.failed ==> AllSmooth(metadata, records, s'))
  {
    var r := records[|s.outcomes|];
    var s' := Turn(cfg, metadata, s, r, a);
    if r.key in metadata {
      OwnSmoothTurn(cfg, metadata, records, s, a);
    }
    if !s'.failed {
      TablesStaySmooth(metadata, records, s, s');
    }
  }

  /** The record's table is there and its checkpoint does not cover the record. */
  ghost predicate Needed(metadata: Metadata, r: Record) {
    r.key in metadata && !CoveredBy(metadata[r.key], r)
  }

  ghost predicate NeededFit(cfg: Config, metadata: Metadata, records: seq<Record>) {
    forall i | 0 <= i < |records| && Needed(metadata, records[i]) :: records[i].bytes <= cfg.maxBytes
  }

  /** A log without sidecars is recovered if every record that is needed fits into the
      buffer alone and every flush publishes, however large the log is. */
  lemma {:induction false} LargeLogRecovers(
      cfg: Config, metadata: Metadata, records: seq<Record>, index: map<string, TableIndex>, env: nat -> Answers,
      later: nat -> Answers)
    requires PlanOrdered(records) && Usable(records) && NeededFit(cfg, metadata, records) && cfg.hasFlusher
    requires forall i | 0 <= i < |records| :: Publishing(env(i))
    ensures Recover(cfg, metadata, records, [], index, env, later).1.Some?
  {
    var start := Start(metadata, [], index);
    var inv := (s: State) => AllSmooth(metadata, records, s);
    forall i, s: State | 0 <= i < |records| && s.tables.Keys == metadata.Keys && |s.outcomes| == i && inv(s)
      ensures var s' := Turn(cfg, metadata, s, records[i], env(i));
              if s'.failed then false else inv(s')
    {
      SmoothTurn(cfg, metadata, records, s, env(i));
    }
    TurnsKeep(cfg, metadata, records, env, start, |records|, inv, _ => false);
  }

  lemma {:induction false} TurnsStaySmooth(
      cfg: Config, metadata: Metadata, records: seq<Record>, index: map<string, TableIndex>, env: nat -> Answers,
      n: nat)
    requires PlanOrdered(records) && Usable(records) && cfg.hasFlusher && n <= |records|
    requires forall i | 0 <= i < |records| :: Publishing(env(i))
    ensures var s := Turns(cfg, metadata, records, env, Start(metadata, [], index), n);
            s.failed || (|s.outcomes| == n && AllSmooth(metadata, records, s))
  {
    var start := Start(metadata, [], index);
    var inv := (s: State) => AllSmooth(metadata, records, s);
    forall i, s: State | 0 <= i < |records| && s.tables.Keys == metadata.Keys && |s.outcomes| == i && inv(s)
      ensures var s' := Turn(cfg, metadata, s, records[i], env(i));
              if s'.failed then true else inv(s')
    {
      SmoothTurn(cfg, metadata, records, s, env(i));
    }
    TurnsKeep(cfg, metadata, records, env, start, n, inv, _ => true);
  }

  lemma HugeTurnFails(cfg: Config, metadata: Metadata, records: seq<Record>, s: State, a: Answers)
    requires PlanOrdered(records) && Usable(records) && cfg.hasFlusher && Publishing(a)
    requires s.tables.Keys == metadata.Keys && |s.outcomes| < |records| && AllSmooth(metadata, records, s)
    requires var r := records[|s.outcomes|]; Needed(metadata, r) && r.bytes > cfg.maxBytes && r.idem.None?
    ensures Turn(cfg, metadata, s, records[|s.outcomes|], a).failed
  {
    SmoothTurn(cfg, metadata, records, s, a);
  }

  lemma HugeAtTurn(
      cfg: Config, metadata: Metadata, records: seq<Record>, env: nat -> Answers, start: State, n: nat, s: State)
    requires PlanOrdered(records) && Usable(records) && cfg.hasFlusher && 0 < n <= |records| && Publishing(env(n - 1))
    requires start.tables.Keys == metadata.Keys && s == Turns(cfg, metadata, records, env, start, n - 1)
    requires s.failed || (|s.outcomes| == n - 1 && AllSmooth(metadata, records, s))
    requires var r := records[n - 1]; Needed(metadata, r) && r.bytes > cfg.maxBytes && r.idem.None?
    ensures Turns(cfg, metadata, records, env, start, |records|).failed
  {
    if s.failed {
      FailureIsFinal(cfg, metadata, records, env, start, n - 1, |records|);
    } else {
      HugeTurnFails(cfg, metadata, records, s, env(n - 1));
      FailedTurn(cfg, metadata, records, env, start, n);
    }
  }

  /** A record without an idempotency key that is needed and larger than the buffer fails
      recovery. */
  lemma {:induction false} HugeRecordFails(
      cfg: Config, metadata: Metadata, records: seq<Record>, index: map<string, TableIndex>, env: nat -> Answers,
      later: nat -> Answers, n: nat)
    requires PlanOrdered(records) && Usable(records) && cfg.hasFlusher && 0 < n <= |records|
    requires forall j | 0 <= j < |records| :: Publishing(env(j))
    requires var r := records[n - 1]; Needed(metadata, r) && r.bytes > cfg.maxBytes && r.idem.None?
    ensures Recover(cfg, metadata, records, [], index, env, later).1.None?
  {
    var start := Start(metadata, [], index);
    TurnsStaySmooth(cfg, metadata, records, index, env, n - 1);
    HugeAtTurn(cfg, metadata, records, env, start, n, Turns(cfg, metadata, records, env, start, n - 1));
  }

  /** For a log without sidecars and without idempotency keys: if the flushes publish,
      recovery succeeds if and only if every record that is needed fits alone. */
  lemma RecoversIffNeededFit(
      cfg: Config, metadata: Metadata, records: seq<Record>, index: map<string, TableIndex>, env: nat -> Answers,
      later: nat -> Answers)
    requires PlanOrdered(records) && Usable(records) && cfg.hasFlusher
    requires forall i | 0 <= i < |records| :: Publishing(env(i)) && records[i].idem.None?
    ensures Recover(cfg, metadata, records, [], index, env, later).1.Some? <==> NeededFit(cfg, metadata, records)
  {
    if NeededFit(cfg, metadata, records) {
      LargeLogRecovers(cfg, metadata, records, index, env, later);
    } else {
      var i :| 0 <= i < |records| && Needed(metadata, records[i]) && records[i].bytes > cfg.maxBytes;
      HugeRecordFails(cfg, metadata, records, index, env, later, i + 1);
    }
  }

  // ----- Two records that do not fit together -----

  const LATER := Record(KEY, 1, 2, None, 1, 6)
  const COMMITS := Answers(true, false, 0, {}, Commits(5, Publishes(true)), Invalid)

  lemma TwoTurns()
    ensures Handle(TEN_BYTES, None, Table(None, None, None, None, [], []), EMPTY_INDEX, EARLIER, COMMITS)
         == Handled(Table(Some(Buffer([EARLIER], [], 0, Idle)), None, None, None, [], []), EMPTY_INDEX, Some(Replayed))
    ensures var h := Handle(TEN_BYTES, None, Table(Some(Buffer([EARLIER], [], 0, Idle)), None, None, None, [], []),
                            EMPTY_INDEX, LATER, COMMITS);
            && h.outcome == Some(Replayed) && h.index == EMPTY_INDEX
            && h.table.buffer == Some(Buffer([LATER], [], 1, Idle))
            && h.table.published == [Append(GenerationRange(1, 1), [EARLIER])]
  {
    assert Bytes([]) == 0 && [] + [EARLIER] == [EARLIER];
    var t := Table(Some(Buffer([EARLIER], [], 0, Idle)), None, None, None, [], []);
    assert [EARLIER][..0] == [] && Bytes([EARLIER]) == 6 && Buffered(t) == [EARLIER];
    AdmittedWithoutIntent(TEN_BYTES, t, LATER, COMMITS.flush);
    AdmittedIsPending(TEN_BYTES, t, LATER, COMMITS.flush);
  }

  /** Two records of six bytes and a buffer of ten: the first is flushed to make room for
      the second. */
  lemma {:induction false} TwoRecordsRecover(later: nat -> Answers)
    ensures var (s, result) := Recover(TEN_BYTES, UNCHECKPOINTED, [EARLIER, LATER], [], map[], Always(COMMITS), later);
            && result == Some([Replayed, Replayed]) && KEY in s.tables
            && s.tables[KEY].buffer == Some(Buffer([LATER], [], 1, Idle))
            && s.tables[KEY].published == [Append(GenerationRange(1, 1), [EARLIER])]
  {
    var records, start := [EARLIER, LATER], Start(UNCHECKPOINTED, [], map[]);
    TwoTurns();
    assert start.tables[KEY] == Table(None, None, None, None, [], []) && IndexIn(map[], "t") == EMPTY_INDEX;
    var s1 := Turns(TEN_BYTES, UNCHECKPOINTED, records, Always(COMMITS), start, 1);
    LastTurn(TEN_BYTES, UNCHECKPOINTED, records, Always(COMMITS), start, 1);
    assert s1.outcomes == [Replayed] && s1.index == map[] && !s1.failed;
    LastTurn(TEN_BYTES, UNCHECKPOINTED, records, Always(COMMITS), start, 2);
    var s2 := Turns(TEN_BYTES, UNCHECKPOINTED, records, Always(COMMITS), start, 2);
    assert s2.outcomes == [Replayed, Replayed] && !s2.failed;
    assert SettleLeftovers(UNCHECKPOINTED, s2.tables, [], later, 0) == Leftovers(s2.tables, true);
  }
}
