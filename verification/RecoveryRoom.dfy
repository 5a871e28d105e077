/**
Why recovery can run out of buffer space. While a table has an unresolved intent no
flush makes room, so everything replayed to the table up to the end of the intent's
range has to fit into the buffer at once, the records below the range included
(`replay_wal_inner` in crates/teodb-ingest/src/replay.rs).
*/
module RecoveryRoom {
  import opened Wrappers
  import opened WriteProtocol
  import opened Idempotency
  import opened TableRecovery
  import opened Replay
  import opened Recovery
  import opened RecoveryRun
  import opened RecoveryPlaces

  lemma {:induction false} BytesConcat(s: seq<Record>, s': seq<Record>)
    ensures Bytes(s + s') == Bytes(s) + Bytes(s')
  {
    if s' == [] {
      assert s + s' == s;
    } else {
      assert (s + s')[..|s + s'| - 1] == s + s'[..|s'| - 1];
      BytesConcat(s, s'[..|s'| - 1]);
    }
  }

  lemma WithoutOne(s: seq<Record>, i: nat) returns (rest: seq<Record>)
    requires i < |s|
    ensures |rest| == |s| - 1 && multiset(s) == multiset(rest) + multiset{s[i]}
    ensures Bytes(s) == Bytes(rest) + s[i].bytes
  {
    rest := s[..i] + s[i + 1..];
    assert s == s[..i] + [s[i]] + s[i + 1..];
    BytesConcat(s[..i], s[i + 1..]);
    BytesConcat(s[..i], [s[i]]);
    BytesConcat(s[..i] + [s[i]], s[i + 1..]);
    assert [s[i]][..0] == [] && Bytes([s[i]]) == s[i].bytes;
  }

  lemma SameRest(a: multiset<Record>, b: multiset<Record>, x: Record)
    requires a + multiset{x} == b + multiset{x}
    ensures a == b
  {
    forall y
      ensures a[y] == b[y]
    {
      assert (a + multiset{x})[y] == (b + multiset{x})[y];
    }
  }

  lemma {:induction false} BytesOfSame(s: seq<Record>, s': seq<Record>)
    requires multiset(s) == multiset(s')
    ensures Bytes(s) == Bytes(s')
    decreases |s|
  {
    if s == [] {
      assert |multiset(s')| == 0;
    } else {
      var x := s[|s| - 1];
      assert x in multiset(s');
      var i :| 0 <= i < |s'| && s'[i] == x;
      var rest := WithoutOne(s, |s| - 1);
      var rest' := WithoutOne(s', i);
      SameRest(multiset(rest), multiset(rest'), x);
      BytesOfSame(rest, rest');
    }
  }

  /** A table with an unresolved intent still buffers everything replayed to it. */
  lemma PendingIsDone(t: Table, done: seq<Record>)
    requires TableInv(t, done) && t.buffer.Some? && t.unresolved.Some?
    ensures multiset(t.buffer.value.pending) == multiset(done) && t.buffer.value.inFlight == []
  {
    assert Given(t.published) == [];
    assert Buffered(t) == t.buffer.value.pending;
  }

  lemma {:induction false} EverythingIsBuffered(t: Table, done: seq<Record>)
    requires TableInv(t, done) && t.buffer.Some? && t.unresolved.Some?
    ensures Bytes(t.buffer.value.pending) + Bytes(t.buffer.value.inFlight) == Bytes(done)
  {
    PendingIsDone(t, done);
    BytesOfSame(t.buffer.value.pending, done);
  }

  ghost predicate HasRoom(cfg: Config, done: seq<Record>, r: Record) {
    Bytes(done) + r.bytes <= cfg.maxBytes && UsableGeneration(r)
  }

  /** A record of a table with an unresolved intent is admitted if and only if it fits
      beside all records replayed to the table so far. */
  lemma AdmittedIfRoom(cfg: Config, t: Table, done: seq<Record>, r: Record, a: FlushAnswer)
    requires TableInv(t, done) && t.buffer.Some? && t.unresolved.Some? && IntentWellFormed(t) && Follows(done, r)
    ensures InsertOrFlush(cfg, t, r, a).1 <==> HasRoom(cfg, done, r)
  {
    AdmittedIfItFits(cfg, t, done, r, a);
    EverythingIsBuffered(t, done);
  }

  /** The record is not covered, its buffer is there, and it is not a duplicate. */
  ghost predicate ComesToAdmission(
      cfg: Config, checkpoint: Option<nat>, t: Table, index: TableIndex, r: Record, a: Answers)
  {
    Claims(checkpoint, t, r, a) && ClaimOf(cfg, index, r, a.now).0.Acquired?
  }

  lemma HandleNeedsRoom(
      cfg: Config, checkpoint: Option<nat>, t: Table, index: TableIndex, r: Record, a: Answers, done: seq<Record>)
    requires TableOk(t, done) && Follows(done, r) && t.unresolved.Some?
    ensures Handle(cfg, checkpoint, t, index, r, a).outcome == Some(Replayed) ==> HasRoom(cfg, done, r)
    ensures ComesToAdmission(cfg, checkpoint, t, index, r, a) && !HasRoom(cfg, done, r)
            ==> Handle(cfg, checkpoint, t, index, r, a).outcome.None?
  {
    var loaded := LoadBuffer(t, CheckpointValue(checkpoint), a.landed);
    LoadKeepsInv(t, done, CheckpointValue(checkpoint), a.landed);
    AdmittedIfRoom(cfg, loaded, done, r, a.flush);
  }

  // ----- Whole recoveries -----

  /** At turn `n` the table's intent is unresolved, and its buffer is loaded unless this
      is the first record that is not covered. */
  lemma {:induction false} OpenAtTurn(
      cfg: Config, metadata: Metadata, records: seq<Record>, prepared: seq<Intent>, env: nat -> Answers,
      index: map<string, TableIndex>, key: TableKey, n: nat, s: State)
    requires PlanOrdered(records) && SidecarsValid(prepared) && key in metadata && n <= |records|
    requires s == Turns(cfg, metadata, records, env, Start(metadata, prepared, index), n)
    requires !s.failed && |s.outcomes| <= |records| && FindIntent(prepared, key).Some?
    requires ResolveTurn(records, FindIntent(prepared, key).value, s.outcomes).None?
    ensures |s.outcomes| == n && TableOk(s.tables[key], Done(records, s.outcomes, key))
    ensures s.tables[key].unresolved.Some?
    ensures s.tables[key].buffer.Some? <==> LoadTurn(records, metadata[key], key, n).Some?
  {
    TurnsTraced(cfg, metadata, records, prepared, env, index, key, n);
    TurnsKeepTables(cfg, metadata, records, prepared, env, index, n);
  }

  /** Every record replayed to the table before its intent was resolved had room. */
  ghost predicate RoomSoFar(cfg: Config, records: seq<Record>, p: Intent, outcomes: seq<Outcome>)
    requires |outcomes| <= |records|
  {
    forall i | 0 <= i < |outcomes| && records[i].key == p.key && outcomes[i].Replayed?
               && ResolveTurn(records, p, outcomes[..i]).None? ::
      HasRoom(cfg, Done(records, outcomes[..i], p.key), records[i])
  }

  lemma {:induction false} RoomNext(
      cfg: Config, records: seq<Record>, p: Intent, outcomes: seq<Outcome>, outcome: Outcome)
    requires |outcomes| < |records| && RoomSoFar(cfg, records, p, outcomes)
    requires records[|outcomes|].key == p.key && outcome.Replayed? && ResolveTurn(records, p, outcomes).None? ==>
               HasRoom(cfg, Done(records, outcomes, p.key), records[|outcomes|])
    ensures RoomSoFar(cfg, records, p, outcomes + [outcome])
  {
    var outcomes' := outcomes + [outcome];
    forall i | 0 <= i < |outcomes'| && records[i].key == p.key && outcomes'[i].Replayed?
               && ResolveTurn(records, p, outcomes'[..i]).None?
      ensures HasRoom(cfg, Done(records, outcomes'[..i], p.key), records[i])
    {
      assert outcomes'[..i] == outcomes[..i];
      assert outcomes[..|outcomes|] == outcomes;
    }
  }

  lemma {:induction false} OwnTurnHasRoom(
      cfg: Config, metadata: Metadata, records: seq<Record>, p: Intent, s: State, a: Answers, h: Handled)
    requires PlanOrdered(records) && s.tables.Keys == metadata.Keys && |s.outcomes| < |records|
    requires records[|s.outcomes|].key == p.key && p.key in metadata
    requires TableOk(s.tables[p.key], Done(records, s.outcomes, p.key))
    requires h == Handle(cfg, metadata[p.key], s.tables[p.key], IndexIn(s.index, p.key.ident), records[|s.outcomes|], a)
    requires h.outcome == Some(Replayed) && s.tables[p.key].unresolved.Some?
    ensures HasRoom(cfg, Done(records, s.outcomes, p.key), records[|s.outcomes|])
  {
    NextFollows(records, s.outcomes);
    HandleNeedsRoom(cfg, metadata[p.key], s.tables[p.key], IndexIn(s.index, p.key.ident), records[|s.outcomes|], a,
                    Done(records, s.outcomes, p.key));
  }

  lemma {:induction false} TurnHasRoom(
      cfg: Config, metadata: Metadata, records: seq<Record>, prepared: seq<Intent>, env: nat -> Answers, p: Intent,
      s: State, s': State)
    requires PlanOrdered(records) && s.tables.Keys == metadata.Keys && |s.outcomes| < |records|
    requires TablesOk(records, s.outcomes, s.tables) && FindIntent(prepared, p.key) == Some(p)
    requires TableTraced(metadata, records, prepared, env, p.key, s) && RoomSoFar(cfg, records, p, s.outcomes)
    requires s' == Turn(cfg, metadata, s, records[|s.outcomes|], env(|s.outcomes|)) && !s'.failed
    ensures |s'.outcomes| <= |records| && RoomSoFar(cfg, records, p, s'.outcomes)
  {
    var n := |s.outcomes|;
    if records[n].key == p.key {
      var h := OwnTurn(cfg, metadata, s, records[n], env(n));
      if h.outcome.value.Replayed? && ResolveTurn(records, p, s.outcomes).None? {
        assert TableOk(s.tables[p.key], Done(records, s.outcomes, p.key));
        OwnTurnHasRoom(cfg, metadata, records, p, s, env(n), h);
      }
      RoomNext(cfg, records, p, s.outcomes, h.outcome.value);
    } else {
      var outcome := OtherTurn(cfg, metadata, s, records[n], env(n), p.key);
      RoomNext(cfg, records, p, s.outcomes, outcome);
    }
  }

  ghost predicate RoomInv(
      cfg: Config, metadata: Metadata, records: seq<Record>, prepared: seq<Intent>, env: nat -> Answers, p: Intent,
      s: State)
  {
    && SoundTables(records, prepared, s) && AllBelow(s.tables)
    && TableTraced(metadata, records, prepared, env, p.key, s) && RoomSoFar(cfg, records, p, s.outcomes)
  }

  lemma {:induction false} StartHasRoom(
      cfg: Config, metadata: Metadata, records: seq<Record>, prepared: seq<Intent>, index: map<string, TableIndex>,
      env: nat -> Answers, p: Intent)
    requires SidecarsValid(prepared) && p.key in metadata
    ensures RoomInv(cfg, metadata, records, prepared, env, p, Start(metadata, prepared, index))
  {
    StartIsOk(records, metadata, prepared);
  }

  lemma {:induction false} TurnKeepsRoom(
      cfg: Config, metadata: Metadata, records: seq<Record>, prepared: seq<Intent>, env: nat -> Answers, p: Intent,
      s: State)
    requires PlanOrdered(records) && SidecarsValid(prepared) && p.key in metadata
    requires FindIntent(prepared, p.key) == Some(p)
    requires s.tables.Keys == metadata.Keys && |s.outcomes| < |records|
    requires RoomInv(cfg, metadata, records, prepared, env, p, s)
    ensures var s' := Turn(cfg, metadata, s, records[|s.outcomes|], env(|s.outcomes|));
            s'.failed || RoomInv(cfg, metadata, records, prepared, env, p, s')
  {
    TurnKeepsTables(cfg, metadata, records, prepared, s, env(|s.outcomes|));
    var s' := Turn(cfg, metadata, s, records[|s.outcomes|], env(|s.outcomes|));
    if !s'.failed {
      TurnTraced(cfg, metadata, records, prepared, env, p.key, s, s');
      TurnHasRoom(cfg, metadata, records, prepared, env, p, s, s');
    }
  }

  lemma {:induction false} TurnsHaveRoom(
      cfg: Config, metadata: Metadata, records: seq<Record>, prepared: seq<Intent>, env: nat -> Answers,
      index: map<string, TableIndex>, p: Intent)
    requires PlanOrdered(records) && SidecarsValid(prepared) && p.key in metadata
    requires FindIntent(prepared, p.key) == Some(p)
    ensures var s := Turns(cfg, metadata, records, env, Start(metadata, prepared, index), |records|);
            s.failed || (|s.outcomes| == |records| && RoomSoFar(cfg, records, p, s.outcomes))
  {
    var start := Start(metadata, prepared, index);
    var inv := (s: State) => RoomInv(cfg, metadata, records, prepared, env, p, s);
    StartHasRoom(cfg, metadata, records, prepared, index, env, p);
    forall i, s: State | 0 <= i < |records| && s.tables.Keys == metadata.Keys && |s.outcomes| == i && inv(s)
      ensures Turn(cfg, metadata, s, records[i], env(i)).failed || inv(Turn(cfg, metadata, s, records[i], env(i)))
    {
      TurnKeepsRoom(cfg, metadata, records, prepared, env, p, s);
    }
    TurnsKeep(cfg, metadata, records, env, start, |records|, inv, _ => true);
  }

  /** A successful recovery had room: whatever was replayed to a table up to the record
      that resolved its intent fitted into the buffer at once. */
  lemma {:induction false} RecoveryNeedsRoom(
      cfg: Config, metadata: Metadata, records: seq<Record>, prepared: seq<Intent>, index: map<string, TableIndex>,
      env: nat -> Answers, later: nat -> Answers, outcomes: seq<Outcome>, p: Intent, i: nat)
    requires PlanOrdered(records) && SidecarsValid(prepared) && i < |records| == |outcomes|
    requires Recover(cfg, metadata, records, prepared, index, env, later).1 == Some(outcomes)
    requires records[i].key == p.key && p.key in metadata && FindIntent(prepared, p.key) == Some(p)
    requires outcomes[i].Replayed? && ResolveTurn(records, p, outcomes[..i]).None?
    ensures HasRoom(cfg, Done(records, outcomes[..i], p.key), records[i])
  {
    TurnsHaveRoom(cfg, metadata, records, prepared, env, index, p);
  }

  lemma LastTurn(
      cfg: Config, metadata: Metadata, records: seq<Record>, env: nat -> Answers, start: State, n: nat)
    requires 0 < n <= |records| && start.tables.Keys == metadata.Keys
    requires !Turns(cfg, metadata, records, env, start, n - 1).failed
    ensures Turns(cfg, metadata, records, env, start, n)
         == Turn(cfg, metadata, Turns(cfg, metadata, records, env, start, n - 1), records[n - 1], env(n - 1))
  {
  }

  /** The next record comes to admission and has no room. */
  ghost predicate Roomless(cfg: Config, metadata: Metadata, records: seq<Record>, s: State, a: Answers) {
    && |s.outcomes| < |records|
    && var r := records[|s.outcomes|];
       && r.key in metadata && r.key in s.tables
       && ComesToAdmission(cfg, metadata[r.key], s.tables[r.key], IndexIn(s.index, r.key.ident), r, a)
       && !HasRoom(cfg, Done(records, s.outcomes, r.key), r)
  }

  /** The next record's table has an unresolved intent. */
  ghost predicate NextIsOpen(records: seq<Record>, s: State) {
    && |s.outcomes| < |records|
    && var key := records[|s.outcomes|].key;
       key in s.tables && s.tables[key].unresolved.Some? && TableOk(s.tables[key], Done(records, s.outcomes, key))
  }

  lemma RoomlessTurnFails(cfg: Config, metadata: Metadata, records: seq<Record>, s: State, a: Answers)
    requires PlanOrdered(records) && s.tables.Keys == metadata.Keys
    requires Roomless(cfg, metadata, records, s, a) && NextIsOpen(records, s)
    ensures Turn(cfg, metadata, s, records[|s.outcomes|], a).failed
  {
    var r := records[|s.outcomes|];
    NextFollows(records, s.outcomes);
    HandleNeedsRoom(cfg, metadata[r.key], s.tables[r.key], IndexIn(s.index, r.key.ident), r, a,
                    Done(records, s.outcomes, r.key));
  }

  lemma FailedTurn(
      cfg: Config, metadata: Metadata, records: seq<Record>, env: nat -> Answers, start: State, n: nat)
    requires 0 < n <= |records| && start.tables.Keys == metadata.Keys
    requires var s := Turns(cfg, metadata, records, env, start, n - 1);
             !s.failed && Turn(cfg, metadata, s, records[n - 1], env(n - 1)).failed
    ensures Turns(cfg, metadata, records, env, start, |records|).failed
  {
    LastTurn(cfg, metadata, records, env, start, n);
    FailureIsFinal(cfg, metadata, records, env, start, n, |records|);
  }

  lemma RoomlessAtTurn(
      cfg: Config, metadata: Metadata, records: seq<Record>, env: nat -> Answers, start: State, n: nat, s: State)
    requires PlanOrdered(records) && 0 < n <= |records| && start.tables.Keys == metadata.Keys
    requires s == Turns(cfg, metadata, records, env, start, n - 1) && !s.failed && |s.outcomes| == n - 1
    requires Roomless(cfg, metadata, records, s, env(n - 1)) && NextIsOpen(records, s)
    ensures Turns(cfg, metadata, records, env, start, |records|).failed
  {
    RoomlessTurnFails(cfg, metadata, records, s, env(n - 1));
    FailedTurn(cfg, metadata, records, env, start, n);
  }

  /** And without room recovery fails, whatever the catalog answers to the flush. */
  lemma NoRoomFails(
      cfg: Config, metadata: Metadata, records: seq<Record>, prepared: seq<Intent>, index: map<string, TableIndex>,
      env: nat -> Answers, later: nat -> Answers, n: nat, s: State, p: Intent)
    requires PlanOrdered(records) && SidecarsValid(prepared) && 0 < n <= |records|
    requires records[n - 1].key == p.key && p.key in metadata && FindIntent(prepared, p.key) == Some(p)
    requires s == Turns(cfg, metadata, records, env, Start(metadata, prepared, index), n - 1)
    requires !s.failed && |s.outcomes| == n - 1 && ResolveTurn(records, p, s.outcomes).None?
    requires Roomless(cfg, metadata, records, s, env(n - 1))
    ensures Recover(cfg, metadata, records, prepared, index, env, later).1.None?
  {
    OpenAtTurn(cfg, metadata, records, prepared, env, index, p.key, n - 1, s);
    assert NextIsOpen(records, s);
    RoomlessAtTurn(cfg, metadata, records, env, Start(metadata, prepared, index), n, s);
  }

  // ----- A log that cannot be recovered -----

  const EARLIER := Record(KEY, 0, 1, None, 1, 6)
  const PREPARED_RECORD := Record(KEY, 1, 2, None, 1, 6)
  const PREPARED_INTENT := Intent(KEY, GenerationRange(2, 2), 5)
  const TEN_BYTES := Config(1, 10, true, 1)

  lemma FirstIsReplayed(t: Table, a: Answers)
    requires Handle(TEN_BYTES, None, t, EMPTY_INDEX, EARLIER, a).outcome.Some?
    ensures Handle(TEN_BYTES, None, t, EMPTY_INDEX, EARLIER, a).outcome == Some(Replayed)
  {
  }

  lemma FirstTurn(env: nat -> Answers) returns (s: State)
    ensures s == Turns(TEN_BYTES, UNCHECKPOINTED, [EARLIER, PREPARED_RECORD], env,
                       Start(UNCHECKPOINTED, [PREPARED_INTENT], map[]), 1)
    ensures !s.failed ==> s.outcomes == [Replayed]
  {
    var records := [EARLIER, PREPARED_RECORD];
    var start := Start(UNCHECKPOINTED, [PREPARED_INTENT], map[]);
    assert start.tables.Keys == UNCHECKPOINTED.Keys;
    s := Turns(TEN_BYTES, UNCHECKPOINTED, records, env, start, 1);
    LastTurn(TEN_BYTES, UNCHECKPOINTED, records, env, start, 1);
    assert IndexIn(start.index, "t") == EMPTY_INDEX;
    if !s.failed {
      var h := OwnTurn(TEN_BYTES, UNCHECKPOINTED, start, EARLIER, env(0));
      FirstIsReplayed(start.tables[KEY], env(0));
    }
  }

  /** What recovery knows when it comes to the prepared record. */
  lemma AfterFirst()
    ensures FindIntent([PREPARED_INTENT], KEY) == Some(PREPARED_INTENT)
    ensures Done([EARLIER, PREPARED_RECORD], [Replayed], KEY) == [EARLIER] && Bytes([EARLIER]) == 6
    ensures ResolveTurn([EARLIER, PREPARED_RECORD], PREPARED_INTENT, [Replayed]).None?
    ensures LoadTurn([EARLIER, PREPARED_RECORD], None, KEY, 1) == Some(0)
  {
    var records := [EARLIER, PREPARED_RECORD];
    assert [Replayed][..0] == [] && Done(records, [], KEY) == [];
    assert [EARLIER][..0] == [] && Bytes([]) == 0;
    assert LoadTurn(records, None, KEY, 0).None?;
  }

  /** The intent's own record fits, and so does the one before it; together they do not.
      Recovery fails, whatever storage, clock and catalog answer. */
  lemma NoRoomExample(env: nat -> Answers, later: nat -> Answers)
    ensures PREPARED_RECORD.bytes <= TEN_BYTES.maxBytes && EARLIER.bytes <= TEN_BYTES.maxBytes && TEN_BYTES.hasFlusher
    ensures Contains(PREPARED_INTENT.gens, PREPARED_RECORD.generation)
    ensures !Contains(PREPARED_INTENT.gens, EARLIER.generation)
    ensures Recover(TEN_BYTES, UNCHECKPOINTED, [EARLIER, PREPARED_RECORD], [PREPARED_INTENT], map[], env, later).1.None?
  {
    var s := FirstTurn(env);
    if s.failed {
      FailureIsFinal(TEN_BYTES, UNCHECKPOINTED, [EARLIER, PREPARED_RECORD], env,
                     Start(UNCHECKPOINTED, [PREPARED_INTENT], map[]), 1, 2);
    } else {
      SecondFails(env, later, s);
    }
  }

  lemma SecondFails(env: nat -> Answers, later: nat -> Answers, s: State)
    requires s == Turns(TEN_BYTES, UNCHECKPOINTED, [EARLIER, PREPARED_RECORD], env,
                        Start(UNCHECKPOINTED, [PREPARED_INTENT], map[]), 1)
    requires !s.failed && s.outcomes == [Replayed]
    ensures Recover(TEN_BYTES, UNCHECKPOINTED, [EARLIER, PREPARED_RECORD], [PREPARED_INTENT], map[], env, later).1.None?
  {
    var records, prepared := [EARLIER, PREPARED_RECORD], [PREPARED_INTENT];
    AfterFirst();
    OpenAtTurn(TEN_BYTES, UNCHECKPOINTED, records, prepared, env, map[], KEY, 1, s);
    NoRoomFails(TEN_BYTES, UNCHECKPOINTED, records, prepared, map[], env, later, 2, s, PREPARED_INTENT);
  }
}
