/**
Recovery against the catalog: what the replay loop is told about its intent is read
from the append protocol, in which the intent's delayed original, the retry and any
other writers run. The metadata is read at one state of the system, the buffer is
loaded at a later one and the intent is resolved at a still later one
(`load_target_metadata`, `get_or_load` and `resolve_prepared` in
crates/teodb-ingest/src/replay.rs and buffer/registry.rs).
*/
module RecoveryMachine {
  import opened Wrappers
  import opened WriteProtocol
  import opened AppendGuard
  import opened AppendLog
  import opened Idempotency
  import opened TableRecovery
  import opened Replay
  import opened RecoveryRun
  import opened RecoveryPlaces
  import AppendProtocol
  import AppendSafety
  import AppendTheorems
  import PreparedRecovery

  type World = AppendProtocol.World
  type System = PreparedRecovery.System
  type PreparedFlush = PreparedRecovery.PreparedFlush

  ghost predicate InLog(p: PreparedFlush, s: System) {
    AppendTheorems.Published(s.w.log, PreparedRecovery.RequestOf(p))
  }

  /** The intent as the replay loop knows it. */
  function IntentOf(p: PreparedFlush, ident: string): Intent {
    Intent(TableKey(p.tableUuid, ident), p.identity.gens, p.identity.commit)
  }

  // ----- From one state of the system to a later one -----

  ghost predicate Grown(w: World, w': World) {
    && w.log <= w'.log
    && forall a | a in w.attempts :: a in w'.attempts && w'.attempts[a].req == w.attempts[a].req
  }

  lemma ActGrows(limit: nat, p: PreparedFlush, s: System, action: PreparedRecovery.Action, s': System)
    requires PreparedRecovery.Act(limit, p, s, action, s')
    ensures Grown(s.w, s'.w)
  {
    match action
    case Environment(ev) => PreparedRecovery.RequestsArePermanent(limit, s.w, ev, s'.w);
    case CheckStatus(reachable, a, lim, nowMs) =>
      if s.w != s'.w {
        PreparedRecovery.RequestsArePermanent(
          limit, s.w, AppendProtocol.Begin(a, PreparedRecovery.RequestOf(p), lim, nowMs), s'.w);
      }
    case _ =>
  }

  lemma {:induction false} SystemGrows(
      limit: nat, p: PreparedFlush, states: seq<System>, actions: seq<PreparedRecovery.Action>, k: nat, m: nat)
    requires PreparedRecovery.Recovery(limit, p, states, actions) && k <= m < |states|
    ensures Grown(states[k].w, states[m].w)
  {
    if k < m {
      SystemGrows(limit, p, states, actions, k, m - 1);
      ActGrows(limit, p, states[m - 1], actions[m - 1], states[m]);
    }
  }

  /** What is published stays published. */
  lemma StaysInLog(
      limit: nat, p: PreparedFlush, states: seq<System>, actions: seq<PreparedRecovery.Action>, k: nat, m: nat)
    requires PreparedRecovery.Recovery(limit, p, states, actions) && k <= m < |states|
    ensures InLog(p, states[k]) ==> InLog(p, states[m])
  {
    SystemGrows(limit, p, states, actions, k, m);
    if InLog(p, states[k]) {
      AppendTheorems.PublishedInLonger(states[k].w.log, states[m].w.log, PreparedRecovery.RequestOf(p));
    }
  }

  // ----- The two reads of the checkpoint -----

  /** A writer flushes a table one intent at a time: whatever it had not published by
      the first read is this intent. */
  ghost predicate OnlyIntentLeft(p: PreparedFlush, w: World, w': World) {
    forall a | a in w'.attempts && !(a in w.attempts && w.attempts[a].wire.Applied?)
               && w'.attempts[a].req.tableUuid == p.tableUuid
               && w'.attempts[a].req.identity.writer == p.identity.writer ::
      w'.attempts[a].req == PreparedRecovery.RequestOf(p)
  }

  /** No earlier entry has an entry's checkpoint. */
  lemma LandsForTheFirstTime(log: seq<Entry>, at: nat, i: nat)
    requires GoodLog(log) && at <= i < |log| && log[i].AppendEntry?
    ensures !AppendProtocol.LandedInLog(log[..at], log[i].req)
  {
    var e := log[i];
    assert e.uuid == e.req.tableUuid && ValidIdentity(e.uuid, e.req.identity);
    forall j | 0 <= j < at
      ensures !AppendProtocol.MatchesCheckpoint(log[..at][j], e.req)
    {
      if IsAppend(log[j], e.uuid, e.req.identity.writer) {
        assert Before(log[j].req.identity, e.req.identity);
      }
    }
  }

  /** An attempt that had published by the first read publishes nothing after it. */
  lemma PublishedBefore(limit: nat, w: World, w': World, i: nat)
    requires AppendProtocol.Inv(limit, w) && AppendProtocol.Inv(limit, w') && Grown(w, w')
    requires |w.log| <= i < |w'.log| && w'.log[i].AppendEntry?
    ensures !(w'.log[i].attempt in w.attempts && w.attempts[w'.log[i].attempt].wire.Applied?)
  {
    var a := w'.log[i].attempt;
    assert AppendProtocol.Wrote(w'.log[i], a, w'.attempts[a]);
    assert w'.log[..|w.log|] == w.log;
    LandsForTheFirstTime(w'.log, |w.log|, i);
    assert a in w.attempts ==> AppendProtocol.GoodResult(w.log, w.attempts[a]);
  }

  lemma NewIsIntent(limit: nat, p: PreparedFlush, w: World, w': World, i: nat)
    requires AppendProtocol.Inv(limit, w) && AppendProtocol.Inv(limit, w') && Grown(w, w') && OnlyIntentLeft(p, w, w')
    requires |w.log| <= i < |w'.log| && IsAppend(w'.log[i], p.tableUuid, p.identity.writer)
    ensures AppendLog.Publishes(w'.log[i], p.tableUuid, p.identity)
  {
    PublishedBefore(limit, w, w', i);
    var e := w'.log[i];
    assert AppendProtocol.Wrote(e, e.attempt, w'.attempts[e.attempt]);
  }

  /** The upper generation of the writer's newest append. */
  function Mark(log: seq<Entry>, u: Uuid, writer: Uuid): nat {
    if writer in Newest(log, u) then Newest(log, u)[writer].req.identity.gens.hi else 0
  }

  lemma CheckpointIsMark(t: TableMetadata, log: seq<Entry>, writer: Uuid)
    requires GoodLog(log) && AppendProtocol.Reflects(t, log)
    ensures CheckpointValue(CheckpointOf(Loaded(t), writer)) == Mark(log, t.uuid, writer)
  {
    AppendSafety.OwnCheckpoint(t, log, writer);
  }

  lemma MarkIsHighest(log: seq<Entry>, u: Uuid, writer: Uuid, i: nat)
    requires GoodLog(log) && i < |log| && IsAppend(log[i], u, writer)
    ensures log[i].req.identity.gens.hi <= Mark(log, u, writer)
  {
    var k := NewestIndex(log, u, writer);
    assert ValidIdentity(log[k].uuid, log[k].req.identity);
    if i < k {
      assert Before(log[i].req.identity, log[k].req.identity);
    }
  }

  lemma MarkUnchanged(log: seq<Entry>, log': seq<Entry>, u: Uuid, writer: Uuid)
    requires log <= log' && forall i | |log| <= i < |log'| :: !IsAppend(log'[i], u, writer)
    ensures Mark(log', u, writer) == Mark(log, u, writer)
  {
    var k := NewestIndex(log, u, writer);
    var k' := NewestIndex(log', u, writer);
    if k >= 0 {
      assert IsAppend(log'[k], u, writer);
    }
    assert k == k';
  }

  lemma MarkBelow(log: seq<Entry>, log': seq<Entry>, u: Uuid, writer: Uuid, i: nat)
    requires GoodLog(log') && log <= log' && |log| <= i < |log'| && IsAppend(log'[i], u, writer)
    ensures Mark(log, u, writer) < log'[i].req.identity.gens.hi
  {
    var k := NewestIndex(log, u, writer);
    assert ValidIdentity(log'[i].uuid, log'[i].req.identity);
    if k >= 0 {
      assert log[k] == log'[k] && Before(log'[k].req.identity, log'[i].req.identity);
    }
  }

  lemma LogMarkMoves(log: seq<Entry>, log': seq<Entry>, req: CommitAppend)
    requires GoodLog(log') && log <= log'
    requires forall i | |log| <= i < |log'| && IsAppend(log'[i], req.tableUuid, req.identity.writer) ::
               AppendLog.Publishes(log'[i], req.tableUuid, req.identity)
    ensures var u, writer, hi := req.tableUuid, req.identity.writer, req.identity.gens.hi;
            Mark(log', u, writer)
            == if AppendTheorems.Published(log', req) && hi > Mark(log, u, writer) then hi else Mark(log, u, writer)
  {
    var u, writer := req.tableUuid, req.identity.writer;
    var k := NewestIndex(log', u, writer);
    if k < |log| {
      MarkUnchanged(log, log', u, writer);
      if AppendTheorems.Published(log', req) {
        var i :| 0 <= i < |log'| && AppendLog.Publishes(log'[i], u, req.identity);
        MarkIsHighest(log', u, writer, i);
      }
    } else {
      MarkBelow(log, log', u, writer, k);
    }
  }

  /** Between the reads the checkpoint moves to the intent's upper generation if the
      intent has been published meanwhile, and not at all otherwise. */
  lemma MarkMoves(limit: nat, p: PreparedFlush, w: World, w': World)
    requires AppendProtocol.Inv(limit, w) && AppendProtocol.Inv(limit, w') && Grown(w, w') && OnlyIntentLeft(p, w, w')
    ensures var u, writer, hi := p.tableUuid, p.identity.writer, p.identity.gens.hi;
            Mark(w'.log, u, writer)
            == if AppendTheorems.Published(w'.log, PreparedRecovery.RequestOf(p)) && hi > Mark(w.log, u, writer)
               then hi else Mark(w.log, u, writer)
  {
    forall i | |w.log| <= i < |w'.log| && IsAppend(w'.log[i], p.tableUuid, p.identity.writer)
      ensures AppendLog.Publishes(w'.log[i], p.tableUuid, p.identity)
    {
      NewIsIntent(limit, p, w, w', i);
    }
    LogMarkMoves(w.log, w'.log, PreparedRecovery.RequestOf(p));
  }

  /** The buffer starts at the checkpoint that the catalog has when it is loaded: with
      the answer "landed" for a published intent, the high-water mark of `LoadBuffer` is
      what the second read returns. */
  lemma BufferStartsAtCheckpoint(
      limit: nat, p: PreparedFlush, states: seq<System>, actions: seq<PreparedRecovery.Action>, k: nat, m: nat,
      t: Table, ident: string)
    requires PreparedRecovery.Recovery(limit, p, states, actions) && k <= m < |states|
    requires OnlyIntentLeft(p, states[k].w, states[m].w)
    requires states[k].w.table.Some? && states[k].w.table.value.uuid == p.tableUuid
    requires states[m].w.table.Some? && states[m].w.table.value.uuid == p.tableUuid
    requires t.buffer.None? && t.sidecar == Some(IntentOf(p, ident))
    ensures var first := CheckpointOf(Loaded(states[k].w.table.value), p.identity.writer);
            var second := CheckpointOf(Loaded(states[m].w.table.value), p.identity.writer);
            LoadBuffer(t, CheckpointValue(first), InLog(p, states[m])).buffer.value.highWater
            == CheckpointValue(second)
  {
    PreparedRecovery.RecoveryKeepsInv(limit, p, states, actions, k);
    PreparedRecovery.RecoveryKeepsInv(limit, p, states, actions, m);
    SystemGrows(limit, p, states, actions, k, m);
    var w, w' := states[k].w, states[m].w;
    CheckpointIsMark(w.table.value, w.log, p.identity.writer);
    CheckpointIsMark(w'.table.value, w'.log, p.identity.writer);
    MarkMoves(limit, p, w, w');
  }

  // ----- Where the intent's records are -----

  /** How the resolution of the intent ends. Recovery cannot see whether a contained
      intent is in the catalog; the log says so. */
  ghost predicate AnswerOf(p: PreparedFlush, s: System, a: ResolveAnswer) {
    match a
    case Invalid => false
    case Proven(_) => s.node.phase.Proven?
    case Contained(inCatalog) => s.node.phase.Contained? && (inCatalog <==> InLog(p, s))
  }

  lemma ProvenIsInLog(
      limit: nat, p: PreparedFlush, states: seq<System>, actions: seq<PreparedRecovery.Action>, n: nat,
      a: ResolveAnswer)
    requires PreparedRecovery.Recovery(limit, p, states, actions) && n < |states| && AnswerOf(p, states[n], a)
    ensures InLog(p, states[n]) <==> a.Proven? || a == Contained(true)
  {
    PreparedRecovery.RecoveryKeepsInv(limit, p, states, actions, n);
  }

  /** A record of the intent's range, given how the table was traced. */
  lemma IntentRecordIsAt(
      t: Table, done: seq<Record>, r: Record, p: Intent, checkpoint: nat, landed: bool, a: ResolveAnswer)
    requires TableInv(t, done) && r in done && r.generation > checkpoint && Contains(p.gens, r.generation)
    requires Traced(t, Some(p), checkpoint, Some(landed), Some(a))
    ensures InBoth(t, r) <==> landed || a == Contained(true)
    ensures OnlyInCatalog(t, r) <==> !landed && a.Proven?
  {
    TraceTellsPlace(t, done, r, Some(p), checkpoint, landed, a);
    WhereRecordsAre(t, done, r);
    if !landed && a.Proven? {
      assert t.published[0] in t.published;
    }
  }

  /** After a successful recovery whose answers are those of the catalog, a replayed
      record of the intent's range is in an append of the catalog, as recovery accounts
      for it, if and only if the catalog has published the intent. It is in the buffer
      too if and only if the intent was published before the buffer was loaded, or was
      published and could not be proven. */
  lemma {:induction false} PlacesFollowTheLog(
      cfg: Config, load: string -> Load, metadata: Metadata, records: seq<Record>, prepared: seq<Intent>,
      index: map<string, TableIndex>, env: nat -> Answers, later: nat -> Answers, i: nat,
      limit: nat, p: PreparedFlush, states: seq<System>, actions: seq<PreparedRecovery.Action>, m: nat, n: nat)
    requires Inputs(cfg, metadata, load, records, prepared) && i < |records|
    requires var result := Recover(cfg, metadata, records, prepared, index, env, later).1;
             result.Some? && |result.value| == |records| && result.value[i].Replayed?
    requires FindIntent(prepared, records[i].key) == Some(IntentOf(p, records[i].key.ident))
    requires Contains(p.identity.gens, records[i].generation)
    requires PreparedRecovery.Recovery(limit, p, states, actions) && m <= n < |states|
    requires records[i].key in metadata
             && LandedSoFar(records, metadata[records[i].key], records[i].key, env, |records|)
                == Some(InLog(p, states[m]))
    requires var at := IntentIndex(prepared, records[i].key);
             var outcomes := Recover(cfg, metadata, records, prepared, index, env, later).1.value;
             at.Some? && AnswerOf(p, states[n], FinalAnswer(records, prepared, outcomes, env, later, at.value))
    ensures var tables := Recover(cfg, metadata, records, prepared, index, env, later).0.tables;
            && records[i].key in tables
            && var t := tables[records[i].key];
               && (OnlyInCatalog(t, records[i]) || InBoth(t, records[i]) <==> InLog(p, states[n]))
               && (InBoth(t, records[i]) <==>
                   InLog(p, states[m]) || (InLog(p, states[n]) && states[n].node.phase.Contained?))
  {
    var t, done := FinalTableOf(cfg, load, metadata, records, prepared, index, env, later, i);
    var r := records[i];
    var landed := InLog(p, states[m]);
    FinalTrace(cfg, metadata, records, prepared, index, env, later, r.key, landed);
    var outcomes := Recover(cfg, metadata, records, prepared, index, env, later).1.value;
    var a := FinalAnswer(records, prepared, outcomes, env, later, IntentIndex(prepared, r.key).value);
    IntentRecordIsAt(t, done, r, IntentOf(p, r.key.ident), CheckpointValue(metadata[r.key]), landed, a);
    ProvenIsInLog(limit, p, states, actions, n, a);
    StaysInLog(limit, p, states, actions, m, n);
  }
}
