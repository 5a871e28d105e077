/**
The write guard's answer from the publication log alone: while history is kept, what the
guard says about a request to a table is determined by the appends published to it
(`validate` in crates/teodb-catalog/src/adapter/append_attempt_guard.rs).
*/
module AppendAdmission {
  import opened Wrappers
  import opened WriteProtocol
  import opened AppendGuard
  import opened AppendLog
  import opened CommitError
  import opened AppendProtocol
  import opened AppendSafety
  import opened AppendTheorems

  // ----- What the log says -----

  /** No append to the incarnation has the commit ID. */
  ghost predicate NewCommit(log: seq<Entry>, u: Uuid, commit: Uuid) {
    forall i | 0 <= i < |log| && log[i].AppendEntry? && log[i].uuid == u :: log[i].req.identity.commit != commit
  }

  /** A valid request to this incarnation under a commit ID never used in it. */
  ghost predicate WellAddressed(log: seq<Entry>, u: Uuid, req: CommitAppend) {
    && ValidIdentity(req.tableUuid, req.identity) && u == req.tableUuid
    && NewCommit(log, u, req.identity.commit)
  }

  /** Everybody who has published to the incarnation. */
  ghost function Writers(log: seq<Entry>, u: Uuid): set<Uuid> {
    set i | 0 <= i < |log| && log[i].AppendEntry? && log[i].uuid == u :: log[i].req.identity.writer
  }

  /** What the log asks of a request before it may be published: of a writer that has
      published, that it comes after the writer's newest append in generation and not
      before it in epoch; of a new writer, that there are fewer writers than the limit. */
  ghost predicate Admissible(log: seq<Entry>, u: Uuid, req: CommitAppend, limit: nat) {
    && WellAddressed(log, u, req)
    && if req.identity.writer in Newest(log, u)
       then Before(Newest(log, u)[req.identity.writer].req.identity, req.identity)
       else |Writers(log, u)| < limit
  }

  lemma {:induction false} WritersAreNewest(log: seq<Entry>, u: Uuid)
    ensures Writers(log, u) == Newest(log, u).Keys
  {
    forall w
      ensures w in Writers(log, u) <==> w in Newest(log, u)
    {
      var k := NewestIndex(log, u, w);
      if w in Writers(log, u) {
        var i :| 0 <= i < |log| && log[i].AppendEntry? && log[i].uuid == u && log[i].req.identity.writer == w;
        assert IsAppend(log[i], u, w);
      }
    }
  }

  lemma {:induction false} KeysPerWriter(writers: set<Uuid>)
    ensures |set w | w in writers :: OwnKey(w)| == |writers|
    decreases |writers|
  {
    if writers != {} {
      var w :| w in writers;
      KeysPerWriter(writers - {w});
      assert (set v | v in writers :: OwnKey(v)) == (set v | v in writers - {w} :: OwnKey(v)) + {OwnKey(w)};
    } else {
      assert (set w | w in writers :: OwnKey(w)) == {};
    }
  }

  lemma RegistryCounts(t: TableMetadata, log: seq<Entry>)
    requires RegistryReflects(t.properties, log, t.uuid)
    ensures |CheckpointKeys(t.properties)| == |Writers(log, t.uuid)|
  {
    WritersAreNewest(log, t.uuid);
    KeysAreWriters(t.properties, log, t.uuid);
    var writers := Newest(log, t.uuid).Keys;
    KeysPerWriter(writers);
    assert CheckpointKeys(t.properties) == set w | w in writers :: OwnKey(w);
  }

  // ----- Corruption and repetition -----

  /** The snapshot of an append spells its commit ID and its identity. */
  lemma AppendIsVisible(t: TableMetadata, log: seq<Entry>, i: nat)
    requires GoodLog(log) && KeptHistory(t, log)
    requires i < |log| && log[i].AppendEntry? && log[i].uuid == t.uuid
    ensures var s := SnapshotAt(log, i);
            && s in t.snapshots && CarriesCommit(s.summary, log[i].req.identity.commit)
            && forall id :: CarriesIdentity(s.summary, t.uuid, id) <==> id == log[i].req.identity
  {
    PublishedSummaryRoundTrip(log[i].req, ENGINE_VERSION);
    CarriedCommit(SnapshotAt(log, i).summary, t.uuid, log[i].req.identity);
  }

  lemma ReuseIsCorrupt(t: TableMetadata, log: seq<Entry>, req: CommitAppend)
    requires GoodLog(log) && KeptHistory(t, log) && t.uuid == req.tableUuid && !OwnCommit(log, req)
    ensures Corrupt(t, req)
  {
    var j :| 0 <= j < |log| && log[j].AppendEntry? && log[j].uuid == req.tableUuid
             && log[j].req.identity.commit == req.identity.commit && log[j].req.identity != req.identity;
    AppendIsVisible(t, log, j);
  }

  lemma OwnIsNotCorrupt(t: TableMetadata, log: seq<Entry>, req: CommitAppend)
    requires GoodLog(log) && Reflects(t, log) && t.uuid == req.tableUuid && OwnCommit(log, req)
    ensures !Corrupt(t, req)
  {
    RegistryIsWellFormed(t.properties, log, t.uuid);
    forall s | s in t.snapshots && CarriesCommit(s.summary, req.identity.commit)
      ensures CarriesIdentity(s.summary, req.tableUuid, req.identity)
    {
      var j := SummaryFromLog(s, log, t.uuid, req);
      assert AppendLog.Publishes(log[j], t.uuid, req.identity);
    }
    OwnCheckpoint(t, log, req.identity.writer);
    var n := NewestIndex(log, t.uuid, req.identity.writer);
    if n >= 0 {
      assert log[n].req.identity.commit == req.identity.commit ==> log[n].req.identity == req.identity;
    }
  }

  lemma LandedIsPublished(t: TableMetadata, log: seq<Entry>, req: CommitAppend)
    requires GoodLog(log) && Reflects(t, log) && KeptHistory(t, log) && t.uuid == req.tableUuid && OwnCommit(log, req)
    ensures Landed(t, req) <==> Published(log, req)
    ensures Published(log, req) <==> !NewCommit(log, t.uuid, req.identity.commit)
  {
    OwnIsNotCorrupt(t, log, req);
    if Landed(t, req) {
      CommittedIsPublished(t, log, req);
    }
    if i :| 0 <= i < |log| && log[i].AppendEntry? && log[i].uuid == t.uuid
            && log[i].req.identity.commit == req.identity.commit {
      assert Publishes(log[i], req.tableUuid, req.identity);
      PublishedIsVisible(t, log, req, i);
    }
  }

  // ----- The verdict -----

  /** The guard finds a bad identity, another incarnation, a commit ID in use under
      another identity, or the request itself, exactly when the log says so. */
  lemma RefusedFromLog(t: TableMetadata, log: seq<Entry>, req: CommitAppend, limit: nat)
    requires GoodLog(log) && Reflects(t, log) && KeptHistory(t, log)
    ensures var v := GuardVerdict(t, req, limit);
            && (v.InvalidIdentity? <==> !ValidIdentity(req.tableUuid, req.identity))
            && (v.IncarnationMismatch? <==> ValidIdentity(req.tableUuid, req.identity) && t.uuid != req.tableUuid)
            && (v.MetadataCorruption? <==>
                ValidIdentity(req.tableUuid, req.identity) && t.uuid == req.tableUuid && !OwnCommit(log, req))
            && (v.AlreadyCommitted? <==>
                ValidIdentity(req.tableUuid, req.identity) && OwnCommit(log, req) && t.uuid == req.tableUuid
                && Published(log, req))
    ensures var v := GuardVerdict(t, req, limit);
            v.Admit? || v.StaleWriterEpoch? || v.OverlappingRange? || v.WriterRegistryFull? <==>
            WellAddressed(log, t.uuid, req)
  {
    if t.uuid == req.tableUuid {
      if OwnCommit(log, req) {
        OwnIsNotCorrupt(t, log, req);
        LandedIsPublished(t, log, req);
      } else {
        ReuseIsCorrupt(t, log, req);
      }
    }
  }

  /** A request is admitted if and only if the log admits it. */
  lemma {:induction false} AdmittedFromLog(t: TableMetadata, log: seq<Entry>, req: CommitAppend, limit: nat)
    requires GoodLog(log) && Reflects(t, log) && KeptHistory(t, log)
    ensures GuardVerdict(t, req, limit) == Admit <==> Admissible(log, t.uuid, req, limit)
  {
    RefusedFromLog(t, log, req, limit);
    OwnCheckpoint(t, log, req.identity.writer);
    RegistryCounts(t, log);
    OwnKeyIsNewest(t, log, req.identity.writer);
  }

  lemma {:induction false} OwnKeyIsNewest(t: TableMetadata, log: seq<Entry>, writer: Uuid)
    requires RegistryReflects(t.properties, log, t.uuid)
    ensures OwnKey(writer) in t.properties <==> writer in Newest(log, t.uuid)
  {
  }

  /** And otherwise, if well addressed, it is told why: an older epoch than the newest
      append's, generations up to the newest append's, or too many writers. */
  lemma {:induction false} BehindFromLog(t: TableMetadata, log: seq<Entry>, req: CommitAppend, limit: nat)
    requires GoodLog(log) && Reflects(t, log) && KeptHistory(t, log)
    ensures var v, newest, id := GuardVerdict(t, req, limit), Newest(log, t.uuid), req.identity;
            && (v.StaleWriterEpoch? <==>
                WellAddressed(log, t.uuid, req) && id.writer in newest
                && id.epoch < newest[id.writer].req.identity.epoch)
            && (v.StaleWriterEpoch? ==> v.current == newest[id.writer].req.identity.epoch)
            && (v.OverlappingRange? <==>
                WellAddressed(log, t.uuid, req) && id.writer in newest
                && newest[id.writer].req.identity.epoch <= id.epoch
                && id.gens.lo <= newest[id.writer].req.identity.gens.hi)
            && (v.OverlappingRange? ==> v.committed == newest[id.writer].req.identity.gens.hi)
            && (v.WriterRegistryFull? <==>
                WellAddressed(log, t.uuid, req) && id.writer !in newest && |Writers(log, t.uuid)| >= limit)
  {
    RefusedFromLog(t, log, req, limit);
    OwnCheckpoint(t, log, req.identity.writer);
    RegistryCounts(t, log);
    OwnKeyIsNewest(t, log, req.identity.writer);
  }

  // ----- Runs -----

  ghost predicate KeepsHistory(events: seq<Event>) {
    forall n | 0 <= n < |events| :: !events[n].Expire?
  }

  /** In every run that expires nothing a loading attempt gets as far as its request to
      the catalog if and only if the log admits it. */
  lemma LoadIsDecidedByLog(limit: nat, states: seq<World>, events: seq<Event>, k: nat)
    requires Run(limit, states, events) && KeepsHistory(events) && k < |events| && events[k].Load?
    ensures var a, w := events[k].a, states[k];
            && a in states[k + 1].attempts && a in w.attempts && w.table.Some?
            && (states[k + 1].attempts[a].wire.Sent? <==>
                Admissible(w.log, w.table.value.uuid, w.attempts[a].req, w.attempts[a].limit))
  {
    RunKeepsInv(limit, states, events, k);
    RunKeepsHistory(limit, states, events, k);
    assert Step(limit, states[k], events[k], states[k + 1]);
    var x := states[k].attempts[events[k].a];
    AdmittedFromLog(states[k].table.value, states[k].log, x.req, x.limit);
  }

  ghost predicate Reachable(limit: nat, w: World) {
    exists states: seq<World>, events: seq<Event> ::
      Run(limit, states, events) && KeepsHistory(events) && states[|events|] == w
  }

  lemma ReachNext(limit: nat, w: World, ev: Event, w': World)
    requires Reachable(limit, w) && Step(limit, w, ev, w') && !ev.Expire?
    ensures Reachable(limit, w')
  {
    var states: seq<World>, events: seq<Event> :|
      Run(limit, states, events) && KeepsHistory(events) && states[|events|] == w;
    assert Run(limit, states + [w'], events + [ev]);
    assert (states + [w'])[|events + [ev]|] == w';
  }

  lemma ReachableAdmits(limit: nat, w: World, req: CommitAppend, lim: nat)
    requires Reachable(limit, w) && w.table.Some? && Admissible(w.log, w.table.value.uuid, req, lim)
    ensures GuardVerdict(w.table.value, req, lim) == Admit
  {
    var states: seq<World>, events: seq<Event> :|
      Run(limit, states, events) && KeepsHistory(events) && states[|events|] == w;
    RunKeepsInv(limit, states, events, |events|);
    RunKeepsHistory(limit, states, events, |events|);
    AdmittedFromLog(w.table.value, w.log, req, lim);
  }

  /** From every state that runs without expiry reach, an admissible request can be
      published: begun, loaded, sent and applied. */
  lemma AdmissibleCanPublish(limit: nat, w: World, a: nat, req: CommitAppend, lim: nat, nowMs: nat, snap: int)
    returns (w': World)
    requires Reachable(limit, w) && w.table.Some? && a !in w.attempts && Publishable(req) && lim <= limit
    requires Admissible(w.log, w.table.value.uuid, req, lim) && FreshSnap(w.log, w.table.value.uuid, snap)
    ensures Reachable(limit, w') && w'.table.Some? && w'.table.value.uuid == w.table.value.uuid
    ensures w'.log == w.log + [AppendEntry(w.table.value.uuid, snap, req, nowMs, a)]
    ensures w'.attempts.Keys == w.attempts.Keys + {a}
  {
    var t := w.table.value;
    ReachableAdmits(limit, w, req, lim);
    var begun := Update(w, a, Attempt(req, lim, nowMs, Idle, None));
    ReachNext(limit, w, Begin(a, req, lim, nowMs), begun);
    var sent := Update(begun, a, Attempt(req, lim, nowMs, Sent(t, |w.log|), None));
    ReachNext(limit, begun, Load(a), sent);
    var x := sent.attempts[a];
    w' := World(Some(ApplyAppend(t, x, snap)), sent.attempts[a := x.(wire := Applied)],
                w.log + [AppendEntry(t.uuid, snap, req, nowMs, a)], w.uuids);
    ReachNext(limit, sent, Apply(a, snap), w');
  }

  /** An attempt whose request the catalog has refused, because another one was faster,
      can load the table again, be published if the log still admits it, and be told so. */
  lemma RefusedCanPublish(limit: nat, w: World, a: nat, snap: int) returns (w': World)
    requires Reachable(limit, w) && w.table.Some? && Running(w, a) && w.attempts[a].wire.Refused?
    requires Admissible(w.log, w.table.value.uuid, w.attempts[a].req, w.attempts[a].limit)
    requires FreshSnap(w.log, w.table.value.uuid, snap)
    ensures Reachable(limit, w') && a in w'.attempts && w'.attempts[a].result == Some(Ok)
    ensures w'.log
         == w.log + [AppendEntry(w.table.value.uuid, snap, w.attempts[a].req, w.attempts[a].nowMs, a)]
  {
    var t, x := w.table.value, w.attempts[a];
    ReachableAdmits(limit, w, x.req, x.limit);
    var idle := Update(w, a, x.(wire := Idle));
    ReachNext(limit, w, Rebase(a), idle);
    var sent := Update(idle, a, x.(wire := Sent(t, |w.log|)));
    ReachNext(limit, idle, Load(a), sent);
    var applied := World(Some(ApplyAppend(t, sent.attempts[a], snap)), sent.attempts[a := x.(wire := Applied)],
                         w.log + [AppendEntry(t.uuid, snap, x.req, x.nowMs, a)], w.uuids);
    ReachNext(limit, sent, Apply(a, snap), applied);
    w' := Update(applied, a, x.(wire := Applied, result := Some(Ok)));
    ReachNext(limit, applied, Reply(a), w');
  }

  // ----- What the other steps do to an attempt -----

  /** A transport error ends the attempt: it is reported as unknown exactly if the request
      may have been dispatched, and as a definite failure otherwise. */
  lemma FailureIsReported(limit: nat, w: World, ev: Event, w': World)
    requires Step(limit, w, ev, w') && (ev.FailBeforeDispatch? || ev.FailAfterDispatch?)
    ensures ev.a in w'.attempts && w'.attempts[ev.a].result.Some? && !Running(w', ev.a)
    ensures w'.attempts[ev.a].result.value.StateUnknown? <==>
            ev.error.kind == Unexpected && ConnectFailure !in ev.error.causes
    ensures w'.attempts[ev.a].result.value.StateUnknown? || DefiniteFailure(w'.attempts[ev.a].result.value)
    ensures w'.log == w.log && w'.table == w.table
  {
  }

  /** A refused request cannot be applied any more, nor one to a dropped table. */
  lemma RefusedOrDroppedIsNotApplied(limit: nat, w: World, ev: Event, w': World, a: nat, snap: int, w'': World)
    requires Step(limit, w, ev, w') && (ev == Refuse(a) || ev.Drop?)
    ensures !Step(limit, w', Apply(a, snap), w'')
    ensures w'.log == w.log
  {
  }

  ghost predicate BasesKnown(w: World) {
    && (w.table.Some? ==> w.table.value.uuid in w.uuids)
    && forall a | a in w.attempts && w.attempts[a].wire.Sent? :: w.attempts[a].wire.base.uuid in w.uuids
  }

  lemma {:induction false} BasesStayKnown(limit: nat, states: seq<World>, events: seq<Event>, k: nat)
    requires Run(limit, states, events) && k < |states|
    ensures BasesKnown(states[k])
  {
    if k > 0 {
      BasesStayKnown(limit, states, events, k - 1);
      assert Step(limit, states[k - 1], events[k - 1], states[k]);
    }
  }

  /** Nor does a request sent to one incarnation reach the next one, in any run. */
  lemma NextIncarnationIsSafe(
      limit: nat, states: seq<World>, events: seq<Event>, k: nat, a: nat, snap: int, w: World)
    requires Run(limit, states, events) && k < |events| && events[k].Create?
    requires a in states[k].attempts && states[k].attempts[a].wire.Sent?
    ensures !Step(limit, states[k + 1], Apply(a, snap), w)
    ensures states[k + 1].table == Some(TableMetadata(events[k].uuid, [], None, events[k].properties))
    ensures states[k + 1].log == states[k].log
  {
    BasesStayKnown(limit, states, events, k);
    assert Step(limit, states[k], events[k], states[k + 1]);
  }

  /** Property updates of other clients take effect and leave every checkpoint alone. */
  lemma UpdateKeepsCheckpoints(limit: nat, w: World, p: Properties, w': World, writer: Uuid)
    requires Step(limit, w, SetProperties(p), w')
    ensures w'.table.Some? && w'.table.value.properties == p && w'.log == w.log
    ensures ParseCheckpoint(w'.table.value.properties, writer) == ParseCheckpoint(w.table.value.properties, writer)
  {
    assert OwnKey(writer).CheckpointKey?;
  }

  // ----- Three appends of two writers -----

  const FIRST := CommitAppend(1, Identity(1, 1, 7, GenerationRange(1, 5)), map[])
  const SECOND := CommitAppend(1, Identity(1, 1, 8, GenerationRange(6, 9)), map[])
  const OTHERS := CommitAppend(1, Identity(2, 1, 9, GenerationRange(1, 1)), map[])

  const FIRST_ENTRY := AppendEntry(1, 10, FIRST, 0, 0)
  const SECOND_ENTRY := AppendEntry(1, 11, SECOND, 0, 1)

  lemma AdmissibleInTurn()
    ensures Admissible([], 1, FIRST, 2) && Admissible([FIRST_ENTRY], 1, SECOND, 2)
    ensures Admissible([FIRST_ENTRY, SECOND_ENTRY], 1, OTHERS, 2)
  {
    var e, e' := FIRST_ENTRY, SECOND_ENTRY;
    assert Writers([], 1) == {};
    assert [e][..0] == [] && Newest([e], 1) == map[1 := e];
    assert [e, e'][..1] == [e] && Newest([e, e'], 1) == map[1 := e'];
    WritersAreNewest([e, e'], 1);
  }

  /** A reachable state with table 1, this log and these attempts. */
  ghost predicate StandsAt(w: World, log: seq<Entry>, attempts: set<nat>) {
    Reachable(2, w) && w.table.Some? && w.table.value.uuid == 1 && w.log == log && w.attempts.Keys == attempts
  }

  lemma TableCreated() returns (w: World)
    ensures StandsAt(w, [], {})
  {
    assert Run(2, [EMPTY], []) && KeepsHistory([]);
    assert CheckpointKeys(map[]) == {};
    w := World(Some(TableMetadata(1, [], None, map[])), map[], [], {} + {1});
    ReachNext(2, EMPTY, Create(1, map[]), w);
  }

  lemma NextAppend(w: World, log: seq<Entry>, attempts: set<nat>, a: nat, req: CommitAppend, snap: int)
    returns (w': World)
    requires StandsAt(w, log, attempts) && a !in attempts && req.properties == map[]
    requires Admissible(log, 1, req, 2) && FreshSnap(log, 1, snap)
    ensures StandsAt(w', log + [AppendEntry(1, snap, req, 0, a)], attempts + {a})
  {
    w' := AdmissibleCanPublish(2, w, a, req, 2, 0, snap);
  }

  lemma OneWriterPublishesTwice() returns (w: World)
    ensures StandsAt(w, [FIRST_ENTRY, SECOND_ENTRY], {0, 1})
  {
    AdmissibleInTurn();
    w := TableCreated();
    w := NextAppend(w, [], {}, 0, FIRST, 10);
    assert [] + [FIRST_ENTRY] == [FIRST_ENTRY] && {} + {0} == {0};
    w := NextAppend(w, [FIRST_ENTRY], {0}, 1, SECOND, 11);
    assert [FIRST_ENTRY] + [SECOND_ENTRY] == [FIRST_ENTRY, SECOND_ENTRY] && {0} + {1} == {0, 1};
  }

  /** One writer publishes twice in one epoch, and then another one publishes. */
  lemma TwoWritersPublish() returns (w: World)
    ensures Reachable(2, w)
    ensures w.log == [AppendEntry(1, 10, FIRST, 0, 0), AppendEntry(1, 11, SECOND, 0, 1),
                      AppendEntry(1, 12, OTHERS, 0, 2)]
  {
    AdmissibleInTurn();
    w := OneWriterPublishesTwice();
    w := NextAppend(w, [FIRST_ENTRY, SECOND_ENTRY], {0, 1}, 2, OTHERS, 12);
  }
}
