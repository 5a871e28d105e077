/**
What Ok and Committed mean once history has been expired. Only the writer's
checkpoint is left then, and it does not record the lower generation.
*/
module AppendExactness {
  import opened Wrappers
  import opened WriteProtocol
  import opened AppendGuard
  import opened CommitError
  import opened AppendLog
  import opened AppendProtocol
  import opened AppendSafety
  import opened AppendTheorems

  /* ---------- Requests that a checkpoint cannot tell apart ---------- */

  /** Same table, writer, epoch, commit ID and upper generation; another lower one. */
  predicate Twins(p: CommitAppend, q: CommitAppend) {
    && p.tableUuid == q.tableUuid && p.identity.writer == q.identity.writer
    && p.identity.epoch == q.identity.epoch && p.identity.commit == q.identity.commit
    && p.identity.gens.hi == q.identity.gens.hi && p.identity.gens.lo != q.identity.gens.lo
  }

  ghost predicate BegunBy(events: seq<Event>, k: nat, req: CommitAppend)
    requires k <= |events|
  {
    exists n :: 0 <= n < k && events[n].Begin? && events[n].req == req
  }

  /** Every attempt begun with the request's table UUID and commit ID carries its
      identity. */
  ghost predicate CommitIsOwn(events: seq<Event>, k: nat, req: CommitAppend)
    requires k <= |events|
  {
    forall n | 0 <= n < k && events[n].Begin? && events[n].req.tableUuid == req.tableUuid
               && events[n].req.identity.commit == req.identity.commit ::
      events[n].req.identity == req.identity
  }

  lemma {:induction false} AttemptsAreBegun(limit: nat, states: seq<World>, events: seq<Event>, k: nat, a: nat)
    requires Run(limit, states, events) && k < |states| && a in states[k].attempts
    ensures BegunBy(events, k, states[k].attempts[a].req)
  {
    if k > 0 {
      var w := states[k - 1];
      assert Step(limit, w, events[k - 1], states[k]);
      if a in w.attempts {
        AttemptsAreBegun(limit, states, events, k - 1, a);
        assert states[k].attempts[a].req == w.attempts[a].req;
      } else {
        assert events[k - 1].Begin? && events[k - 1].req == states[k].attempts[a].req;
      }
    }
  }

  lemma EntriesAreBegun(limit: nat, states: seq<World>, events: seq<Event>, k: nat, i: nat)
    requires Run(limit, states, events) && k < |states| && i < |states[k].log| && states[k].log[i].AppendEntry?
    ensures BegunBy(events, k, states[k].log[i].req) && states[k].log[i].uuid == states[k].log[i].req.tableUuid
  {
    RunKeepsInv(limit, states, events, k);
    var e := states[k].log[i];
    assert Wrote(e, e.attempt, states[k].attempts[e.attempt]);
    AttemptsAreBegun(limit, states, events, k, e.attempt);
  }

  lemma OwnInLog(limit: nat, states: seq<World>, events: seq<Event>, k: nat, req: CommitAppend)
    requires Run(limit, states, events) && k < |states| && CommitIsOwn(events, k, req)
    ensures OwnCommit(states[k].log, req)
  {
    var log := states[k].log;
    forall j | 0 <= j < |log| && log[j].AppendEntry? && log[j].uuid == req.tableUuid
               && log[j].req.identity.commit == req.identity.commit
      ensures log[j].req.identity == req.identity
    {
      EntriesAreBegun(limit, states, events, k, j);
    }
  }

  /* ---------- Ok and Committed over whole runs, expiry included ---------- */

  lemma ReportedHasLanded(limit: nat, w: World, req: CommitAppend)
    requires Inv(limit, w) && ReportedCommitted(w, req)
    ensures LandedInLog(w.log, req)
  {
    if a :| a in w.attempts && w.attempts[a].req == req && w.attempts[a].result == Some(Ok) {
      assert GoodResult(w.log, w.attempts[a]);
    } else {
      LandedMeansPublished(w.table.value, w.log, req);
    }
  }

  ghost predicate TwinBegun(events: seq<Event>, k: nat, req: CommitAppend)
    requires k <= |events|
  {
    exists p :: BegunBy(events, k, p) && Twins(p, req)
  }

  lemma MatchIsTwin(log: seq<Entry>, i: nat, req: CommitAppend)
    requires i < |log| && MatchesCheckpoint(log[i], req) && log[i].uuid == log[i].req.tableUuid
    ensures Published(log, req) || Twins(log[i].req, req)
  {
    if log[i].req.identity.gens.lo == req.identity.gens.lo {
      assert Publishes(log[i], req.tableUuid, req.identity);
    }
  }

  lemma MatchingEntry(log: seq<Entry>, req: CommitAppend) returns (i: nat)
    requires LandedInLog(log, req)
    ensures i < |log| && log[i].AppendEntry? && MatchesCheckpoint(log[i], req)
  {
    i :| 0 <= i < |log| && MatchesCheckpoint(log[i], req);
  }

  /** A report is wrong only if a twin of the request was begun before. */
  lemma WrongReportHasTwin(limit: nat, states: seq<World>, events: seq<Event>, k: nat, req: CommitAppend)
    requires Run(limit, states, events) && k < |states| && ReportedCommitted(states[k], req)
    ensures Published(states[k].log, req) || TwinBegun(events, k, req)
  {
    RunKeepsInv(limit, states, events, k);
    ReportedHasLanded(limit, states[k], req);
    var i := MatchingEntry(states[k].log, req);
    EntriesAreBegun(limit, states, events, k, i);
    MatchIsTwin(states[k].log, i, req);
  }

  lemma OwnHasNoTwin(events: seq<Event>, k: nat, req: CommitAppend)
    requires k <= |events| && CommitIsOwn(events, k, req)
    ensures !TwinBegun(events, k, req)
  {
    forall p | BegunBy(events, k, p)
      ensures !Twins(p, req)
    {
      var n :| 0 <= n < k && events[n].Begin? && events[n].req == p;
    }
  }

  lemma OnceInRun(limit: nat, states: seq<World>, events: seq<Event>, k: nat, req: CommitAppend)
    requires Run(limit, states, events) && k < |states| && Published(states[k].log, req)
    ensures PublishedOnce(states[k].log, req)
  {
    RunKeepsInv(limit, states, events, k);
    OncePublished(states[k].log, req);
  }

  lemma OwnReportIsPublished(limit: nat, states: seq<World>, events: seq<Event>, k: nat, req: CommitAppend)
    requires Run(limit, states, events) && k < |states| && ReportedCommitted(states[k], req)
    requires CommitIsOwn(events, k, req)
    ensures Published(states[k].log, req)
  {
    WrongReportHasTwin(limit, states, events, k, req);
    OwnHasNoTwin(events, k, req);
  }

  /** If the request's commit ID was never begun with another identity, Ok and
      Committed mean that this exact identity was published, once, whatever has been
      expired since. */
  lemma ReportIsExact(limit: nat, states: seq<World>, events: seq<Event>, k: nat, req: CommitAppend)
    requires Run(limit, states, events) && k < |states| && ReportedCommitted(states[k], req)
    requires CommitIsOwn(events, k, req)
    ensures PublishedOnce(states[k].log, req)
  {
    OwnReportIsPublished(limit, states, events, k, req);
    OnceInRun(limit, states, events, k, req);
  }

  /** When history has been expired, the status of a published append whose commit ID
      is its own is Committed exactly while its snapshot is retained or it is still its
      writer's newest append; otherwise it is NotCommitted, although it was published.
      A retry is then refused by the guard, never published twice. */
  lemma StatusAfterExpiry(
      limit: nat, states: seq<World>, events: seq<Event>, k: nat, req: CommitAppend, i: nat, max: nat)
    requires Run(limit, states, events) && k < |states| && CommitIsOwn(events, k, req)
    requires states[k].table.Some? && states[k].table.value.uuid == req.tableUuid
    requires i < |states[k].log| && Publishes(states[k].log[i], req.tableUuid, req.identity)
    ensures var t, log := states[k].table.value, states[k].log;
            && StatusOf(Loaded(t), req) ==
               (if SnapshotAt(log, i) in t.snapshots || IsNewestAppend(log, i, t.uuid, req.identity.writer)
                then Committed else NotCommitted)
            && GuardVerdict(t, req, max) != Admit
  {
    RunKeepsInv(limit, states, events, k);
    OwnInLog(limit, states, events, k, req);
    StatusOfOwnCommit(states[k].table.value, states[k].log, req, i, max);
  }

  lemma StatusOfOwnCommit(t: TableMetadata, log: seq<Entry>, req: CommitAppend, i: nat, max: nat)
    requires GoodLog(log) && Reflects(t, log) && OwnCommit(log, req) && t.uuid == req.tableUuid
    requires i < |log| && Publishes(log[i], req.tableUuid, req.identity)
    ensures StatusOf(Loaded(t), req) ==
            if SnapshotAt(log, i) in t.snapshots || IsNewestAppend(log, i, t.uuid, req.identity.writer)
            then Committed else NotCommitted
    ensures GuardVerdict(t, req, max) != Admit
  {
    assert ValidIdentity(log[i].uuid, log[i].req.identity) && log[i].req.tableUuid == log[i].uuid;
    NoReuse(t, log, req, i);
    OwnCheckpoint(t, log, req.identity.writer);
    var n := NewestIndex(log, t.uuid, req.identity.writer);
    CheckpointVisible(t, log, req, i, n);
    if InHistory(t, req) {
      var s :| s in t.snapshots && CarriesIdentity(s.summary, req.tableUuid, req.identity);
      SnapshotOfIdentity(s, t, log, req, i);
    }
    PublishedSummaryCarriesIdentity(log[i].req, ENGINE_VERSION);
  }

  lemma CheckpointVisible(t: TableMetadata, log: seq<Entry>, req: CommitAppend, i: nat, n: nat)
    requires GoodLog(log) && RegistryReflects(t.properties, log, t.uuid) && t.uuid == req.tableUuid
    requires i <= n < |log| && Publishes(log[i], req.tableUuid, req.identity)
    requires IsNewestAppend(log, n, t.uuid, req.identity.writer)
    ensures InCheckpoint(t, req) <==> n == i
    ensures IsNewestAppend(log, i, t.uuid, req.identity.writer) <==> n == i
    ensures req.identity.gens.lo <= log[n].req.identity.gens.hi
  {
    OwnCheckpoint(t, log, req.identity.writer);
    var m := NewestIndex(log, t.uuid, req.identity.writer);
    assert m == n;
    assert ValidIdentity(log[n].uuid, log[n].req.identity) && ValidIdentity(log[i].uuid, log[i].req.identity);
    assert i < n ==> Before(log[i].req.identity, log[n].req.identity);
  }

  lemma SnapshotOfIdentity(s: Snapshot, t: TableMetadata, log: seq<Entry>, req: CommitAppend, i: nat)
    requires GoodLog(log) && FromLog(s, log, t.uuid) && t.uuid == req.tableUuid
    requires CarriesIdentity(s.summary, req.tableUuid, req.identity)
    requires i < |log| && Publishes(log[i], req.tableUuid, req.identity)
    ensures s == SnapshotAt(log, i)
  {
    var j :| 0 <= j < |log| && log[j].uuid == t.uuid && s == SnapshotAt(log, j);
    CarriedCommit(s.summary, t.uuid, req.identity);
    if log[j].AppendEntry? {
      PublishedSummaryRoundTrip(log[j].req, ENGINE_VERSION);
      assert ValidIdentity(log[i].uuid, log[i].req.identity);
      IdentityPublishedOnce(log, i, j, t.uuid, req.identity);
    }
  }

  /* ---------- The limit of exactness ---------- */

  lemma ExtendRun(limit: nat, states: seq<World>, events: seq<Event>, ev: Event, w: World)
    requires Run(limit, states, events) && Step(limit, states[|events|], ev, w)
    ensures Run(limit, states + [w], events + [ev])
  {
  }

  lemma EmptyTableAdmits(p: CommitAppend)
    requires ValidIdentity(p.tableUuid, p.identity)
    ensures GuardVerdict(TableMetadata(p.tableUuid, [], None, map[]), p, 1) == Admit
  {
    assert CheckpointKeys(map[]) == {};
  }

  /** All that is left of `p` is its checkpoint. */
  ghost predicate OnlyCheckpointLeft(t: TableMetadata, p: CommitAppend) {
    && t.uuid == p.tableUuid && t.snapshots == [Snapshot(11, Some(10), map[])]
    && t.properties == map[OwnKey(p.identity.writer) := Encode(AppendCheckpoint(p.identity, 0))]
  }

  lemma ExpiredTableAcceptsTwin(t: TableMetadata, p: CommitAppend, q: CommitAppend)
    requires Twins(p, q) && ValidIdentity(p.tableUuid, p.identity) && ValidIdentity(q.tableUuid, q.identity)
    requires OnlyCheckpointLeft(t, p)
    ensures GuardVerdict(t, q, 1) == AlreadyCommitted
  {
    assert ParseCheckpoint(t.properties, p.identity.writer) == Success(Some(AppendCheckpoint(p.identity, 0)));
    assert forall s | s in t.snapshots :: s == Snapshot(11, Some(10), map[]);
  }

  /** A request is published, a compaction moves the head, the first snapshot is
      expired, and a twin of the request is begun and loads the table. */
  function TwinEvents(p: CommitAppend, q: CommitAppend): seq<Event> {
    PublishEvents(p) + ExpireEvents() + [Begin(1, q, 1, 0), Load(1)]
  }

  function PublishEvents(p: CommitAppend): seq<Event> {
    [Create(p.tableUuid, map[]), Begin(0, p, 1, 0), Load(0), Apply(0, 10)]
  }

  function ExpireEvents(): seq<Event> {
    [Replace(11, map[]), Expire([Snapshot(11, Some(10), map[])])]
  }

  ghost predicate Reached(events: seq<Event>, w: World) {
    exists states :: Run(1, states, events) && states[|events|] == w
  }

  lemma ReachNext(events: seq<Event>, w: World, ev: Event, w': World)
    requires Reached(events, w) && Step(1, w, ev, w')
    ensures Reached(events + [ev], w')
  {
    var states :| Run(1, states, events) && states[|events|] == w;
    ExtendRun(1, states, events, ev, w');
    assert (states + [w'])[|events + [ev]|] == w';
  }

  lemma PublishFirst(p: CommitAppend) returns (w: World)
    requires ValidIdentity(p.tableUuid, p.identity) && Publishable(p)
    ensures Reached(PublishEvents(p), w)
    ensures w.table.Some? && 1 !in w.attempts && w.log == [AppendEntry(p.tableUuid, 10, p, 0, 0)]
    ensures var t := w.table.value;
            && t.uuid == p.tableUuid && t.current == Some(10) && |t.snapshots| == 1 && t.snapshots[0].id == 10
            && t.properties == map[OwnKey(p.identity.writer) := Encode(AppendCheckpoint(p.identity, 0))]
  {
    var u := p.tableUuid;
    var t0 := TableMetadata(u, [], None, map[]);
    var w1 := World(Some(t0), map[], [], {u});
    assert CheckpointKeys(map[]) == {};
    assert Run(1, [EMPTY, w1], [Create(u, map[])]);
    var w2 := Update(w1, 0, Attempt(p, 1, 0, Idle, None));
    ReachNext([Create(u, map[])], w1, Begin(0, p, 1, 0), w2);
    EmptyTableAdmits(p);
    var w3 := Update(w2, 0, Attempt(p, 1, 0, Sent(t0, 0), None));
    ReachNext([Create(u, map[])] + [Begin(0, p, 1, 0)], w2, Load(0), w3);
    var x := w3.attempts[0];
    w := World(Some(ApplyAppend(t0, x, 10)), w3.attempts[0 := x.(wire := Applied)],
               [] + [AppendEntry(u, 10, p, 0, 0)], {u});
    ReachNext([Create(u, map[])] + [Begin(0, p, 1, 0)] + [Load(0)], w3, Apply(0, 10), w);
    assert [Create(u, map[])] + [Begin(0, p, 1, 0)] + [Load(0)] + [Apply(0, 10)] == PublishEvents(p);
  }

  lemma ExpireIt(p: CommitAppend, events: seq<Event>, w: World) returns (w': World)
    requires Reached(events, w)
    requires w.table.Some? && 1 !in w.attempts && w.log == [AppendEntry(p.tableUuid, 10, p, 0, 0)]
    requires var t := w.table.value;
             && t.uuid == p.tableUuid && t.current == Some(10) && |t.snapshots| == 1 && t.snapshots[0].id == 10
             && t.properties == map[OwnKey(p.identity.writer) := Encode(AppendCheckpoint(p.identity, 0))]
    ensures Reached(events + ExpireEvents(), w')
    ensures w'.table.Some? && OnlyCheckpointLeft(w'.table.value, p) && 1 !in w'.attempts
    ensures w'.log == [AppendEntry(p.tableUuid, 10, p, 0, 0), ReplaceEntry(p.tableUuid, 11, map[])]
  {
    var t := w.table.value;
    var kept := [Snapshot(11, Some(10), map[])];
    var t1 := ApplyReplace(t, 11, map[]);
    var w1 := w.(table := Some(t1), log := w.log + [ReplaceEntry(p.tableUuid, 11, map[])]);
    ReachNext(events, w, Replace(11, map[]), w1);
    assert t1.snapshots == [t.snapshots[0], kept[0]];
    w' := w1.(table := Some(t1.(snapshots := kept)));
    ReachNext(events + [Replace(11, map[])], w1, Expire(kept), w');
    assert events + [Replace(11, map[])] + [Expire(kept)] == events + ExpireEvents();
  }

  /** Once the snapshot is expired a twin of the request is told Ok, although its
      identity was never published. */
  lemma TwinIsToldOk(p: CommitAppend, q: CommitAppend) returns (states: seq<World>)
    requires Twins(p, q) && ValidIdentity(p.tableUuid, p.identity) && ValidIdentity(q.tableUuid, q.identity)
    requires Publishable(p) && Publishable(q)
    ensures Run(1, states, TwinEvents(p, q))
    ensures var w := states[|TwinEvents(p, q)|];
            1 in w.attempts && w.attempts[1].req == q && w.attempts[1].result == Some(Ok) && !Published(w.log, q)
  {
    var w := PublishFirst(p);
    var w6 := ExpireIt(p, PublishEvents(p), w);
    var before := PublishEvents(p) + ExpireEvents();
    var w7 := Update(w6, 1, Attempt(q, 1, 0, Idle, None));
    ReachNext(before, w6, Begin(1, q, 1, 0), w7);
    ExpiredTableAcceptsTwin(w6.table.value, p, q);
    var w8 := Update(w7, 1, Attempt(q, 1, 0, Idle, Some(Ok)));
    ReachNext(before + [Begin(1, q, 1, 0)], w7, Load(1), w8);
    assert before + [Begin(1, q, 1, 0)] + [Load(1)] == TwinEvents(p, q);
    states :| Run(1, states, TwinEvents(p, q)) && states[|TwinEvents(p, q)|] == w8;
  }

  const FIRST := CommitAppend(1, Identity(1, 1, 7, GenerationRange(2, 5)), map[])
  const REUSED := CommitAppend(1, Identity(1, 1, 7, GenerationRange(3, 5)), map[])

  /** One commit ID for generations 2 to 5 and then for 3 to 5. */
  lemma ReusedCommitIdAfterExpiry() returns (states: seq<World>)
    ensures Run(1, states, TwinEvents(FIRST, REUSED))
    ensures var w := states[|TwinEvents(FIRST, REUSED)|];
            1 in w.attempts && w.attempts[1].req == REUSED && w.attempts[1].result == Some(Ok)
            && !Published(w.log, REUSED)
  {
    states := TwinIsToldOk(FIRST, REUSED);
  }

  /* ---------- Exactly when reports are exact ---------- */

  ghost predicate BeginsOnly(events: seq<Event>, reqs: set<CommitAppend>) {
    forall n | 0 <= n < |events| && events[n].Begin? :: events[n].req in reqs
  }

  ghost predicate ExactReports(states: seq<World>, reqs: set<CommitAppend>) {
    forall k, req | 0 <= k < |states| && req in reqs && ReportedCommitted(states[k], req) ::
      Published(states[k].log, req)
  }

  ghost predicate AlwaysExact(reqs: set<CommitAppend>) {
    forall limit: nat, states, events | Run(limit, states, events) && BeginsOnly(events, reqs) ::
      ExactReports(states, reqs)
  }

  ghost predicate NoTwins(reqs: set<CommitAppend>) {
    forall p, q | p in reqs && q in reqs :: !Twins(p, q)
  }

  lemma NoTwinsMeansExact(reqs: set<CommitAppend>, limit: nat, states: seq<World>, events: seq<Event>)
    requires NoTwins(reqs) && Run(limit, states, events) && BeginsOnly(events, reqs)
    ensures ExactReports(states, reqs)
  {
    forall k, req | 0 <= k < |states| && req in reqs && ReportedCommitted(states[k], req)
      ensures Published(states[k].log, req)
    {
      WrongReportHasTwin(limit, states, events, k, req);
    }
  }

  lemma TwinsMeanInexact(reqs: set<CommitAppend>, p: CommitAppend, q: CommitAppend)
    requires p in reqs && q in reqs && Twins(p, q)
    requires forall r | r in reqs :: ValidIdentity(r.tableUuid, r.identity) && Publishable(r)
    ensures !AlwaysExact(reqs)
  {
    var states := TwinIsToldOk(p, q);
    var events := TwinEvents(p, q);
    assert BeginsOnly(events, reqs);
    var w := states[|events|];
    assert ReportedCommitted(w, q);
    assert !ExactReports(states, reqs);
  }

  /** For every set of valid requests: Ok and Committed mean in every run over these
      requests, with expiry at any time, that the exact identity was published, if and
      only if no two of them are twins. Unique commit IDs are enough. */
  lemma ExactIffNoTwins(reqs: set<CommitAppend>)
    requires forall r | r in reqs :: ValidIdentity(r.tableUuid, r.identity) && Publishable(r)
    ensures AlwaysExact(reqs) <==> NoTwins(reqs)
  {
    if NoTwins(reqs) {
      forall limit: nat, states, events | Run(limit, states, events) && BeginsOnly(events, reqs)
        ensures ExactReports(states, reqs)
      {
        NoTwinsMeansExact(reqs, limit, states, events);
      }
    } else {
      var p, q :| p in reqs && q in reqs && Twins(p, q);
      TwinsMeanInexact(reqs, p, q);
    }
  }
}
