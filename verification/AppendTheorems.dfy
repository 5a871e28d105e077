/**
What the append protocol guarantees, stated over whole runs.
*/
module AppendTheorems {
  import opened Wrappers
  import opened WriteProtocol
  import opened AppendGuard
  import opened CommitError
  import opened AppendLog
  import opened AppendProtocol
  import opened AppendSafety

  /* ---------- Generations ---------- */

  /** In every run each (table UUID, writer, generation) is published by at most
      one append, and one writer's appends have strictly increasing ranges and
      non-decreasing epochs, whatever has been expired from history since. */
  lemma GenerationsPublishedOnce(limit: nat, states: seq<World>, events: seq<Event>, k: nat, u: Uuid, w: Uuid)
    requires Run(limit, states, events) && k < |states|
    ensures forall i, j, g | 0 <= i < |states[k].log| && 0 <= j < |states[k].log|
                             && IsAppend(states[k].log[i], u, w) && IsAppend(states[k].log[j], u, w)
                             && Contains(states[k].log[i].req.identity.gens, g)
                             && Contains(states[k].log[j].req.identity.gens, g) ::
              i == j
    ensures forall i, j | 0 <= i < j < |states[k].log|
                          && IsAppend(states[k].log[i], u, w) && IsAppend(states[k].log[j], u, w) ::
              Before(states[k].log[i].req.identity, states[k].log[j].req.identity)
  {
    RunKeepsInv(limit, states, events, k);
    var log := states[k].log;
    forall i, j, g | 0 <= i < |log| && 0 <= j < |log| && IsAppend(log[i], u, w) && IsAppend(log[j], u, w)
                     && Contains(log[i].req.identity.gens, g) && Contains(log[j].req.identity.gens, g)
      ensures i == j
    {
      GenerationsDisjoint(log, i, j, u, w, g);
    }
  }

  /* ---------- The checkpoint registry ---------- */

  /** In every reachable table a writer has a checkpoint exactly when it has
      published to this incarnation; the checkpoint spells its newest append;
      every entry passes full validation; the bound holds. */
  lemma RegistryAgreesWithHistory(limit: nat, states: seq<World>, events: seq<Event>, k: nat, w: Uuid)
    requires Run(limit, states, events) && k < |states| && states[k].table.Some?
    ensures |CheckpointKeys(states[k].table.value.properties)| <= limit
    ensures RegistryWellFormed(states[k].table.value.properties)
    ensures CheckpointIsNewest(states[k].table.value, states[k].log, w)
  {
    RunKeepsInv(limit, states, events, k);
    RegistryOfWriter(states[k].table.value, states[k].log, w);
  }

  ghost predicate IsNewestAppend(log: seq<Entry>, i: int, u: Uuid, w: Uuid) {
    0 <= i < |log| && IsAppend(log[i], u, w) && forall j | i < j < |log| :: !IsAppend(log[j], u, w)
  }

  /** The writer has a checkpoint iff it has published, and it decodes to the
      epoch, upper generation and commit of the writer's newest append. */
  ghost predicate CheckpointIsNewest(t: TableMetadata, log: seq<Entry>, w: Uuid) {
    && (OwnKey(w) in t.properties <==> exists i :: 0 <= i < |log| && IsAppend(log[i], t.uuid, w))
    && (OwnKey(w) in t.properties ==>
          exists i :: IsNewestAppend(log, i, t.uuid, w)
                      && Decode(t.properties[OwnKey(w)]) ==
                         Success(AppendCheckpoint(log[i].req.identity, log[i].nowMs)))
  }

  lemma RegistryOfWriter(t: TableMetadata, log: seq<Entry>, w: Uuid)
    requires GoodLog(log) && RegistryReflects(t.properties, log, t.uuid)
    ensures RegistryWellFormed(t.properties)
    ensures CheckpointIsNewest(t, log, w)
  {
    RegistryIsWellFormed(t.properties, log, t.uuid);
    OwnCheckpoint(t, log, w);
    var i := NewestIndex(log, t.uuid, w);
    assert i >= 0 ==> IsNewestAppend(log, i, t.uuid, w);
  }

  /** Publishing an append changes no other writer's checkpoint. */
  lemma AppendAltersOnlyOwnCheckpoint(limit: nat, w: World, a: nat, snap: int, w': World, other: Uuid)
    requires Step(limit, w, Apply(a, snap), w') && other != w.attempts[a].req.identity.writer
    ensures ParseCheckpoint(w'.table.value.properties, other) == ParseCheckpoint(w.table.value.properties, other)
  {
    assert OwnKey(other) != OwnKey(w.attempts[a].req.identity.writer);
  }

  /* ---------- Requests ---------- */

  ghost predicate Published(log: seq<Entry>, req: CommitAppend) {
    exists i :: 0 <= i < |log| && Publishes(log[i], req.tableUuid, req.identity)
  }

  ghost predicate PublishedOnce(log: seq<Entry>, req: CommitAppend) {
    exists i :: 0 <= i < |log| && Publishes(log[i], req.tableUuid, req.identity)
                && forall j | 0 <= j < |log| && Publishes(log[j], req.tableUuid, req.identity) :: j == i
  }

  /** A request that comes after all of its writer's appends is not among them. */
  lemma LastIsUnpublished(log: seq<Entry>, req: CommitAppend)
    requires ValidIdentity(req.tableUuid, req.identity)
    requires forall i | 0 <= i < |log| && IsAppend(log[i], req.tableUuid, req.identity.writer) ::
               Before(log[i].req.identity, req.identity)
    ensures !Published(log, req)
  {
  }

  /** Only a request that has never been published can be applied: however many
      attempts carry it, and whichever of them is still on the wire, one lands. */
  lemma AppliedRequestIsNew(limit: nat, w: World, a: nat, snap: int, w': World)
    requires Inv(limit, w) && Step(limit, w, Apply(a, snap), w')
    ensures !Published(w.log, w.attempts[a].req) && Published(w'.log, w.attempts[a].req)
  {
    var x := w.attempts[a];
    AdmittedComesLast(w.log, x, w.table.value, limit);
    LastIsUnpublished(w.log, x.req);
    assert Publishes(w'.log[|w.log|], x.req.tableUuid, x.req.identity);
  }

  /** An attempt on a published request changes nothing in the catalog, whatever
      it does next. */
  lemma PublishedRequestIsInert(limit: nat, w: World, ev: Event, w': World, a: nat)
    requires Inv(limit, w) && Step(limit, w, ev, w')
    requires a in w.attempts && Published(w.log, w.attempts[a].req)
    requires ev in {Load(a), Reply(a), Rebase(a), Refuse(a)}
             || (ev.Apply? && ev.a == a)
             || (ev.FailBeforeDispatch? && ev.a == a) || (ev.FailAfterDispatch? && ev.a == a)
    ensures w'.table == w.table && w'.log == w.log
  {
    if ev.Apply? {
      AppliedRequestIsNew(limit, w, a, ev.snap, w');
    }
  }

  /** The log only grows. */
  lemma {:induction false} LogGrows(limit: nat, states: seq<World>, events: seq<Event>, k: nat, m: nat)
    requires Run(limit, states, events) && k <= m < |states|
    ensures states[k].log <= states[m].log
  {
    if k < m {
      LogGrows(limit, states, events, k, m - 1);
      assert Step(limit, states[m - 1], events[m - 1], states[m]);
    }
  }

  lemma RefusedStaysRefused(limit: nat, w: World, ev: Event, w': World, a: nat)
    requires Step(limit, w, ev, w') && a in w.attempts && w.attempts[a].result.Some?
    requires w.attempts[a].wire.Idle? || w.attempts[a].wire.Refused?
    ensures a in w'.attempts && w'.attempts[a] == w.attempts[a]
  {
  }

  lemma {:induction false} FrozenOnceFailed(limit: nat, states: seq<World>, events: seq<Event>, k: nat, m: nat, a: nat)
    requires Run(limit, states, events) && k <= m < |states|
    requires a in states[k].attempts && states[k].attempts[a].result.Some?
    requires states[k].attempts[a].wire.Idle? || states[k].attempts[a].wire.Refused?
    ensures a in states[m].attempts && states[m].attempts[a] == states[k].attempts[a]
  {
    if k < m {
      FrozenOnceFailed(limit, states, events, k, m - 1, a);
      RefusedStaysRefused(limit, states[m - 1], events[m - 1], states[m], a);
    }
  }

  /** An attempt that has reported a definite failure never publishes, then or later. */
  lemma DefiniteFailureIsFinal(limit: nat, states: seq<World>, events: seq<Event>, k: nat, m: nat, a: nat)
    requires Run(limit, states, events) && k <= m < |states|
    requires a in states[k].attempts && states[k].attempts[a].result.Some?
    requires DefiniteFailure(states[k].attempts[a].result.value)
    ensures forall i | 0 <= i < |states[m].log| && states[m].log[i].AppendEntry? :: states[m].log[i].attempt != a
  {
    RunKeepsInv(limit, states, events, k);
    assert GoodResult(states[k].log, states[k].attempts[a]);
    FrozenOnceFailed(limit, states, events, k, m, a);
    RunKeepsInv(limit, states, events, m);
  }

  /** A published append whose reply is lost is reported as success or as
      unknown, never as a definite failure. */
  lemma LostReplyIsNeverDefiniteFailure(limit: nat, states: seq<World>, events: seq<Event>, k: nat, i: nat)
    requires Run(limit, states, events) && k < |states|
    requires i < |states[k].log| && states[k].log[i].AppendEntry?
    ensures var e := states[k].log[i];
            && e.attempt in states[k].attempts && states[k].attempts[e.attempt].req == e.req
            && states[k].attempts[e.attempt].result in {None, Some(Ok), Some(StateUnknown)}
  {
    RunKeepsInv(limit, states, events, k);
    var x := states[k].attempts[states[k].log[i].attempt];
    assert x.wire.Applied?;
    assert GoodResult(states[k].log, x);
  }

  lemma LandedOnce(log: seq<Entry>, req: CommitAppend, i: nat)
    requires GoodLog(log) && i < |log| && MatchesCheckpoint(log[i], req)
    ensures forall j | 0 <= j < |log| && MatchesCheckpoint(log[j], req) :: j == i
  {
    assert ValidIdentity(log[i].uuid, log[i].req.identity);
    forall j | 0 <= j < |log| && MatchesCheckpoint(log[j], req)
      ensures j == i
    {
      assert ValidIdentity(log[j].uuid, log[j].req.identity);
      GenerationsDisjoint(log, i, j, req.tableUuid, req.identity.writer, req.identity.gens.hi);
    }
  }

  /** Every attempt that reports Ok leaves exactly one published entry that agrees
      with its request on writer, commit, epoch and upper generation. */
  lemma OkMeansLandedOnce(limit: nat, states: seq<World>, events: seq<Event>, k: nat, a: nat) returns (i: nat)
    requires Run(limit, states, events) && k < |states|
    requires a in states[k].attempts && states[k].attempts[a].result == Some(Ok)
    ensures i < |states[k].log| && MatchesCheckpoint(states[k].log[i], states[k].attempts[a].req)
    ensures forall j | 0 <= j < |states[k].log| && MatchesCheckpoint(states[k].log[j], states[k].attempts[a].req) ::
              j == i
  {
    RunKeepsInv(limit, states, events, k);
    var log, req := states[k].log, states[k].attempts[a].req;
    assert LandedInLog(log, req) by {
      assert GoodResult(log, states[k].attempts[a]);
    }
    i :| 0 <= i < |log| && MatchesCheckpoint(log[i], req);
    LandedOnce(log, req, i);
  }

  /* ---------- With history kept ---------- */

  ghost predicate KeptHistory(t: TableMetadata, log: seq<Entry>) {
    forall i | 0 <= i < |log| && log[i].uuid == t.uuid :: SnapshotAt(log, i) in t.snapshots
  }

  ghost predicate DistinctCommits(log: seq<Entry>) {
    forall i, j | 0 <= i < j < |log| && log[i].AppendEntry? && log[j].AppendEntry? && log[i].uuid == log[j].uuid ::
      log[i].req.identity.commit != log[j].req.identity.commit
  }

  ghost predicate HistoryInv(w: World) {
    && (w.table.Some? ==> KeptHistory(w.table.value, w.log))
    && (forall a | a in w.attempts && w.attempts[a].wire.Sent? && w.attempts[a].wire.at <= |w.log| ::
          KeptHistory(w.attempts[a].wire.base, w.log[..w.attempts[a].wire.at]))
    && DistinctCommits(w.log)
    && (forall a | a in w.attempts :: ExactResult(w.log, w.attempts[a]))
  }

  ghost predicate ExactResult(log: seq<Entry>, x: Attempt) {
    x.wire.Applied? || x.result == Some(Ok) ==> Published(log, x.req)
  }

  /** With the whole history in view the guard itself keeps commit IDs unique. */
  lemma AdmitMeansFreshCommit(base: TableMetadata, log: seq<Entry>, req: CommitAppend, limit: nat)
    requires GoodLog(log) && Reflects(base, log) && KeptHistory(base, log) && GuardVerdict(base, req, limit) == Admit
    ensures forall i | 0 <= i < |log| && log[i].AppendEntry? && log[i].uuid == base.uuid ::
              log[i].req.identity.commit != req.identity.commit
  {
    forall i | 0 <= i < |log| && log[i].AppendEntry? && log[i].uuid == base.uuid
      ensures log[i].req.identity.commit != req.identity.commit
    {
      var s := SnapshotAt(log, i);
      PublishedSummaryRoundTrip(log[i].req, ENGINE_VERSION);
      CarriedCommit(s.summary, base.uuid, log[i].req.identity);
      assert s in base.snapshots;
    }
  }

  lemma {:induction false} KeptHistoryGrows(t: TableMetadata, t': TableMetadata, log: seq<Entry>, e: Entry)
    requires KeptHistory(t, log) && t'.uuid == t.uuid == e.uuid && t.current == LastSnap(log, t.uuid)
    requires t'.snapshots == t.snapshots + [Snapshot(e.snap, t.current, EntrySummary(e))]
    ensures KeptHistory(t', log + [e])
  {
    var log' := log + [e];
    assert log'[..|log|] == log;
    forall i | 0 <= i < |log'| && log'[i].uuid == t.uuid
      ensures SnapshotAt(log', i) in t'.snapshots
    {
      if i < |log| {
        SnapshotAtExtended(log, [e], i);
      } else {
        assert SnapshotAt(log', i) == t'.snapshots[|t.snapshots|];
      }
    }
  }

  lemma ExtendDistinctCommits(log: seq<Entry>, at: nat, e: Entry)
    requires DistinctCommits(log) && at <= |log| && e.AppendEntry?
    requires forall j | at <= j < |log| :: log[j].uuid != e.uuid
    requires forall i | 0 <= i < |log[..at]| && log[..at][i].AppendEntry? && log[..at][i].uuid == e.uuid ::
               log[..at][i].req.identity.commit != e.req.identity.commit
    ensures DistinctCommits(log + [e])
  {
    assert forall i | 0 <= i < at :: log[..at][i] == log[i];
  }

  lemma {:induction false} ApplyKeepsCommits(limit: nat, log: seq<Entry>, x: Attempt, t: TableMetadata, e: Entry)
    requires GoodLog(log) && DistinctCommits(log) && t.current == LastSnap(log, t.uuid)
    requires GoodWire(limit, log, x) && x.wire.Sent? && KeptHistory(x.wire.base, log[..x.wire.at])
    requires x.wire.base.uuid == t.uuid && x.wire.base.current == t.current
    requires e.AppendEntry? && e.uuid == t.uuid && e.req == x.req
    ensures DistinctCommits(log + [e])
  {
    SameHeadMeansQuiet(log, x.wire.at, t.uuid);
    PrefixOfGoodLog(log, x.wire.at);
    AdmitMeansFreshCommit(x.wire.base, log[..x.wire.at], x.req, x.limit);
    ExtendDistinctCommits(log, x.wire.at, e);
  }

  lemma ApplyKeepsHistory(limit: nat, w: World, a: nat, snap: int, w': World)
    requires Inv(limit, w) && HistoryInv(w) && Step(limit, w, Apply(a, snap), w')
    ensures HistoryInv(w')
  {
    var x, t := w.attempts[a], w.table.value;
    var e := AppendEntry(t.uuid, snap, x.req, x.nowMs, a);
    assert GoodWire(limit, w.log, x);
    ApplyKeepsCommits(limit, w.log, x, t, e);
    KeptHistoryGrows(t, w'.table.value, w.log, e);
    BasesKeepHistory(w, w');
    AppliedRequestIsNew(limit, w, a, snap, w');
    ResultsStayExact(w, w', {a});
  }

  lemma ReplaceKeepsCommits(log: seq<Entry>, e: Entry)
    requires DistinctCommits(log) && e.ReplaceEntry?
    ensures DistinctCommits(log + [e])
  {
  }

  lemma ReplaceKeepsHistory(limit: nat, w: World, snap: int, marks: Summary, w': World)
    requires Inv(limit, w) && HistoryInv(w) && Step(limit, w, Replace(snap, marks), w')
    ensures HistoryInv(w')
  {
    var e := ReplaceEntry(w.table.value.uuid, snap, marks);
    ReplaceKeepsCommits(w.log, e);
    KeptHistoryGrows(w.table.value, w'.table.value, w.log, e);
    BasesKeepHistory(w, w');
    ResultsStayExact(w, w', {});
  }

  lemma UpdateKeepsHistory(w: World, a: nat, x: Attempt)
    requires HistoryInv(w) && ExactResult(w.log, x)
    requires x.wire.Sent? && x.wire.at <= |w.log| ==> KeptHistory(x.wire.base, w.log[..x.wire.at])
    ensures HistoryInv(Update(w, a, x))
  {
  }

  /** Events of an attempt other than its load and its publication. */
  ghost predicate AttemptEvent(ev: Event) {
    ev.Begin? || ev.FailBeforeDispatch? || ev.FailAfterDispatch? || ev.Reply? || ev.Rebase? || ev.Refuse?
  }

  lemma AttemptKeepsHistory(limit: nat, w: World, ev: Event, w': World)
    requires HistoryInv(w) && Step(limit, w, ev, w') && AttemptEvent(ev)
    ensures HistoryInv(w')
  {
    var x := w'.attempts[ev.a];
    assert w' == Update(w, ev.a, x);
    assert ev.a in w.attempts ==> ExactResult(w.log, w.attempts[ev.a]);
    UpdateKeepsHistory(w, ev.a, x);
  }

  lemma LoadKeepsHistory(limit: nat, w: World, a: nat, w': World)
    requires Inv(limit, w) && HistoryInv(w) && Step(limit, w, Load(a), w')
    ensures HistoryInv(w')
  {
    assert w.log[..|w.log|] == w.log;
    LoadIsExact(limit, w, a);
    UpdateKeepsHistory(w, a, w'.attempts[a]);
  }

  lemma TableStepKeepsHistory(limit: nat, w: World, ev: Event, w': World)
    requires Inv(limit, w) && HistoryInv(w) && Step(limit, w, ev, w')
    requires ev.SetProperties? || ev.Drop? || ev.Create?
    ensures HistoryInv(w')
  {
    assert w'.attempts == w.attempts && w'.log == w.log;
  }

  lemma StepKeepsHistory(limit: nat, w: World, ev: Event, w': World)
    requires Inv(limit, w) && HistoryInv(w) && Step(limit, w, ev, w') && !ev.Expire?
    ensures HistoryInv(w')
  {
    if AttemptEvent(ev) {
      AttemptKeepsHistory(limit, w, ev, w');
    } else if ev.Load? {
      LoadKeepsHistory(limit, w, ev.a, w');
    } else if ev.Apply? {
      ApplyKeepsHistory(limit, w, ev.a, ev.snap, w');
    } else if ev.Replace? {
      ReplaceKeepsHistory(limit, w, ev.snap, ev.marks, w');
    } else {
      TableStepKeepsHistory(limit, w, ev, w');
    }
  }

  lemma LoadIsExact(limit: nat, w: World, a: nat)
    requires Inv(limit, w) && HistoryInv(w) && Running(w, a) && w.attempts[a].wire.Idle? && w.table.Some?
    ensures ExactResult(w.log, AfterLoad(w.attempts[a], w.table.value, |w.log|))
  {
    var x, t := w.attempts[a], w.table.value;
    if GuardVerdict(t, x.req, x.limit) == AlreadyCommitted {
      StatusIsExact(t, w.log, x.req);
    }
  }

  lemma ResultsStayExact(w: World, w': World, changed: set<nat>)
    requires HistoryInv(w) && w.log <= w'.log
    requires forall b | b in w'.attempts ::
               if b in changed then Published(w'.log, w'.attempts[b].req)
               else b in w.attempts && w.attempts[b] == w'.attempts[b]
    ensures forall b | b in w'.attempts :: ExactResult(w'.log, w'.attempts[b])
  {
    forall b | b in w'.attempts && b !in changed
      ensures ExactResult(w'.log, w'.attempts[b])
    {
      if Published(w.log, w.attempts[b].req) {
        var i :| 0 <= i < |w.log| && Publishes(w.log[i], w.attempts[b].req.tableUuid, w.attempts[b].req.identity);
        assert w'.log[i] == w.log[i];
      }
    }
  }

  lemma BasesKeepHistory(w: World, w': World)
    requires HistoryInv(w) && w.log <= w'.log
    requires forall a | a in w.attempts && w.attempts[a].wire.Sent? :: w.attempts[a].wire.at <= |w.log|
    requires forall a | a in w'.attempts && w'.attempts[a].wire.Sent? ::
               a in w.attempts && w.attempts[a].wire == w'.attempts[a].wire
    ensures forall a | a in w'.attempts && w'.attempts[a].wire.Sent? && w'.attempts[a].wire.at <= |w'.log| ::
              KeptHistory(w'.attempts[a].wire.base, w'.log[..w'.attempts[a].wire.at])
  {
    forall a | a in w'.attempts && w'.attempts[a].wire.Sent? && w'.attempts[a].wire.at <= |w'.log|
      ensures KeptHistory(w'.attempts[a].wire.base, w'.log[..w'.attempts[a].wire.at])
    {
      assert w'.log[..w'.attempts[a].wire.at] == w.log[..w.attempts[a].wire.at];
    }
  }

  lemma {:induction false} RunKeepsHistory(limit: nat, states: seq<World>, events: seq<Event>, k: nat)
    requires Run(limit, states, events) && k < |states|
    requires forall n | 0 <= n < k :: !events[n].Expire?
    ensures HistoryInv(states[k])
  {
    if k > 0 {
      RunKeepsHistory(limit, states, events, k - 1);
      RunKeepsInv(limit, states, events, k - 1);
      StepKeepsHistory(limit, states[k - 1], events[k - 1], states[k]);
    }
  }

  /** With history kept, the status check is exact: Committed if and only if the
      exact identity has been published to this incarnation. */
  lemma StatusIsExact(t: TableMetadata, log: seq<Entry>, req: CommitAppend)
    requires GoodLog(log) && Reflects(t, log) && KeptHistory(t, log) && DistinctCommits(log)
    requires t.uuid == req.tableUuid && ValidIdentity(req.tableUuid, req.identity)
    ensures StatusOf(Loaded(t), req) == Committed <==> Published(log, req)
  {
    if Published(log, req) {
      var i :| 0 <= i < |log| && Publishes(log[i], req.tableUuid, req.identity);
      PublishedIsVisible(t, log, req, i);
      DistinctMeansOwn(log, req, i);
      NoReuse(t, log, req, i);
    }
    if StatusOf(Loaded(t), req) == Committed {
      CommittedIsPublished(t, log, req);
    }
  }

  lemma CommittedIsPublished(t: TableMetadata, log: seq<Entry>, req: CommitAppend)
    requires GoodLog(log) && Reflects(t, log) && KeptHistory(t, log) && t.uuid == req.tableUuid
    requires Landed(t, req) && !Corrupt(t, req)
    ensures Published(log, req)
  {
    LandedMeansPublished(t, log, req);
    var i :| 0 <= i < |log| && MatchesCheckpoint(log[i], req);
    var s := SnapshotAt(log, i);
    PublishedSummaryRoundTrip(log[i].req, ENGINE_VERSION);
    CarriedCommit(s.summary, t.uuid, log[i].req.identity);
    assert s in t.snapshots;
    assert Publishes(log[i], req.tableUuid, req.identity);
  }

  lemma PublishedIsVisible(t: TableMetadata, log: seq<Entry>, req: CommitAppend, i: nat)
    requires KeptHistory(t, log) && t.uuid == req.tableUuid
    requires i < |log| && Publishes(log[i], req.tableUuid, req.identity) && log[i].req.tableUuid == log[i].uuid
    ensures InHistory(t, req)
  {
    PublishedSummaryCarriesIdentity(log[i].req, ENGINE_VERSION);
    assert SnapshotAt(log, i) in t.snapshots;
  }

  /** Every append with the request's commit ID has the request's identity. */
  ghost predicate OwnCommit(log: seq<Entry>, req: CommitAppend) {
    forall j | 0 <= j < |log| && log[j].AppendEntry? && log[j].uuid == req.tableUuid
               && log[j].req.identity.commit == req.identity.commit ::
      log[j].req.identity == req.identity
  }

  lemma DistinctMeansOwn(log: seq<Entry>, req: CommitAppend, i: nat)
    requires DistinctCommits(log) && i < |log| && Publishes(log[i], req.tableUuid, req.identity)
    ensures OwnCommit(log, req)
  {
    forall j | 0 <= j < |log| && log[j].AppendEntry? && log[j].uuid == req.tableUuid
               && log[j].req.identity.commit == req.identity.commit
      ensures j == i
    {
    }
  }

  /** No record of a published identity contradicts it while its commit ID is its own. */
  lemma NoReuse(t: TableMetadata, log: seq<Entry>, req: CommitAppend, i: nat)
    requires GoodLog(log) && Reflects(t, log) && OwnCommit(log, req) && t.uuid == req.tableUuid
    requires i < |log| && Publishes(log[i], req.tableUuid, req.identity)
    ensures !Corrupt(t, req)
  {
    RegistryIsWellFormed(t.properties, log, t.uuid);
    forall s | s in t.snapshots && CarriesCommit(s.summary, req.identity.commit)
      ensures CarriesIdentity(s.summary, req.tableUuid, req.identity)
    {
      var j := SummaryFromLog(s, log, t.uuid, req);
      assert Publishes(log[j], t.uuid, req.identity);
    }
    OwnCheckpoint(t, log, req.identity.writer);
    var n := NewestIndex(log, t.uuid, req.identity.writer);
    assert log[n].req.identity.commit == req.identity.commit ==> log[n].req.identity == req.identity;
  }

  ghost predicate ReportedCommitted(w: World, req: CommitAppend) {
    || (exists a :: a in w.attempts && w.attempts[a].req == req && w.attempts[a].result == Some(Ok))
    || (w.table.Some? && StatusOf(Loaded(w.table.value), req) == Committed)
  }

  lemma ReportedIsPublished(limit: nat, w: World, req: CommitAppend)
    requires Inv(limit, w) && HistoryInv(w) && ValidIdentity(req.tableUuid, req.identity) && ReportedCommitted(w, req)
    ensures Published(w.log, req)
  {
    if a :| a in w.attempts && w.attempts[a].req == req && w.attempts[a].result == Some(Ok) {
      assert ExactResult(w.log, w.attempts[a]);
    } else {
      StatusIsExact(w.table.value, w.log, req);
    }
  }

  lemma PublishedInLonger(log: seq<Entry>, log': seq<Entry>, req: CommitAppend)
    requires log <= log' && Published(log, req)
    ensures Published(log', req)
  {
    var i :| 0 <= i < |log| && Publishes(log[i], req.tableUuid, req.identity);
    assert Publishes(log'[i], req.tableUuid, req.identity);
  }

  lemma PublishedByThen(limit: nat, states: seq<World>, events: seq<Event>, k: nat, m: nat, req: CommitAppend)
    requires Run(limit, states, events) && k <= m < |states|
    requires forall n | 0 <= n < k :: !events[n].Expire?
    requires ValidIdentity(req.tableUuid, req.identity) && ReportedCommitted(states[k], req)
    ensures Published(states[m].log, req)
  {
    RunKeepsInv(limit, states, events, k);
    RunKeepsHistory(limit, states, events, k);
    ReportedIsPublished(limit, states[k], req);
    LogGrows(limit, states, events, k, m);
    PublishedInLonger(states[k].log, states[m].log, req);
  }

  /** With history kept, an attempt that reports Ok has published its exact identity,
      exactly once, and Committed stays the answer for the rest of the incarnation. */
  lemma OkAndCommittedAreExact(limit: nat, states: seq<World>, events: seq<Event>, k: nat, m: nat, req: CommitAppend)
    requires Run(limit, states, events) && k <= m < |states|
    requires forall n | 0 <= n < m :: !events[n].Expire?
    requires ValidIdentity(req.tableUuid, req.identity)
    requires states[m].table.Some? && states[m].table.value.uuid == req.tableUuid
    requires ReportedCommitted(states[k], req)
    ensures StatusOf(Loaded(states[m].table.value), req) == Committed
    ensures PublishedOnce(states[m].log, req)
  {
    PublishedByThen(limit, states, events, k, m, req);
    RunKeepsInv(limit, states, events, m);
    RunKeepsHistory(limit, states, events, m);
    StatusIsExact(states[m].table.value, states[m].log, req);
    OncePublished(states[m].log, req);
  }

  lemma OncePublished(log: seq<Entry>, req: CommitAppend)
    requires GoodLog(log) && Published(log, req)
    ensures PublishedOnce(log, req)
  {
    var i :| 0 <= i < |log| && Publishes(log[i], req.tableUuid, req.identity);
    forall j | 0 <= j < |log| && Publishes(log[j], req.tableUuid, req.identity)
      ensures j == i
    {
      assert ValidIdentity(log[j].uuid, log[j].req.identity);
      IdentityPublishedOnce(log, i, j, req.tableUuid, req.identity);
    }
  }
}
