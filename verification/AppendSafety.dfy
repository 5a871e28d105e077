/**
Safety of the append protocol over every run: what each step keeps, and what
that means for generations, requests, checkpoints and ambiguous outcomes.
*/
module AppendSafety {
  import opened Wrappers
  import opened WriteProtocol
  import opened AppendGuard
  import opened CommitError
  import opened AppendLog
  import opened AppendProtocol

  /* ---------- Reading a table that reflects the log ---------- */

  /** A checkpoint entry in a table is the writer's newest append in the log. */
  lemma {:induction false} OwnCheckpoint(t: TableMetadata, log: seq<Entry>, w: Uuid)
    requires GoodLog(log) && RegistryReflects(t.properties, log, t.uuid)
    ensures w !in Newest(log, t.uuid) ==> ParseCheckpoint(t.properties, w) == Success(None)
    ensures w in Newest(log, t.uuid) ==>
              var e := Newest(log, t.uuid)[w];
              ParseCheckpoint(t.properties, w) == Success(Some(AppendCheckpoint(e.req.identity, e.nowMs)))
  {
    var i := NewestIndex(log, t.uuid, w);
    if i >= 0 {
      assert ValidIdentity(t.uuid, log[i].req.identity);
      assert OwnKey(w) in t.properties;
    }
  }

  lemma RegistryIsWellFormed(p: Properties, log: seq<Entry>, u: Uuid)
    requires GoodLog(log) && RegistryReflects(p, log, u)
    ensures RegistryWellFormed(p)
  {
    forall k | k in p && k.CheckpointKey?
      ensures EntryWellFormed(k, p[k])
    {
      var i := NewestIndex(log, u, k.suffix.writer);
      assert ValidIdentity(u, log[i].req.identity);
      assert k == OwnKey(k.suffix.writer);
    }
  }

  /** A snapshot that spells an identity was published by an append of that identity. */
  lemma SummaryFromLog(s: Snapshot, log: seq<Entry>, u: Uuid, req: CommitAppend) returns (i: nat)
    requires GoodLog(log) && FromLog(s, log, u) && u == req.tableUuid
    requires CarriesCommit(s.summary, req.identity.commit)
    ensures i < |log| && log[i].AppendEntry? && log[i].uuid == u
    ensures log[i].req.identity.commit == req.identity.commit
    ensures CarriesIdentity(s.summary, u, req.identity) <==> Publishes(log[i], u, req.identity)
  {
    i :| 0 <= i < |log| && log[i].uuid == u && s == SnapshotAt(log, i);
    if log[i].AppendEntry? {
      PublishedSummaryRoundTrip(log[i].req, ENGINE_VERSION);
    }
  }

  lemma CarriedCommit(s: Summary, u: Uuid, id: Identity)
    requires CarriesIdentity(s, u, id)
    ensures CarriesCommit(s, id.commit)
  {
    assert IdentityProperties(u, id)[0] in IdentityProperties(u, id);
  }

  /** Whatever either record calls landed is in the log. */
  lemma LandedMeansPublished(t: TableMetadata, log: seq<Entry>, req: CommitAppend)
    requires GoodLog(log) && Reflects(t, log) && t.uuid == req.tableUuid && Landed(t, req)
    ensures LandedInLog(log, req)
    ensures InHistory(t, req) ==> exists i :: 0 <= i < |log| && Publishes(log[i], t.uuid, req.identity)
  {
    if InHistory(t, req) {
      var s :| s in t.snapshots && CarriesIdentity(s.summary, req.tableUuid, req.identity);
      CarriedCommit(s.summary, req.tableUuid, req.identity);
      var i := SummaryFromLog(s, log, t.uuid, req);
      assert Publishes(log[i], t.uuid, req.identity) && MatchesCheckpoint(log[i], req);
    } else {
      OwnCheckpoint(t, log, req.identity.writer);
      var i := NewestIndex(log, t.uuid, req.identity.writer);
      assert MatchesCheckpoint(log[i], req);
    }
  }

  /* ---------- Publishing ---------- */

  /** What admission says about the writer's newest append. */
  lemma {:induction false} AdmitMeans(base: TableMetadata, log: seq<Entry>, req: CommitAppend, limit: nat)
    requires GoodLog(log) && RegistryReflects(base.properties, log, base.uuid)
    requires GuardVerdict(base, req, limit) == Admit
    ensures req.tableUuid == base.uuid && ValidIdentity(base.uuid, req.identity)
    ensures var newest := Newest(log, base.uuid);
            req.identity.writer in newest ==> Before(newest[req.identity.writer].req.identity, req.identity)
    ensures OwnKey(req.identity.writer) in base.properties || |CheckpointKeys(base.properties)| < limit
  {
    OwnCheckpoint(base, log, req.identity.writer);
  }

  /** The heart of the protocol: a request admitted on a base whose head is still
      the table's head comes after everything its writer has published. */
  lemma {:induction false} AdmittedComesLast(log: seq<Entry>, x: Attempt, t: TableMetadata, limit: nat)
    requires GoodLog(log) && t.current == LastSnap(log, t.uuid) && GoodWire(limit, log, x) && x.wire.Sent?
    requires x.wire.base.uuid == t.uuid && x.wire.base.current == t.current
    ensures Newest(log, t.uuid) == Newest(log[..x.wire.at], t.uuid)
    ensures x.req.tableUuid == t.uuid && ValidIdentity(t.uuid, x.req.identity)
    ensures OwnKey(x.req.identity.writer) in x.wire.base.properties
            || |CheckpointKeys(x.wire.base.properties)| < limit
    ensures forall i | 0 <= i < |log| && IsAppend(log[i], t.uuid, x.req.identity.writer) ::
              Before(log[i].req.identity, x.req.identity)
  {
    SameHeadMeansQuiet(log, x.wire.at, t.uuid);
    NewestUnchanged(log, x.wire.at, t.uuid);
    PrefixOfGoodLog(log, x.wire.at);
    AdmitMeans(x.wire.base, log[..x.wire.at], x.req, x.limit);
    PastNewestIsPastAll(log, t.uuid, x.req.identity);
  }

  lemma PrefixOfGoodLog(log: seq<Entry>, at: nat)
    requires GoodLog(log) && at <= |log|
    ensures GoodLog(log[..at])
  {
    var prefix := log[..at];
    assert forall i | 0 <= i < at :: prefix[i] == log[i];
  }

  /** Checkpoint keys are determined by the set of writers that have published. */
  lemma {:induction false} KeysAreWriters(p: Properties, log: seq<Entry>, u: Uuid)
    requires RegistryReflects(p, log, u)
    ensures CheckpointKeys(p) == set w | w in Newest(log, u) :: OwnKey(w)
  {
    forall k | k in CheckpointKeys(p)
      ensures k in (set w | w in Newest(log, u) :: OwnKey(w))
    {
      assert k == OwnKey(k.suffix.writer);
    }
  }

  lemma {:induction false} HistoryGrows(t: TableMetadata, log: seq<Entry>, e: Entry)
    requires forall s | s in t.snapshots :: FromLog(s, log, t.uuid)
    requires e.uuid == t.uuid && t.current == LastSnap(log, t.uuid)
    ensures forall s | s in t.snapshots + [Snapshot(e.snap, t.current, EntrySummary(e))] ::
              FromLog(s, log + [e], t.uuid)
  {
    var log' := log + [e];
    assert log'[..|log|] == log;
    assert SnapshotAt(log', |log|) == Snapshot(e.snap, t.current, EntrySummary(e));
    forall s | s in t.snapshots
      ensures FromLog(s, log', t.uuid)
    {
      var i :| 0 <= i < |log| && log[i].uuid == t.uuid && s == SnapshotAt(log, i);
      SnapshotAtExtended(log, [e], i);
      assert log'[i] == log[i];
    }
  }

  lemma ApplyReflects(t: TableMetadata, log: seq<Entry>, x: Attempt, snap: int, a: nat)
    requires Reflects(t, log) && x.req.tableUuid == t.uuid
    ensures Reflects(ApplyAppend(t, x, snap), log + [AppendEntry(t.uuid, snap, x.req, x.nowMs, a)])
  {
    var e := AppendEntry(t.uuid, snap, x.req, x.nowMs, a);
    assert (log + [e])[..|log|] == log;
    HistoryGrows(t, log, e);
  }

  lemma ReplaceReflects(t: TableMetadata, log: seq<Entry>, snap: int, marks: Summary)
    requires Reflects(t, log)
    ensures Reflects(ApplyReplace(t, snap, marks), log + [ReplaceEntry(t.uuid, snap, marks)])
  {
    var e := ReplaceEntry(t.uuid, snap, marks);
    assert (log + [e])[..|log|] == log;
    HistoryGrows(t, log, e);
  }

  /** The registry bound: a new writer is admitted only below the limit. */
  lemma {:induction false} ApplyKeepsBound(log: seq<Entry>, at: nat, base: Properties, p: Properties, u: Uuid, w: Uuid,
                        value: PropertyValue, limit: nat)
    requires at <= |log| && Newest(log, u) == Newest(log[..at], u)
    requires RegistryReflects(p, log, u) && RegistryReflects(base, log[..at], u)
    requires OwnKey(w) in base || |CheckpointKeys(base)| < limit
    requires |CheckpointKeys(p)| <= limit
    ensures |CheckpointKeys(p[OwnKey(w) := value])| <= limit
  {
    KeysAreWriters(p, log, u);
    KeysAreWriters(base, log[..at], u);
    assert CheckpointKeys(p[OwnKey(w) := value]) == CheckpointKeys(p) + {OwnKey(w)};
    if OwnKey(w) in base {
      assert OwnKey(w) in CheckpointKeys(base);
      assert CheckpointKeys(p) + {OwnKey(w)} == CheckpointKeys(p);
    }
  }

  /* ---------- Every step keeps the invariant ---------- */

  lemma UpdateKeepsAuthors(log: seq<Entry>, attempts: Attempts, a: nat, x: Attempt)
    requires GoodAuthors(log, attempts)
    requires a in attempts && attempts[a].wire.Applied? ==>
               x.wire.Applied? && x.req == attempts[a].req && x.nowMs == attempts[a].nowMs
    ensures GoodAuthors(log, attempts[a := x])
  {
  }

  lemma UpdateKeepsInv(limit: nat, w: World, a: nat, x: Attempt)
    requires Inv(limit, w) && GoodWire(limit, w.log, x) && GoodResult(w.log, x)
    requires a in w.attempts && w.attempts[a].wire.Applied? ==>
               x.wire.Applied? && x.req == w.attempts[a].req && x.nowMs == w.attempts[a].nowMs
    ensures Inv(limit, Update(w, a, x))
  {
    UpdateKeepsAuthors(w.log, w.attempts, a, x);
  }

  lemma LoadKeepsAttempt(limit: nat, log: seq<Entry>, t: TableMetadata, x: Attempt)
    requires GoodLog(log) && Reflects(t, log) && GoodWire(limit, log, x) && x.wire.Idle? && x.result.None?
    ensures GoodWire(limit, log, AfterLoad(x, t, |log|)) && GoodResult(log, AfterLoad(x, t, |log|))
  {
    assert log[..|log|] == log;
    if GuardVerdict(t, x.req, x.limit) == AlreadyCommitted {
      LandedMeansPublished(t, log, x.req);
    }
  }

  lemma LoadKeepsInv(limit: nat, w: World, a: nat)
    requires Inv(limit, w) && Running(w, a) && w.attempts[a].wire.Idle? && w.table.Some?
    ensures Inv(limit, Update(w, a, AfterLoad(w.attempts[a], w.table.value, |w.log|)))
  {
    var x, t := w.attempts[a], w.table.value;
    LoadKeepsAttempt(limit, w.log, t, x);
    UpdateKeepsInv(limit, w, a, AfterLoad(x, t, |w.log|));
  }

  /** Growing the log keeps what every attempt relies on. */
  lemma LogGrowthKeepsAttempt(limit: nat, log: seq<Entry>, e: Entry, x: Attempt)
    requires GoodWire(limit, log, x) && GoodResult(log, x)
    ensures GoodWire(limit, log + [e], x) && GoodResult(log + [e], x)
  {
    var log' := log + [e];
    if x.wire.Sent? {
      assert log'[..x.wire.at] == log[..x.wire.at];
    }
    if LandedInLog(log, x.req) {
      var i :| 0 <= i < |log| && MatchesCheckpoint(log[i], x.req);
      assert MatchesCheckpoint(log'[i], x.req);
    }
  }

  lemma ApplyKeepsAttempts(limit: nat, w: World, a: nat, e: Entry)
    requires a in w.attempts && Wrote(e, a, w.attempts[a]) && e.uuid == w.attempts[a].req.tableUuid
    requires w.attempts[a].wire.Sent?
    requires GoodAttempts(limit, w.log, w.attempts)
    ensures GoodAttempts(limit, w.log + [e], w.attempts[a := w.attempts[a].(wire := Applied)])
  {
    var log := w.log + [e];
    assert log[|w.log|] == e && MatchesCheckpoint(e, w.attempts[a].req);
    forall b | b in w.attempts
      ensures GoodWire(limit, log, w.attempts[b]) && GoodResult(log, w.attempts[b])
    {
      LogGrowthKeepsAttempt(limit, w.log, e, w.attempts[b]);
    }
  }

  lemma ApplyKeepsAuthors(w: World, a: nat, e: Entry)
    requires a in w.attempts && Wrote(e, a, w.attempts[a])
    requires GoodAuthors(w.log, w.attempts)
    ensures GoodAuthors(w.log + [e], w.attempts[a := w.attempts[a].(wire := Applied)])
  {
    var log := w.log + [e];
    assert forall i | 0 <= i < |w.log| :: log[i] == w.log[i];
  }

  lemma {:induction false} ApplyKeepsLog(limit: nat, log: seq<Entry>, x: Attempt, t: TableMetadata, e: Entry)
    requires GoodLog(log) && t.current == LastSnap(log, t.uuid) && GoodWire(limit, log, x) && x.wire.Sent?
    requires x.wire.base.uuid == t.uuid && x.wire.base.current == t.current
    requires FreshSnap(log, t.uuid, e.snap) && e.AppendEntry? && e.uuid == t.uuid && e.req == x.req
    ensures GoodLog(log + [e])
  {
    AdmittedComesLast(log, x, t, limit);
    assert [e][0] == e;
    ExtendGoodLog(log, e);
  }

  lemma ApplyKeepsTable(limit: nat, log: seq<Entry>, x: Attempt, t: TableMetadata, snap: int, a: nat)
    requires GoodLog(log) && GoodTable(limit, log, t) && GoodWire(limit, log, x) && x.wire.Sent?
    requires x.wire.base.uuid == t.uuid && x.wire.base.current == t.current
    ensures x.req.tableUuid == t.uuid
    ensures GoodTable(limit, log + [AppendEntry(t.uuid, snap, x.req, x.nowMs, a)], ApplyAppend(t, x, snap))
  {
    AdmittedComesLast(log, x, t, limit);
    ApplyReflects(t, log, x, snap, a);
    ApplyKeepsBound(log, x.wire.at, x.wire.base.properties, t.properties, t.uuid, x.req.identity.writer,
                    Encode(AppendCheckpoint(x.req.identity, x.nowMs)), limit);
  }

  lemma KnownUuidsGrow(log: seq<Entry>, t: TableMetadata, t': TableMetadata, uuids: set<Uuid>, e: Entry)
    requires KnownUuids(log, Some(t), uuids) && e.uuid == t.uuid == t'.uuid
    ensures KnownUuids(log + [e], Some(t'), uuids)
  {
  }

  lemma ApplyKeepsInv(limit: nat, w: World, a: nat, snap: int, w': World)
    requires Inv(limit, w) && Step(limit, w, Apply(a, snap), w')
    ensures Inv(limit, w')
  {
    var x, t := w.attempts[a], w.table.value;
    var e := AppendEntry(t.uuid, snap, x.req, x.nowMs, a);
    KnownUuidsGrow(w.log, t, w'.table.value, w.uuids, e);
    ApplyKeepsLog(limit, w.log, x, t, e);
    ApplyKeepsTable(limit, w.log, x, t, snap, a);
    ApplyKeepsAttempts(limit, w, a, e);
    ApplyKeepsAuthors(w, a, e);
  }

  lemma ReplaceKeepsInv(limit: nat, w: World, snap: int, marks: Summary, w': World)
    requires Inv(limit, w) && Step(limit, w, Replace(snap, marks), w')
    ensures Inv(limit, w')
  {
    var t := w.table.value;
    var e := ReplaceEntry(t.uuid, snap, marks);
    assert [e][0] == e;
    ExtendGoodLog(w.log, e);
    ReplaceReflects(t, w.log, snap, marks);
    KnownUuidsGrow(w.log, t, w'.table.value, w.uuids, e);
    forall b | b in w'.attempts
      ensures GoodWire(limit, w'.log, w'.attempts[b]) && GoodResult(w'.log, w'.attempts[b])
    {
      LogGrowthKeepsAttempt(limit, w.log, e, w.attempts[b]);
    }
  }

  lemma CreateReflects(limit: nat, log: seq<Entry>, u: Uuid, p: Properties)
    requires (forall i | 0 <= i < |log| :: log[i].uuid != u) && CheckpointKeys(p) == {}
    ensures GoodTable(limit, log, TableMetadata(u, [], None, p))
  {
    assert log[..0] == [];
    NewestUnchanged(log, 0, u);
    assert forall k | k in p :: k.CheckpointKey? ==> k in CheckpointKeys(p);
  }

  lemma TableStepKeepsInv(limit: nat, w: World, ev: Event, w': World)
    requires Inv(limit, w) && Step(limit, w, ev, w')
    requires ev.SetProperties? || ev.Expire? || ev.Drop? || ev.Create?
    ensures Inv(limit, w')
  {
    match ev
    case SetProperties(p) =>
      assert CheckpointKeys(p) == CheckpointKeys(w.table.value.properties);
      assert Reflects(w'.table.value, w.log);
    case Create(u, p) =>
      CreateReflects(limit, w.log, u, p);
    case _ =>
  }

  lemma StepKeepsInv(limit: nat, w: World, ev: Event, w': World)
    requires Inv(limit, w) && Step(limit, w, ev, w')
    ensures Inv(limit, w')
  {
    match ev
    case Begin(a, req, lim, nowMs) => UpdateKeepsInv(limit, w, a, Attempt(req, lim, nowMs, Idle, None));
    case Load(a) => LoadKeepsInv(limit, w, a);
    case FailBeforeDispatch(a, error) =>
      UpdateKeepsInv(limit, w, a, w.attempts[a].(wire := Idle, result := Some(ReportOf(None, error))));
    case FailAfterDispatch(a, error) =>
      UpdateKeepsInv(limit, w, a, w.attempts[a].(result := Some(ReportOf(None, error))));
    case Reply(a) => UpdateKeepsInv(limit, w, a, w.attempts[a].(result := Some(Ok)));
    case Rebase(a) => UpdateKeepsInv(limit, w, a, w.attempts[a].(wire := Idle));
    case Refuse(a) => UpdateKeepsInv(limit, w, a, w.attempts[a].(wire := Refused));
    case Apply(a, snap) => ApplyKeepsInv(limit, w, a, snap, w');
    case Replace(snap, marks) => ReplaceKeepsInv(limit, w, snap, marks, w');
    case _ => TableStepKeepsInv(limit, w, ev, w');
  }

  /** Every state of every run satisfies the invariant. */
  lemma {:induction false} RunKeepsInv(limit: nat, states: seq<World>, events: seq<Event>, k: nat)
    requires Run(limit, states, events) && k < |states|
    ensures Inv(limit, states[k])
  {
    if k > 0 {
      RunKeepsInv(limit, states, events, k - 1);
      StepKeepsInv(limit, states[k - 1], events[k - 1], states[k]);
    }
  }
}
