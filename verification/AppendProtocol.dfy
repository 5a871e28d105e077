/**
The multi-writer append protocol as a state machine: any number of append
attempts against one table name, with conflicts and rebases, refused and lost
replies, requests still in flight after their client gave up, compaction
commits, property updates, snapshot expiry, drop and re-creation
(crates/teodb-catalog/src/adapter/commit.rs, append_attempt_guard.rs).

The catalog publishes by compare-and-swap on (table UUID, current snapshot id),
as the Iceberg REST catalog requirements assert-table-uuid and
assert-ref-snapshot-id say. Snapshot ids are not reused within an incarnation
and table UUIDs are never reused. Only appends write checkpoint properties.
*/
module AppendProtocol {
  import opened Wrappers
  import opened WriteProtocol
  import opened AppendGuard
  import opened CommitError
  import opened AppendLog

  /* ---------- States ---------- */

  // The update request of an attempt: none yet, sent on top of `base` (loaded
  // when the log had length `at`), published by the catalog, or refused.
  datatype Wire = Idle | Sent(base: TableMetadata, at: nat) | Applied | Refused

  // `result` is what the client has reported to its caller, if anything.
  datatype Attempt = Attempt(req: CommitAppend, limit: nat, nowMs: nat, wire: Wire, result: Option<AppendResult>)

  datatype World = World(
    table: Option<TableMetadata>,
    attempts: map<nat, Attempt>,
    log: seq<Entry>,
    uuids: set<Uuid>)

  const EMPTY := World(None, map[], [], {})

  /* ---------- Steps ---------- */

  datatype Event =
    | Begin(a: nat, req: CommitAppend, limit: nat, nowMs: nat)
    | Load(a: nat)
    | FailBeforeDispatch(a: nat, error: IcebergError)
    | FailAfterDispatch(a: nat, error: IcebergError)
    | Reply(a: nat)
    | Rebase(a: nat)
    | Apply(a: nat, snap: int)
    | Refuse(a: nat)
    | Replace(snap: int, marks: Summary)
    | SetProperties(properties: Properties)
    | Expire(kept: seq<Snapshot>)
    | Drop
    | Create(uuid: Uuid, properties: Properties)

  const GUARD_ERROR := IcebergError(PreconditionFailed, false, [])

  predicate Running(w: World, a: nat) {
    a in w.attempts && w.attempts[a].result.None?
  }

  function Update(w: World, a: nat, x: Attempt): World {
    w.(attempts := w.attempts[a := x])
  }

  /** The guarded load: every initial load and every rebase goes through the guard. */
  ghost function AfterLoad(x: Attempt, t: TableMetadata, at: nat): Attempt {
    var v := GuardVerdict(t, x.req, x.limit);
    if v == Admit then x.(wire := Sent(t, at)) else x.(result := Some(ReportOf(Some(v), GUARD_ERROR)))
  }

  /** The transaction: one snapshot and one checkpoint, published together. */
  function ApplyAppend(t: TableMetadata, x: Attempt, snap: int): TableMetadata {
    t.(snapshots := t.snapshots + [Snapshot(snap, t.current, AppendSummary(x.req, ENGINE_VERSION))],
       current := Some(snap),
       properties := t.properties[OwnKey(x.req.identity.writer) :=
                                    Encode(AppendCheckpoint(x.req.identity, x.nowMs))])
  }

  function ApplyReplace(t: TableMetadata, snap: int, marks: Summary): TableMetadata {
    t.(snapshots := t.snapshots + [Snapshot(snap, t.current, marks)], current := Some(snap))
  }

  ghost predicate FreshSnap(log: seq<Entry>, u: Uuid, snap: int) {
    forall i | 0 <= i < |log| && log[i].uuid == u :: log[i].snap != snap
  }

  ghost predicate SameRegistry(p: Properties, q: Properties) {
    forall k: PropertyKey | k.CheckpointKey? :: (k in p <==> k in q) && (k in p ==> p[k] == q[k])
  }

  /** What the transport may report once a request is on its way: an ambiguous
      error at any time, a conflict only if the catalog refused. */
  predicate AfterDispatch(wire: Wire, error: IcebergError) {
    || (error.kind == Unexpected && ConnectFailure !in error.causes)
    || (wire.Refused? && error.kind == CatalogCommitConflicts)
  }

  ghost predicate Step(limit: nat, w: World, ev: Event, w': World) {
    match ev
    case Begin(a, req, lim, nowMs) =>
      && a !in w.attempts && Publishable(req) && lim <= limit
      && w' == Update(w, a, Attempt(req, lim, nowMs, Idle, None))
    case Load(a) =>
      && Running(w, a) && w.attempts[a].wire.Idle? && w.table.Some?
      && w' == Update(w, a, AfterLoad(w.attempts[a], w.table.value, |w.log|))
    case FailBeforeDispatch(a, error) =>
      && Running(w, a) && (w.attempts[a].wire.Idle? || w.attempts[a].wire.Sent?)
      && w' == Update(w, a, w.attempts[a].(wire := Idle, result := Some(ReportOf(None, error))))
    case FailAfterDispatch(a, error) =>
      && Running(w, a) && !w.attempts[a].wire.Idle? && AfterDispatch(w.attempts[a].wire, error)
      && w' == Update(w, a, w.attempts[a].(result := Some(ReportOf(None, error))))
    case Reply(a) =>
      && Running(w, a) && w.attempts[a].wire.Applied?
      && w' == Update(w, a, w.attempts[a].(result := Some(Ok)))
    case Rebase(a) =>
      && Running(w, a) && w.attempts[a].wire.Refused?
      && w' == Update(w, a, w.attempts[a].(wire := Idle))
    case Apply(a, snap) =>
      && a in w.attempts && w.attempts[a].wire.Sent? && w.table.Some?
      && w.attempts[a].wire.base.uuid == w.table.value.uuid
      && w.attempts[a].wire.base.current == w.table.value.current
      && FreshSnap(w.log, w.table.value.uuid, snap)
      && w' == World(Some(ApplyAppend(w.table.value, w.attempts[a], snap)),
                     w.attempts[a := w.attempts[a].(wire := Applied)],
                     w.log + [AppendEntry(w.table.value.uuid, snap, w.attempts[a].req, w.attempts[a].nowMs, a)],
                     w.uuids)
    case Refuse(a) =>
      && a in w.attempts && w.attempts[a].wire.Sent?
      && w' == Update(w, a, w.attempts[a].(wire := Refused))
    case Replace(snap, marks) =>
      && w.table.Some? && CommitIdKey !in marks && FreshSnap(w.log, w.table.value.uuid, snap)
      && w' == w.(table := Some(ApplyReplace(w.table.value, snap, marks)),
                  log := w.log + [ReplaceEntry(w.table.value.uuid, snap, marks)])
    case SetProperties(properties) =>
      && w.table.Some? && SameRegistry(properties, w.table.value.properties)
      && w' == w.(table := Some(w.table.value.(properties := properties)))
    case Expire(kept) =>
      && w.table.Some? && (forall s | s in kept :: s in w.table.value.snapshots)
      && (forall s | s in w.table.value.snapshots && Some(s.id) == w.table.value.current :: s in kept)
      && w' == w.(table := Some(w.table.value.(snapshots := kept)))
    case Drop =>
      w' == w.(table := None)
    case Create(uuid, properties) =>
      && w.table.None? && uuid != NIL && uuid !in w.uuids && CheckpointKeys(properties) == {}
      && w' == w.(table := Some(TableMetadata(uuid, [], None, properties)), uuids := w.uuids + {uuid})
  }

  ghost predicate Run(limit: nat, states: seq<World>, events: seq<Event>) {
    && |states| == |events| + 1 && states[0] == EMPTY
    && forall k | 0 <= k < |events| :: Step(limit, states[k], events[k], states[k + 1])
  }

  /* ---------- The invariant ---------- */

  function CheckpointOf(e: Entry): PropertyValue
    requires e.AppendEntry?
  {
    Encode(AppendCheckpoint(e.req.identity, e.nowMs))
  }

  /** The checkpoint registry holds exactly one entry per writer that has
      published, spelling that writer's newest append. */
  ghost predicate RegistryReflects(p: Properties, log: seq<Entry>, u: Uuid) {
    && (forall k | k in p && k.CheckpointKey? :: k.suffix.Canonical? && k.suffix.writer in Newest(log, u))
    && (forall w | w in Newest(log, u) :: OwnKey(w) in p && p[OwnKey(w)] == CheckpointOf(Newest(log, u)[w]))
  }

  ghost predicate FromLog(s: Snapshot, log: seq<Entry>, u: Uuid) {
    exists i :: 0 <= i < |log| && log[i].uuid == u && s == SnapshotAt(log, i)
  }

  ghost predicate Reflects(t: TableMetadata, log: seq<Entry>) {
    && t.current == LastSnap(log, t.uuid)
    && RegistryReflects(t.properties, log, t.uuid)
    && forall s | s in t.snapshots :: FromLog(s, log, t.uuid)
  }

  predicate Wrote(e: Entry, a: nat, x: Attempt) {
    e.AppendEntry? && e.attempt == a && e.req == x.req && e.nowMs == x.nowMs
  }

  /** The entry agrees with the request on everything the checkpoint records. */
  predicate MatchesCheckpoint(e: Entry, req: CommitAppend) {
    && IsAppend(e, req.tableUuid, req.identity.writer)
    && e.req.identity.commit == req.identity.commit && e.req.identity.epoch == req.identity.epoch
    && e.req.identity.gens.hi == req.identity.gens.hi
  }

  ghost predicate LandedInLog(log: seq<Entry>, req: CommitAppend) {
    exists i :: 0 <= i < |log| && MatchesCheckpoint(log[i], req)
  }

  ghost predicate GoodWire(limit: nat, log: seq<Entry>, x: Attempt) {
    && Publishable(x.req) && x.limit <= limit
    && (x.wire.Sent? ==>
          && x.wire.at <= |log| && Reflects(x.wire.base, log[..x.wire.at])
          && GuardVerdict(x.wire.base, x.req, x.limit) == Admit)
  }

  ghost predicate GoodResult(log: seq<Entry>, x: Attempt) {
    && (x.result.Some? && DefiniteFailure(x.result.value) ==> x.wire.Idle? || x.wire.Refused?)
    && (x.wire.Applied? || x.result == Some(Ok) ==> LandedInLog(log, x.req))
  }

  type Attempts = map<nat, Attempt>

  ghost predicate GoodAttempts(limit: nat, log: seq<Entry>, attempts: Attempts) {
    forall a | a in attempts :: GoodWire(limit, log, attempts[a]) && GoodResult(log, attempts[a])
  }

  /** Every published append was written by an attempt that knows it was applied. */
  ghost predicate GoodAuthors(log: seq<Entry>, attempts: Attempts) {
    forall i | 0 <= i < |log| && log[i].AppendEntry? ::
      && log[i].attempt in attempts && attempts[log[i].attempt].wire.Applied?
      && Wrote(log[i], log[i].attempt, attempts[log[i].attempt])
  }

  ghost predicate GoodTable(limit: nat, log: seq<Entry>, t: TableMetadata) {
    Reflects(t, log) && |CheckpointKeys(t.properties)| <= limit
  }

  ghost predicate KnownUuids(log: seq<Entry>, table: Option<TableMetadata>, uuids: set<Uuid>) {
    && (forall i | 0 <= i < |log| :: log[i].uuid in uuids)
    && (table.Some? ==> table.value.uuid in uuids)
  }

  ghost predicate Inv(limit: nat, w: World) {
    && GoodLog(w.log)
    && KnownUuids(w.log, w.table, w.uuids)
    && (w.table.Some? ==> GoodTable(limit, w.log, w.table.value))
    && GoodAttempts(limit, w.log, w.attempts)
    && GoodAuthors(w.log, w.attempts)
  }
}
