/**
The write guard and the exact status check
(crates/teodb-catalog/src/adapter/append_attempt_guard.rs, `resolve_append_status`
in crates/teodb-catalog/src/adapter/catalog.rs).

Both read one loaded table. The guard decides whether an append may be
published on top of it; the status check decides whether the append has
already landed.
*/
module AppendGuard {
  import opened Wrappers
  import opened WriteProtocol

  datatype Snapshot = Snapshot(id: int, parent: Option<int>, summary: Summary)

  datatype TableMetadata = TableMetadata(
    uuid: Uuid, snapshots: seq<Snapshot>, current: Option<int>, properties: Properties)

  datatype Verdict =
    | Admit
    | AlreadyCommitted
    | StaleWriterEpoch(current: nat)
    | WriterRegistryFull
    | IncarnationMismatch(actual: Uuid)
    | MetadataCorruption
    | InvalidIdentity
    | OverlappingRange(committed: nat)

  /* ---------- What the two checks mean ---------- */

  /** A retained snapshot spells the request's exact identity. */
  ghost predicate InHistory(t: TableMetadata, req: CommitAppend) {
    exists s :: s in t.snapshots && CarriesIdentity(s.summary, req.tableUuid, req.identity)
  }

  /** The writer's checkpoint names the request's commit, epoch and upper generation. */
  ghost predicate InCheckpoint(t: TableMetadata, req: CommitAppend) {
    var own := ParseCheckpoint(t.properties, req.identity.writer);
    && own.Success? && own.value.Some?
    && own.value.value.commit == req.identity.commit
    && own.value.value.epoch == req.identity.epoch
    && own.value.value.generation == req.identity.gens.hi
  }

  /** The request's commit ID is recorded with a different tuple. */
  ghost predicate ReusesCommitId(t: TableMetadata, req: CommitAppend) {
    || (exists s :: s in t.snapshots && CarriesCommit(s.summary, req.identity.commit)
                    && !CarriesIdentity(s.summary, req.tableUuid, req.identity))
    || (var own := ParseCheckpoint(t.properties, req.identity.writer);
        own.Success? && own.value.Some? && own.value.value.commit == req.identity.commit && !InCheckpoint(t, req))
  }

  ghost predicate Corrupt(t: TableMetadata, req: CommitAppend) {
    !RegistryWellFormed(t.properties) || ReusesCommitId(t, req)
  }

  ghost predicate Landed(t: TableMetadata, req: CommitAppend) {
    InHistory(t, req) || InCheckpoint(t, req)
  }

  /** The verdict of the guard on a loaded table. */
  ghost function GuardVerdict(t: TableMetadata, req: CommitAppend, limit: nat): Verdict {
    var own := ParseCheckpoint(t.properties, req.identity.writer);
    if IdentityDefect(req.tableUuid, req.identity).Some? then InvalidIdentity
    else if t.uuid != req.tableUuid then IncarnationMismatch(t.uuid)
    else if Corrupt(t, req) then MetadataCorruption
    else if Landed(t, req) then AlreadyCommitted
    else if OwnKey(req.identity.writer) !in t.properties && |CheckpointKeys(t.properties)| >= limit then
      WriterRegistryFull
    else if own.Failure? || own.value.None? then Admit
    else if req.identity.epoch < own.value.value.epoch then StaleWriterEpoch(own.value.value.epoch)
    else if req.identity.gens.lo <= own.value.value.generation then OverlappingRange(own.value.value.generation)
    else Admit
  }

  /* ---------- The guard ---------- */

  class AppendAttemptGuard {
    const request: CommitAppend
    const maxWriterCheckpoints: nat
    var rejection: Option<Verdict>
    var invocations: nat

    constructor (request: CommitAppend, maxWriterCheckpoints: nat)
      ensures this.request == request && this.maxWriterCheckpoints == maxWriterCheckpoints
      ensures rejection == None && invocations == 0
    {
      this.request := request;
      this.maxWriterCheckpoints := maxWriterCheckpoints;
      rejection := None;
      invocations := 0;
    }

    method Reject(verdict: Verdict)
      modifies this`rejection
      ensures rejection == Some(verdict)
    {
      rejection := Some(verdict);
    }

    method TakeRejection() returns (r: Option<Verdict>)
      modifies this`rejection
      ensures r == old(rejection) && rejection == None
    {
      r := rejection;
      rejection := None;
    }

    /** `validate`: run on the initial load and again on every rebase. The
        counter is an AtomicU32 and wraps. */
    method Validate(t: TableMetadata) returns (ok: bool)
      modifies this
      ensures invocations == (old(invocations) + 1) % 0x1_0000_0000
      ensures ok <==> GuardVerdict(t, request, maxWriterCheckpoints) == Admit
      ensures rejection == if ok then old(rejection) else Some(GuardVerdict(t, request, maxWriterCheckpoints))
    {
      invocations := (invocations + 1) % 0x1_0000_0000;
      var id := request.identity;
      if IdentityDefect(request.tableUuid, id).Some? {
        Reject(InvalidIdentity);
        return false;
      }
      if t.uuid != request.tableUuid {
        Reject(IncarnationMismatch(t.uuid));
        return false;
      }
      var counted := ValidateWriterCheckpoints(t.properties);
      if counted.Failure? {
        Reject(MetadataCorruption);
        return false;
      }
      var own := ParseCheckpoint(t.properties, id.writer);
      // The registry was just validated, so the writer's own entry decodes.
      assert own.Success?;
      var history := ScanHistory(t, request);
      if history.Failure? {
        Reject(MetadataCorruption);
        return false;
      }
      var exactCheckpoint := false;
      if own.value.Some? && own.value.value.commit == id.commit {
        if own.value.value.epoch != id.epoch || own.value.value.generation != id.gens.hi {
          Reject(MetadataCorruption);
          return false;
        }
        exactCheckpoint := true;
      }
      if history.value || exactCheckpoint {
        Reject(AlreadyCommitted);
        return false;
      }
      if OwnKey(id.writer) !in t.properties && counted.value >= maxWriterCheckpoints {
        Reject(WriterRegistryFull);
        return false;
      }
      if own.value.Some? {
        if id.epoch < own.value.value.epoch {
          Reject(StaleWriterEpoch(own.value.value.epoch));
          return false;
        }
        if id.gens.lo <= own.value.value.generation {
          Reject(OverlappingRange(own.value.value.generation));
          return false;
        }
      }
      return true;
    }
  }

  /** The loop over retained snapshots shared by the guard and the status check:
      a mismatching reuse of the commit ID anywhere fails the whole scan. */
  method ScanHistory(t: TableMetadata, req: CommitAppend) returns (r: Result<bool, SummaryKey>)
    ensures r.Failure? <==> exists s :: s in t.snapshots && CarriesCommit(s.summary, req.identity.commit)
                                        && !CarriesIdentity(s.summary, req.tableUuid, req.identity)
    ensures r.Success? ==> (r.value <==> InHistory(t, req))
  {
    var found := false;
    for i := 0 to |t.snapshots|
      invariant forall k | 0 <= k < i ::
          CarriesCommit(t.snapshots[k].summary, req.identity.commit)
          ==> CarriesIdentity(t.snapshots[k].summary, req.tableUuid, req.identity)
      invariant found <==>
                exists k :: 0 <= k < i && CarriesIdentity(t.snapshots[k].summary, req.tableUuid, req.identity)
    {
      var matched := SnapshotMatches(req.tableUuid, req.identity, t.snapshots[i].summary);
      if matched.Failure? {
        assert t.snapshots[i] in t.snapshots;
        return Failure(matched.error);
      }
      found := found || matched.value;
    }
    return Success(found);
  }

  /* ---------- The status check ---------- */

  datatype Load = Loaded(t: TableMetadata) | NotFound | LoadError

  datatype Status =
    | Committed | NotCommitted | Unknown
    | StatusInvalidIdentity | StatusMismatch(actual: Uuid) | StatusCorruption

  ghost function StatusOf(load: Load, req: CommitAppend): Status {
    if IdentityDefect(req.tableUuid, req.identity).Some? then StatusInvalidIdentity
    else
      match load
      case NotFound => NotCommitted
      case LoadError => Unknown
      case Loaded(t) =>
        if t.uuid != req.tableUuid then StatusMismatch(t.uuid)
        else if Corrupt(t, req) then StatusCorruption
        else if Landed(t, req) then Committed
        else NotCommitted
  }

  /** `resolve_append_status`. The history is scanned before the registry is
      validated, the other way round from the guard. */
  method ResolveAppendStatus(load: Load, req: CommitAppend) returns (status: Status)
    ensures status == StatusOf(load, req)
  {
    var id := req.identity;
    if IdentityDefect(req.tableUuid, id).Some? {
      return StatusInvalidIdentity;
    }
    if load.NotFound? {
      return NotCommitted;
    }
    if load.LoadError? {
      return Unknown;
    }
    var t := load.t;
    if t.uuid != req.tableUuid {
      return StatusMismatch(t.uuid);
    }
    var history := ScanHistory(t, req);
    if history.Failure? {
      return StatusCorruption;
    }
    var counted := ValidateWriterCheckpoints(t.properties);
    if counted.Failure? {
      return StatusCorruption;
    }
    var own := ParseCheckpoint(t.properties, id.writer);
    assert own.Success?;
    var inCheckpoint := own.value.Some? && own.value.value.commit == id.commit
                        && own.value.value.epoch == id.epoch && own.value.value.generation == id.gens.hi;
    if own.value.Some? && own.value.value.commit == id.commit && !inCheckpoint {
      return StatusCorruption;
    }
    return if history.value || inCheckpoint then Committed else NotCommitted;
  }

  /** The retained snapshots and the writer's checkpoint say nothing of the commit ID, and
      the registry can be read. */
  ghost predicate NothingRecorded(t: TableMetadata, req: CommitAppend) {
    var own := ParseCheckpoint(t.properties, req.identity.writer);
    && RegistryWellFormed(t.properties)
    && (forall s | s in t.snapshots :: !CarriesCommit(s.summary, req.identity.commit))
    && (own.Success? && own.value.Some? ==> own.value.value.commit != req.identity.commit)
  }

  /** A valid request gets Unknown if and only if the table could not be loaded, and
      NotCommitted if and only if the table is missing, or is of this incarnation and has
      no record of the commit ID. */
  lemma StatusByLoad(load: Load, req: CommitAppend)
    requires ValidIdentity(req.tableUuid, req.identity)
    ensures StatusOf(load, req) == Unknown <==> load.LoadError?
    ensures StatusOf(load, req) == NotCommitted <==>
            || load.NotFound?
            || (load.Loaded? && load.t.uuid == req.tableUuid && NothingRecorded(load.t, req))
    ensures StatusOf(load, req).StatusMismatch? <==> load.Loaded? && load.t.uuid != req.tableUuid
    ensures StatusOf(load, req) != StatusInvalidIdentity
  {
    if load.Loaded? {
      forall s | s in load.t.snapshots && CarriesIdentity(s.summary, req.tableUuid, req.identity)
        ensures CarriesCommit(s.summary, req.identity.commit)
      {
        assert IdentityProperties(req.tableUuid, req.identity)[0] in IdentityProperties(req.tableUuid, req.identity);
      }
    }
  }

  /** The status check and the write guard agree on every loaded table and every
      request: one reports Committed exactly when the other reports
      AlreadyCommitted, they see the same corruption, the same wrong incarnation
      and the same invalid identity, and NotCommitted leaves the guard only its
      four forward-looking answers. */
  lemma StatusAgreesWithGuard(t: TableMetadata, req: CommitAppend, limit: nat)
    ensures StatusOf(Loaded(t), req) == Committed <==> GuardVerdict(t, req, limit) == AlreadyCommitted
    ensures StatusOf(Loaded(t), req) == StatusCorruption <==> GuardVerdict(t, req, limit) == MetadataCorruption
    ensures StatusOf(Loaded(t), req) == StatusInvalidIdentity <==> GuardVerdict(t, req, limit) == InvalidIdentity
    ensures StatusOf(Loaded(t), req).StatusMismatch? <==> GuardVerdict(t, req, limit).IncarnationMismatch?
    ensures StatusOf(Loaded(t), req) == NotCommitted <==>
            var v := GuardVerdict(t, req, limit);
            v.Admit? || v.WriterRegistryFull? || v.StaleWriterEpoch? || v.OverlappingRange?
  {
  }

  /** Reusing a commit ID for another range, epoch, writer or table is reported
      as corruption by both checks while the snapshot is retained. */
  lemma ReuseIsCorruption(t: TableMetadata, req: CommitAppend, limit: nat, s: Snapshot, other: Identity)
    requires ValidIdentity(req.tableUuid, req.identity) && t.uuid == req.tableUuid
    requires s in t.snapshots && CarriesIdentity(s.summary, t.uuid, other)
    requires other.commit == req.identity.commit && other != req.identity
    ensures GuardVerdict(t, req, limit) == MetadataCorruption
    ensures StatusOf(Loaded(t), req) == StatusCorruption
  {
    var props := IdentityProperties(t.uuid, other);
    assert props[0] in props && Has(s.summary, props[0]);
    if CarriesIdentity(s.summary, req.tableUuid, req.identity) {
      SummarySpellsOneIdentity(s.summary, t.uuid, req.tableUuid, other, req.identity);
    }
  }
}
