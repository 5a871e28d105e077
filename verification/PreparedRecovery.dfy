/**
Resolution of a prepared flush after a crash
(`resolve_prepared` and `complete_prepared` in crates/teodb-ingest/src/replay.rs),
run against the append protocol with arbitrary other writers, with the
attempts of earlier process lives still in flight, and with a crash allowed
between any two steps, any number of times.
*/
module PreparedRecovery {
  import opened Wrappers
  import opened WriteProtocol
  import opened AppendGuard
  import opened CommitError
  import opened AppendLog
  import opened AppendProtocol
  import opened AppendSafety
  import opened AppendTheorems

  // The durable intent: what the sidecar file of one table incarnation holds.
  datatype PreparedFlush = PreparedFlush(tableUuid: Uuid, identity: Identity)

  /** `prepared_request`: the same immutable request in every life of the process. */
  function RequestOf(p: PreparedFlush): CommitAppend {
    CommitAppend(p.tableUuid, p.identity, map[])
  }

  // The table buffer's flush state machine, as far as this intent is concerned.
  datatype FlushState = FlushIdle | FlushPrepared | FlushBlocked

  datatype Phase =
    | Down                     // crashed, or startup failed
    | Starting                 // sidecar found
    | Restored                 // its WAL range is back in flight
    | Committing(a: nat)       // an append attempt is running
    | Proven                   // exact identity found in the catalog
    | BufferMarked | WalMarked
    | Finished
    | Contained                // resolution gave up for now

  // The sidecar and the WAL cutoff are durable, the rest is memory.
  datatype Node = Node(sidecar: bool, walMarked: bool, flush: FlushState, phase: Phase)

  datatype System = System(w: World, node: Node)

  datatype Action =
    | Environment(ev: Event)
    | Crash
    | Restart
    | Restore(ok: bool)
    | CheckStatus(reachable: bool, a: nat, limit: nat, nowMs: nat)
    | AppendReturned
    | MarkBuffer(ok: bool)
    | MarkWal
    | RemoveSidecar(ok: bool)

  /** Commit IDs are generated once: nobody else starts an append with this one. */
  ghost predicate Owned(p: PreparedFlush, w: World) {
    forall a | a in w.attempts && w.attempts[a].req.identity.commit == p.identity.commit ::
      w.attempts[a].req == RequestOf(p)
  }

  ghost predicate RespectsOwnership(p: PreparedFlush, ev: Event) {
    ev.Begin? && ev.req.identity.commit == p.identity.commit ==> ev.req == RequestOf(p)
  }

  ghost function CatalogLoad(w: World, reachable: bool): Load {
    if !reachable then LoadError else if w.table.Some? then Loaded(w.table.value) else NotFound
  }

  const DOWN_MEMORY := FlushIdle

  function FailStartup(n: Node): Node {
    n.(flush := DOWN_MEMORY, phase := Down)
  }

  ghost predicate Act(limit: nat, p: PreparedFlush, s: System, action: Action, s': System) {
    var n := s.node;
    match action
    case Environment(ev) =>
      Step(limit, s.w, ev, s'.w) && RespectsOwnership(p, ev) && s'.node == n
    case Crash =>
      s' == s.(node := FailStartup(n))
    case Restart =>
      n.phase.Down? && s' == s.(node := n.(phase := if n.sidecar then Starting else Finished))
    case Restore(ok) =>
      && n.phase.Starting?
      && s' == s.(node := if ok then n.(flush := FlushPrepared, phase := Restored) else FailStartup(n))
    case CheckStatus(reachable, a, lim, nowMs) =>
      && n.phase.Restored?
      && (match StatusOf(CatalogLoad(s.w, reachable), RequestOf(p))
          case Committed => s' == s.(node := n.(phase := Proven))
          case NotCommitted =>
            && Step(limit, s.w, Begin(a, RequestOf(p), lim, nowMs), s'.w)
            && s'.node == n.(phase := Committing(a))
          case _ => s' == s.(node := n.(flush := FlushBlocked, phase := Contained)))
    case AppendReturned =>
      && n.phase.Committing? && n.phase.a in s.w.attempts && s.w.attempts[n.phase.a].result.Some?
      && s' == s.(node := if s.w.attempts[n.phase.a].result == Some(Ok) then n.(phase := Proven)
                          else n.(flush := FlushBlocked, phase := Contained))
    case MarkBuffer(ok) =>
      n.phase.Proven? && s' == s.(node := if ok then n.(flush := FlushIdle, phase := BufferMarked) else FailStartup(n))
    case MarkWal =>
      n.phase.BufferMarked? && s' == s.(node := n.(walMarked := true, phase := WalMarked))
    case RemoveSidecar(ok) =>
      n.phase.WalMarked? && s' == s.(node := if ok then n.(sidecar := false, phase := Finished) else FailStartup(n))
  }

  /** A history of recoveries: the process was down with its sidecar on disk, and
      the catalog was in any reachable state. */
  ghost predicate Recovery(limit: nat, p: PreparedFlush, states: seq<System>, actions: seq<Action>) {
    && |states| == |actions| + 1
    && Inv(limit, states[0].w) && Owned(p, states[0].w)
    && states[0].node == Node(true, false, DOWN_MEMORY, Down)
    && forall k | 0 <= k < |actions| :: Act(limit, p, states[k], actions[k], states[k + 1])
  }

  /* ---------- Invariant ---------- */

  ghost predicate NodeInv(p: PreparedFlush, w: World, n: Node) {
    && (!n.sidecar || n.walMarked || n.phase in {Proven, BufferMarked, WalMarked, Finished} ==>
          Published(w.log, RequestOf(p)))
    && (n.phase.Committing? ==> n.phase.a in w.attempts && w.attempts[n.phase.a].req == RequestOf(p))
    && (n.phase in {Starting, Restored, Proven, BufferMarked, WalMarked, Contained} || n.phase.Committing?
        ==> n.sidecar)
    && (n.phase.Finished? ==> !n.sidecar)
    && (n.phase.Contained? ==> n.flush == FlushBlocked)
    && (n.phase.Restored? || n.phase.Committing? || n.phase.Proven? ==> n.flush == FlushPrepared)
  }

  ghost predicate SystemInv(limit: nat, p: PreparedFlush, s: System) {
    Inv(limit, s.w) && Owned(p, s.w) && NodeInv(p, s.w, s.node)
  }

  /** Whatever the catalog records under the owned commit ID is this intent. */
  lemma LandedIsExact(limit: nat, p: PreparedFlush, w: World)
    requires Inv(limit, w) && Owned(p, w) && LandedInLog(w.log, RequestOf(p))
    ensures Published(w.log, RequestOf(p))
  {
    var i :| 0 <= i < |w.log| && MatchesCheckpoint(w.log[i], RequestOf(p));
    assert Wrote(w.log[i], w.log[i].attempt, w.attempts[w.log[i].attempt]);
    assert Publishes(w.log[i], p.tableUuid, p.identity);
  }

  lemma WorldStep(limit: nat, p: PreparedFlush, w: World, ev: Event, w': World)
    requires Inv(limit, w) && Owned(p, w) && Step(limit, w, ev, w') && RespectsOwnership(p, ev)
    ensures Inv(limit, w') && Owned(p, w') && w.log <= w'.log
    ensures forall a | a in w.attempts :: a in w'.attempts && w'.attempts[a].req == w.attempts[a].req
  {
    StepKeepsInv(limit, w, ev, w');
    RequestsArePermanent(limit, w, ev, w');
  }

  lemma RequestsArePermanent(limit: nat, w: World, ev: Event, w': World)
    requires Step(limit, w, ev, w')
    ensures w.log <= w'.log
    ensures forall a | a in w.attempts :: a in w'.attempts && w'.attempts[a].req == w.attempts[a].req
    ensures forall a | a in w'.attempts && a !in w.attempts :: ev.Begin? && w'.attempts[a].req == ev.req
  {
  }

  lemma NodeSurvivesWorldStep(p: PreparedFlush, w: World, w': World, n: Node)
    requires NodeInv(p, w, n) && w.log <= w'.log
    requires forall a | a in w.attempts :: a in w'.attempts && w'.attempts[a].req == w.attempts[a].req
    ensures NodeInv(p, w', n)
  {
    if Published(w.log, RequestOf(p)) {
      PublishedInLonger(w.log, w'.log, RequestOf(p));
    }
  }

  lemma CommittedMeansPublished(limit: nat, p: PreparedFlush, w: World, reachable: bool)
    requires Inv(limit, w) && Owned(p, w)
    requires StatusOf(CatalogLoad(w, reachable), RequestOf(p)) == Committed
    ensures Published(w.log, RequestOf(p))
  {
    LandedMeansPublished(w.table.value, w.log, RequestOf(p));
    LandedIsExact(limit, p, w);
  }

  lemma ActKeepsInv(limit: nat, p: PreparedFlush, s: System, action: Action, s': System)
    requires SystemInv(limit, p, s) && Act(limit, p, s, action, s')
    ensures SystemInv(limit, p, s')
  {
    match action
    case Environment(ev) =>
      WorldStep(limit, p, s.w, ev, s'.w);
      NodeSurvivesWorldStep(p, s.w, s'.w, s.node);
    case CheckStatus(reachable, a, lim, nowMs) =>
      var status := StatusOf(CatalogLoad(s.w, reachable), RequestOf(p));
      if status == Committed {
        CommittedMeansPublished(limit, p, s.w, reachable);
      } else if status == NotCommitted {
        WorldStep(limit, p, s.w, Begin(a, RequestOf(p), lim, nowMs), s'.w);
        NodeSurvivesWorldStep(p, s.w, s'.w, s.node);
      }
    case AppendReturned =>
      var x := s.w.attempts[s.node.phase.a];
      if x.result == Some(Ok) {
        assert GoodResult(s.w.log, x);
        LandedIsExact(limit, p, s.w);
      }
    case _ =>
  }

  lemma {:induction false} RecoveryKeepsInv(
      limit: nat, p: PreparedFlush, states: seq<System>, actions: seq<Action>, k: nat)
    requires Recovery(limit, p, states, actions) && k < |states|
    ensures SystemInv(limit, p, states[k])
  {
    if k > 0 {
      RecoveryKeepsInv(limit, p, states, actions, k - 1);
      ActKeepsInv(limit, p, states[k - 1], actions[k - 1], states[k]);
    }
  }

  /* ---------- Theorems ---------- */

  /** Over any number of crashes and recoveries the intent is published at most
      once; the sidecar is gone only when its exact identity is in the catalog. */
  lemma IntentPublishedAtMostOnce(limit: nat, p: PreparedFlush, states: seq<System>, actions: seq<Action>, k: nat)
    requires Recovery(limit, p, states, actions) && k < |states|
    ensures forall i, j | 0 <= i < |states[k].w.log| && 0 <= j < |states[k].w.log|
                          && Publishes(states[k].w.log[i], p.tableUuid, p.identity)
                          && Publishes(states[k].w.log[j], p.tableUuid, p.identity) :: i == j
    ensures !states[k].node.sidecar || states[k].node.walMarked ==> Published(states[k].w.log, RequestOf(p))
  {
    RecoveryKeepsInv(limit, p, states, actions, k);
    var log := states[k].w.log;
    forall i, j | 0 <= i < |log| && 0 <= j < |log| && Publishes(log[i], p.tableUuid, p.identity)
                  && Publishes(log[j], p.tableUuid, p.identity)
      ensures i == j
    {
      assert ValidIdentity(log[i].uuid, log[i].req.identity);
      IdentityPublishedOnce(log, i, j, p.tableUuid, p.identity);
    }
  }

  /** The step that removes the sidecar starts from a catalog that already holds
      the exact identity. */
  lemma SidecarRemovedOnlyWhenPublished(limit: nat, p: PreparedFlush, states: seq<System>, actions: seq<Action>, k: nat)
    requires Recovery(limit, p, states, actions) && k < |actions|
    requires states[k].node.sidecar && !states[k + 1].node.sidecar
    ensures Published(states[k].w.log, RequestOf(p))
  {
    RecoveryKeepsInv(limit, p, states, actions, k);
  }

  /** How a recovery can rest: finished with exactly one publication and a marked
      WAL cutoff never without it, or contained with the sidecar kept and the table
      blocked, or down with the sidecar kept unless the intent is published. */
  lemma RestingStates(limit: nat, p: PreparedFlush, states: seq<System>, actions: seq<Action>, k: nat)
    requires Recovery(limit, p, states, actions) && k < |states|
    ensures states[k].node.phase.Finished? ==> !states[k].node.sidecar && Published(states[k].w.log, RequestOf(p))
    ensures states[k].node.phase.Contained? ==> states[k].node.sidecar && states[k].node.flush == FlushBlocked
    ensures !Published(states[k].w.log, RequestOf(p)) ==> states[k].node.sidecar && !states[k].node.walMarked
  {
    RecoveryKeepsInv(limit, p, states, actions, k);
  }

  /** Where a step out of a resolution can lead. */
  ghost predicate LeavesResolution(p: PreparedFlush, s: System, action: Action, s': System) {
    match s'.node.phase
    case Proven => Published(s.w.log, RequestOf(p)) && s'.w == s.w
    case Committing(a) => s.node.phase.Restored? && a !in s.w.attempts && Running(s'.w, a)
    case Down => action == Crash && s'.w == s.w
    case Contained => s'.node.flush == FlushBlocked && s'.w == s.w
    case _ => false
  }

  /** The status check or the append has answered, and the answer proves nothing. */
  ghost predicate Inconclusive(p: PreparedFlush, s: System, action: Action) {
    match action
    case CheckStatus(reachable, _, _, _) =>
      var status := StatusOf(CatalogLoad(s.w, reachable), RequestOf(p));
      status != Committed && status != NotCommitted
    case AppendReturned =>
      s.node.phase.Committing? && s.node.phase.a in s.w.attempts
      && s.w.attempts[s.node.phase.a].result != Some(Ok)
    case _ => false
  }

  /** Every step out of a resolution: proof of publication, one append attempt after
      NotCommitted, a crash that keeps the sidecar, or containment. Every answer of the
      status check or of the append that proves nothing contains the intent: sidecar
      kept and table blocked in that same step, and nothing happens to the catalog. */
  lemma OtherOutcomesAreContained(limit: nat, p: PreparedFlush, s: System, action: Action, s': System)
    requires SystemInv(limit, p, s) && Act(limit, p, s, action, s')
    requires s.node.phase.Restored? || s.node.phase.Committing?
    requires s'.node.phase != s.node.phase
    ensures s'.node.sidecar && LeavesResolution(p, s, action, s')
    ensures s'.node.phase.Contained? <==> Inconclusive(p, s, action)
  {
    ActKeepsInv(limit, p, s, action, s');
  }

  /** With a valid intent the status check of an unreachable catalog contains the intent:
      nothing is begun, the sidecar is kept and the table is blocked. */
  lemma UnreachableIsContained(
      limit: nat, p: PreparedFlush, s: System, a: nat, lim: nat, nowMs: nat, s': System)
    requires s.node.phase.Restored? && ValidIdentity(p.tableUuid, p.identity)
    requires Act(limit, p, s, CheckStatus(false, a, lim, nowMs), s')
    ensures s' == s.(node := s.node.(flush := FlushBlocked, phase := Contained))
  {
    StatusByLoad(LoadError, RequestOf(p));
  }

  /** A status check begins another attempt if and only if the catalog was reached and
      has no table of this name, or one of this incarnation without a record of the
      commit ID. */
  lemma RetriedOnlyIfUnrecorded(
      limit: nat, p: PreparedFlush, s: System, reachable: bool, a: nat, lim: nat, nowMs: nat, s': System)
    requires s.node.phase.Restored? && ValidIdentity(p.tableUuid, p.identity)
    requires Act(limit, p, s, CheckStatus(reachable, a, lim, nowMs), s')
    ensures s'.node.phase.Committing? <==>
            && reachable
            && (s.w.table.None?
                || (s.w.table.value.uuid == p.tableUuid && NothingRecorded(s.w.table.value, RequestOf(p))))
  {
    StatusByLoad(CatalogLoad(s.w, reachable), RequestOf(p));
  }

  /* ---------- Completion ---------- */

  /** The sidecar goes last: the WAL cutoff is marked before it, and the buffer before
      that. */
  ghost predicate InOrder(n: Node) {
    && (!n.sidecar || n.phase.WalMarked? ==> n.walMarked)
    && (n.phase.BufferMarked? || n.phase.WalMarked? || n.phase.Finished? ==> n.flush == FlushIdle)
    && (n.phase.Down? || n.phase.Starting? ==> n.flush == FlushIdle)
  }

  lemma {:induction false} CompletionIsInOrder(
      limit: nat, p: PreparedFlush, states: seq<System>, actions: seq<Action>, k: nat)
    requires Recovery(limit, p, states, actions) && k < |states|
    ensures InOrder(states[k].node)
  {
    if k > 0 {
      CompletionIsInOrder(limit, p, states, actions, k - 1);
      assert Act(limit, p, states[k - 1], actions[k - 1], states[k]);
    }
  }

  /** From proof of publication the completion can run through: table idle, cutoff marked,
      sidecar gone, catalog untouched. */
  lemma ProvenCompletes(limit: nat, p: PreparedFlush, s: System)
    returns (buffer: System, wal: System, finished: System)
    requires s.node.phase.Proven?
    ensures Act(limit, p, s, MarkBuffer(true), buffer) && Act(limit, p, buffer, MarkWal, wal)
    ensures Act(limit, p, wal, RemoveSidecar(true), finished)
    ensures finished == System(s.w, Node(false, true, FlushIdle, Finished))
  {
    buffer := s.(node := s.node.(flush := FlushIdle, phase := BufferMarked));
    wal := s.(node := s.node.(flush := FlushIdle, phase := WalMarked, walMarked := true));
    finished := System(s.w, Node(false, true, FlushIdle, Finished));
  }

  /** After a crash the process can restart, find the sidecar and restore its range. */
  lemma CrashedIsRestored(limit: nat, p: PreparedFlush, s: System)
    returns (down: System, starting: System, restored: System)
    requires s.node.sidecar
    ensures Act(limit, p, s, Crash, down) && Act(limit, p, down, Restart, starting)
    ensures Act(limit, p, starting, Restore(true), restored)
    ensures down.node.phase.Down? && down.node.flush == FlushIdle && down.node.sidecar
    ensures restored == System(s.w, Node(true, s.node.walMarked, FlushPrepared, Restored))
  {
    down := System(s.w, Node(true, s.node.walMarked, FlushIdle, Down));
    starting := System(s.w, Node(true, s.node.walMarked, FlushIdle, Starting));
    restored := System(s.w, Node(true, s.node.walMarked, FlushPrepared, Restored));
  }

  /** An intent that the catalog shows is proven by the status check. */
  lemma ShownIntentIsProven(limit: nat, p: PreparedFlush, s: System, a: nat, lim: nat, nowMs: nat) returns (s': System)
    requires s.node.phase.Restored? && ValidIdentity(p.tableUuid, p.identity)
    requires s.w.table.Some? && s.w.table.value.uuid == p.tableUuid
    requires Landed(s.w.table.value, RequestOf(p)) && !Corrupt(s.w.table.value, RequestOf(p))
    ensures Act(limit, p, s, CheckStatus(true, a, lim, nowMs), s') && s' == s.(node := s.node.(phase := Proven))
  {
    s' := s.(node := s.node.(phase := Proven));
  }

  /** A retry that returns Ok proves the intent, and only such a one does. */
  lemma RetryProvesIff(limit: nat, p: PreparedFlush, s: System, s': System)
    requires Act(limit, p, s, AppendReturned, s')
    ensures s.node.phase.Committing? && s.node.phase.a in s.w.attempts && s'.w == s.w
    ensures s.w.attempts[s.node.phase.a].result == Some(Ok) <==> s'.node == s.node.(phase := Proven)
    ensures s.w.attempts[s.node.phase.a].result != Some(Ok) <==>
            s'.node == s.node.(flush := FlushBlocked, phase := Contained)
  {
  }

  /** A step of the resolution that fails brings the process down; nothing durable
      changes. */
  lemma FailedStepKeepsSidecar(limit: nat, p: PreparedFlush, s: System, action: Action, s': System)
    requires Act(limit, p, s, action, s')
    requires action == Restore(false) || action == MarkBuffer(false) || action == RemoveSidecar(false)
    ensures s'.w == s.w && s'.node.phase.Down?
    ensures s'.node.sidecar == s.node.sidecar && s'.node.walMarked == s.node.walMarked
  {
  }
}
