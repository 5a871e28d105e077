/**
The publication log: everything ever published to one table name, in order,
over all incarnations of the table. It is a history variable of the protocol
model and the reference against which table metadata is judged.
*/
module AppendLog {
  import opened Wrappers
  import opened WriteProtocol
  import opened AppendGuard

  const ENGINE_VERSION := "0.1.0"

  datatype Entry =
    | AppendEntry(uuid: Uuid, snap: int, req: CommitAppend, nowMs: nat, attempt: nat)
    | ReplaceEntry(uuid: Uuid, snap: int, marks: Summary)

  function EntrySummary(e: Entry): Summary {
    if e.AppendEntry? then AppendSummary(e.req, ENGINE_VERSION) else e.marks
  }

  predicate IsAppend(e: Entry, u: Uuid, w: Uuid) {
    e.AppendEntry? && e.uuid == u && e.req.identity.writer == w
  }

  predicate Publishes(e: Entry, u: Uuid, id: Identity) {
    e.AppendEntry? && e.uuid == u && e.req.identity == id
  }

  /** The snapshot most recently published to incarnation `u`. */
  function LastSnap(log: seq<Entry>, u: Uuid): Option<int> {
    if log == [] then None
    else if log[|log| - 1].uuid == u then Some(log[|log| - 1].snap)
    else LastSnap(log[..|log| - 1], u)
  }

  /** Each writer's newest append to incarnation `u`. */
  function Newest(log: seq<Entry>, u: Uuid): (m: map<Uuid, Entry>)
    ensures forall w | w in m :: IsAppend(m[w], u, w)
  {
    if log == [] then map[]
    else
      var e := log[|log| - 1];
      var before := Newest(log[..|log| - 1], u);
      if e.AppendEntry? && e.uuid == u then before[e.req.identity.writer := e] else before
  }

  /** The snapshot that entry `i` published. */
  function SnapshotAt(log: seq<Entry>, i: nat): Snapshot
    requires i < |log|
  {
    Snapshot(log[i].snap, LastSnap(log[..i], log[i].uuid), EntrySummary(log[i]))
  }

  /* ---------- Order ---------- */

  ghost predicate DistinctSnapshots(log: seq<Entry>) {
    forall i, j | 0 <= i < j < |log| && log[i].uuid == log[j].uuid :: log[i].snap != log[j].snap
  }

  ghost predicate WellFormedEntries(log: seq<Entry>) {
    forall i | 0 <= i < |log| ::
      if log[i].AppendEntry? then
        && log[i].uuid == log[i].req.tableUuid
        && ValidIdentity(log[i].uuid, log[i].req.identity)
        && Publishable(log[i].req)
      else CommitIdKey !in log[i].marks
  }

  /** One writer's appends to one incarnation: ranges strictly increase, epochs
      never decrease. */
  predicate Before(a: Identity, b: Identity) {
    a.gens.hi < b.gens.lo && a.epoch <= b.epoch
  }

  ghost predicate WriterOrder(log: seq<Entry>) {
    forall i, j | 0 <= i < j < |log| && log[i].AppendEntry?
                  && IsAppend(log[j], log[i].uuid, log[i].req.identity.writer) ::
      Before(log[i].req.identity, log[j].req.identity)
  }

  ghost predicate GoodLog(log: seq<Entry>) {
    DistinctSnapshots(log) && WellFormedEntries(log) && WriterOrder(log)
  }

  /* ---------- Lemmas ---------- */

  lemma {:induction false} LastSnapIndex(log: seq<Entry>, u: Uuid) returns (i: int)
    ensures -1 <= i < |log|
    ensures i == -1 ==> LastSnap(log, u) == None
    ensures i >= 0 ==> log[i].uuid == u && LastSnap(log, u) == Some(log[i].snap)
    ensures forall j | i < j < |log| :: log[j].uuid != u
  {
    if log == [] {
      i := -1;
    } else if log[|log| - 1].uuid == u {
      i := |log| - 1;
    } else {
      var prefix := log[..|log| - 1];
      i := LastSnapIndex(prefix, u);
      assert forall j | 0 <= j < |prefix| :: prefix[j] == log[j];
    }
  }

  /** An unchanged head means nothing was published to the incarnation since:
      the compare-and-swap on the head has no ABA window. */
  lemma {:induction false} SameHeadMeansQuiet(log: seq<Entry>, at: nat, u: Uuid)
    requires at <= |log| && DistinctSnapshots(log)
    requires LastSnap(log[..at], u) == LastSnap(log, u)
    ensures forall j | at <= j < |log| :: log[j].uuid != u
  {
    var i := LastSnapIndex(log[..at], u);
    var k := LastSnapIndex(log, u);
  }

  lemma {:induction false} NewestUnchanged(log: seq<Entry>, at: nat, u: Uuid)
    requires at <= |log|
    requires forall j | at <= j < |log| :: log[j].uuid != u
    ensures Newest(log, u) == Newest(log[..at], u)
    ensures LastSnap(log, u) == LastSnap(log[..at], u)
  {
    if at == |log| {
      assert log[..at] == log;
    } else {
      var prefix := log[..|log| - 1];
      NewestUnchanged(prefix, at, u);
      assert prefix[..at] == log[..at];
    }
  }

  /** `Newest` names a real entry with no later append by its writer. */
  lemma {:induction false} NewestIndex(log: seq<Entry>, u: Uuid, w: Uuid) returns (i: int)
    ensures -1 <= i < |log|
    ensures i == -1 <==> w !in Newest(log, u)
    ensures i >= 0 ==> IsAppend(log[i], u, w) && Newest(log, u)[w] == log[i]
    ensures forall j | i < j < |log| :: !IsAppend(log[j], u, w)
  {
    if log == [] {
      i := -1;
    } else if IsAppend(log[|log| - 1], u, w) {
      i := |log| - 1;
    } else {
      var prefix := log[..|log| - 1];
      i := NewestIndex(prefix, u, w);
      assert forall j | 0 <= j < |prefix| :: prefix[j] == log[j];
    }
  }

  /** An append past its writer's newest one comes after every earlier one. */
  lemma {:induction false} PastNewestIsPastAll(log: seq<Entry>, u: Uuid, id: Identity)
    requires GoodLog(log)
    requires id.writer in Newest(log, u) ==> Before(Newest(log, u)[id.writer].req.identity, id)
    ensures forall i | 0 <= i < |log| && IsAppend(log[i], u, id.writer) :: Before(log[i].req.identity, id)
  {
    var k := NewestIndex(log, u, id.writer);
    forall i | 0 <= i < |log| && IsAppend(log[i], u, id.writer)
      ensures Before(log[i].req.identity, id)
    {
      if i < k {
        assert Before(log[i].req.identity, log[k].req.identity);
      }
    }
  }

  lemma ExtendGoodLog(log: seq<Entry>, e: Entry)
    requires GoodLog(log)
    requires forall i | 0 <= i < |log| && log[i].uuid == e.uuid :: log[i].snap != e.snap
    requires WellFormedEntries([e])
    requires e.AppendEntry? ==>
               forall i | 0 <= i < |log| && IsAppend(log[i], e.uuid, e.req.identity.writer) ::
                 Before(log[i].req.identity, e.req.identity)
    ensures GoodLog(log + [e])
  {
    assert [e][0] == e;
  }

  /** Extending the log keeps the snapshot of every earlier entry. */
  lemma SnapshotAtExtended(log: seq<Entry>, more: seq<Entry>, i: nat)
    requires i < |log|
    ensures SnapshotAt(log + more, i) == SnapshotAt(log, i)
  {
    assert (log + more)[..i] == log[..i];
  }

  /** Every generation of a writer is published by at most one entry. */
  lemma GenerationsDisjoint(log: seq<Entry>, i: nat, j: nat, u: Uuid, w: Uuid, g: nat)
    requires GoodLog(log) && i < |log| && j < |log|
    requires IsAppend(log[i], u, w) && IsAppend(log[j], u, w)
    requires Contains(log[i].req.identity.gens, g) && Contains(log[j].req.identity.gens, g)
    ensures i == j
  {
  }

  /** An exact identity is published by at most one entry. */
  lemma IdentityPublishedOnce(log: seq<Entry>, i: nat, j: nat, u: Uuid, id: Identity)
    requires GoodLog(log) && i < |log| && j < |log|
    requires Publishes(log[i], u, id) && Publishes(log[j], u, id)
    ensures i == j
  {
    GenerationsDisjoint(log, i, j, u, id.writer, id.gens.lo);
  }
}
