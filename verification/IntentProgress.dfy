/**
When recovery gets through with prepared flushes on disk: a resolution succeeds if both
ends of the intent's range are in the buffer or the checkpoint covers it, and a whole
recovery if each intent's records fit into the buffer together
(`resolve_prepared` in crates/teodb-ingest/src/replay.rs, `restore_prepared` in
crates/teodb-ingest/src/buffer/table.rs).
*/
module IntentProgress {
  import opened Wrappers
  import opened WriteProtocol
  import opened Idempotency
  import opened TableRecovery
  import opened Replay
  import opened Recovery
  import opened RecoveryRun
  import opened RecoveryPlaces
  import opened RecoveryRoom
  import opened RecoveryProgress

  // ----- One resolution -----

  ghost predicate HasGeneration(s: seq<Record>, g: nat) {
    exists r | r in s :: r.generation == g
  }

  lemma RangeIs(s: seq<Record>, gens: GenerationRange)
    requires s != [] && forall r | r in s :: Contains(gens, r.generation)
    ensures RangeOf(s) == gens <==> HasGeneration(s, gens.lo) && HasGeneration(s, gens.hi)
  {
    RangeOfBounds(s);
  }

  /** An intent can be restored into an idle buffer if and only if the checkpoint covers
      it or both ends of its range are pending. */
  lemma RestoredIff(b: Buffer, intent: Intent)
    requires b.inFlight == [] && intent.gens.lo <= intent.gens.hi
    ensures Restore(b, intent).Some? <==>
            || intent.gens.hi <= b.highWater
            || (HasGeneration(b.pending, intent.gens.lo) && HasGeneration(b.pending, intent.gens.hi))
  {
    var restored := Split(b.pending, intent.gens, true);
    SplitMembers(b.pending, intent.gens, true);
    if restored != [] {
      RangeIs(restored, intent.gens);
    }
  }

  /** Recovery goes on after a resolution if and only if the sidecar is valid, the intent
      can be restored, and it is contained or proven with its sidecar removed. */
  lemma ResolvedIff(t: Table, intent: Intent, a: ResolveAnswer)
    requires t.buffer.Some? && t.buffer.value.inFlight == [] && intent.gens.lo <= intent.gens.hi
    ensures var b := t.buffer.value;
            Resolve(t, intent, a).1 <==>
            && (a == Proven(true) || a.Contained?)
            && (|| intent.gens.hi <= b.highWater
                || (HasGeneration(b.pending, intent.gens.lo) && HasGeneration(b.pending, intent.gens.hi)))
  {
    RestoredIff(t.buffer.value, intent);
  }

  /** A proven intent raises the high-water mark to the end of its range and never lowers
      it; its sidecar stays on disk exactly if it could not be removed. */
  lemma ProvenRaisesMark(t: Table, intent: Intent, removed: bool)
    requires t.buffer.Some? && Restore(t.buffer.value, intent).Some?
    ensures var t', hi := Resolve(t, intent, Proven(removed)).0, intent.gens.hi;
            && t'.buffer.Some? && t'.buffer.value.flush.Idle?
            && t'.buffer.value.highWater == (if hi > t.buffer.value.highWater then hi else t.buffer.value.highWater)
            && t'.sidecar == (if removed then None else t.sidecar)
  {
  }

  /** No record lowers a table's high-water mark. */
  lemma MarkNeverFalls(
      cfg: Config, checkpoint: Option<nat>, t: Table, index: TableIndex, r: Record, a: Answers)
    requires t.buffer.Some? && Settled(t)
    ensures var t' := Handle(cfg, checkpoint, t, index, r, a).table;
            t'.buffer.Some? && t.buffer.value.highWater <= t'.buffer.value.highWater
  {
    var loaded, inserted := HandleSteps(cfg, checkpoint, t, index, r, a);
    InsertKeepsMark(cfg, t, r, a.flush);
    ResolveKeepsMark(inserted, r, a.resolve);
  }

  lemma InsertKeepsMark(cfg: Config, t: Table, r: Record, a: FlushAnswer)
    requires t.buffer.Some? && Settled(t)
    ensures t.buffer.value.highWater <= InsertOrFlush(cfg, t, r, a).0.buffer.value.highWater
  {
    FlushKeepsMark(t, r.key, a);
  }

  lemma FlushKeepsMark(t: Table, key: TableKey, a: FlushAnswer)
    requires t.buffer.Some? && Settled(t)
    ensures t.buffer.value.highWater <= Flush(t, key, a).0.buffer.value.highWater
  {
    var b := t.buffer.value;
    if b.inFlight != [] || b.pending != [] {
      RangeOfBounds(if b.inFlight != [] then b.inFlight else b.pending);
    }
  }

  lemma ResolveKeepsMark(t: Table, r: Record, a: ResolveAnswer)
    requires t.buffer.Some?
    ensures var t' := ResolveIfReached(t, r, a).0;
            t'.buffer.Some? && t.buffer.value.highWater <= t'.buffer.value.highWater
  {
  }

  /** A sidecar left over after the loop is settled if and only if its table's buffer is
      there or can be loaded, and the resolution then succeeds. */
  lemma LeftoverSettledIff(t: Table, checkpoint: Option<nat>, a: Answers)
    requires t.unresolved.Some? && Settled(t) && (t.buffer.Some? ==> t.buffer.value.inFlight == [])
    requires t.unresolved.value.gens.lo <= t.unresolved.value.gens.hi
    ensures var p := t.unresolved.value;
            var b := LoadBuffer(t, CheckpointValue(checkpoint), a.landed).buffer.value;
            SettleLeftover(t, checkpoint, a).1 <==>
            && (t.buffer.Some? || a.loads) && (a.resolve == Proven(true) || a.resolve.Contained?)
            && (|| p.gens.hi <= b.highWater
                || (HasGeneration(b.pending, p.gens.lo) && HasGeneration(b.pending, p.gens.hi)))
  {
    if t.buffer.Some? || a.loads {
      ResolvedIff(LoadBuffer(t, CheckpointValue(checkpoint), a.landed), t.unresolved.value, a.resolve);
    }
  }

  /** A record that is not covered fails recovery if its table's buffer cannot be loaded. */
  lemma UnloadableFails(
      cfg: Config, checkpoint: Option<nat>, t: Table, index: TableIndex, r: Record, a: Answers)
    requires t.buffer.None? && !a.loads
    ensures Handle(cfg, checkpoint, t, index, r, a).outcome.None? <==> !CoveredBy(checkpoint, r)
  {
  }

  // ----- The records of one table -----

  /** The table's records among the first `n` that its checkpoint does not cover. */
  function NeededOf(checkpoint: Option<nat>, records: seq<Record>, key: TableKey, n: nat): seq<Record>
    requires n <= |records|
  {
    if n == 0 then []
    else
      NeededOf(checkpoint, records, key, n - 1)
      + if records[n - 1].key == key && !CoveredBy(checkpoint, records[n - 1]) then [records[n - 1]] else []
  }

  lemma {:induction false} NeededIn(checkpoint: Option<nat>, records: seq<Record>, key: TableKey, n: nat, r: Record)
    requires n <= |records|
    ensures r in NeededOf(checkpoint, records, key, n) <==>
            exists i :: 0 <= i < n && records[i] == r && r.key == key && !CoveredBy(checkpoint, r)
  {
    if n > 0 {
      NeededIn(checkpoint, records, key, n - 1, r);
    }
  }

  lemma {:induction false} OneMoreBytes(s: seq<Record>, r: Record, gens: GenerationRange)
    ensures Bytes(Split(s, gens, true)) <= Bytes(Split(s + [r], gens, true))
  {
    assert (s + [r])[..|s|] == s;
    var inside := Split(s, gens, true);
    assert (inside + [r])[..|inside|] == inside;
  }

  lemma {:induction false} NextRangeBytes(
      checkpoint: Option<nat>, records: seq<Record>, key: TableKey, gens: GenerationRange, n: nat)
    requires 0 < n <= |records|
    ensures Bytes(Split(NeededOf(checkpoint, records, key, n - 1), gens, true))
         <= Bytes(Split(NeededOf(checkpoint, records, key, n), gens, true))
  {
    var before := NeededOf(checkpoint, records, key, n - 1);
    OneMoreBytes(before, records[n - 1], gens);
    assert before + [] == before;
  }

  lemma {:induction false} RangeBytesGrow(
      checkpoint: Option<nat>, records: seq<Record>, key: TableKey, gens: GenerationRange, m: nat, n: nat)
    requires m <= n <= |records|
    ensures Bytes(Split(NeededOf(checkpoint, records, key, m), gens, true))
         <= Bytes(Split(NeededOf(checkpoint, records, key, n), gens, true))
  {
    if m < n {
      RangeBytesGrow(checkpoint, records, key, gens, m, n - 1);
      NextRangeBytes(checkpoint, records, key, gens, n);
    }
  }

  lemma {:induction false} SplitOfAll(s: seq<Record>, gens: GenerationRange)
    requires forall r | r in s :: Contains(gens, r.generation)
    ensures Split(s, gens, true) == s && Split(s, gens, false) == []
  {
    if s != [] {
      SplitOfAll(s[..|s| - 1], gens);
      assert s == s[..|s| - 1] + [s[|s| - 1]];
    }
  }

  /** The checkpoint covers the intent, or the log has both ends of its range and nothing
      below it that is not committed, and its records fit into the buffer together. */
  ghost predicate Restorable(cfg: Config, checkpoint: Option<nat>, records: seq<Record>, p: Intent) {
    var needed := NeededOf(checkpoint, records, p.key, |records|);
    || p.gens.hi <= CheckpointValue(checkpoint)
    || (&& HasGeneration(needed, p.gens.lo) && HasGeneration(needed, p.gens.hi)
        && (forall r | r in needed :: p.gens.lo <= r.generation)
        && Bytes(Split(needed, p.gens, true)) <= cfg.maxBytes)
  }

  // ----- A table with an open intent -----

  /** Everything needed so far is pending, and none of it reaches the end of the range. */
  ghost predicate Waiting(t: Table, p: Intent, checkpoint: Option<nat>, needed: seq<Record>) {
    && t.unresolved == Some(p) && t.sidecar == Some(p)
    && (t.buffer.None? ==> needed == [])
    && (t.buffer.Some? ==> t.buffer == Some(Buffer(needed, [], CheckpointValue(checkpoint), Idle)))
    && forall r | r in needed :: CheckpointValue(checkpoint) < r.generation < p.gens.hi
  }

  ghost predicate Proving(a: Answers) {
    Publishing(a) && !a.landed && a.resolve == Proven(true)
  }

  /** A needed record of a table with an open intent lies in the intent's range, unless the
      checkpoint covers the intent. */
  lemma {:induction false} NextIsInRange(
      cfg: Config, checkpoint: Option<nat>, records: seq<Record>, p: Intent, n: nat)
    requires PlanOrdered(records) && n < |records| && records[n].key == p.key && !CoveredBy(checkpoint, records[n])
    requires Restorable(cfg, checkpoint, records, p) && p.gens.hi > CheckpointValue(checkpoint)
    requires forall r | r in NeededOf(checkpoint, records, p.key, n) :: r.generation < p.gens.hi
    ensures Contains(p.gens, records[n].generation)
    ensures forall r | r in NeededOf(checkpoint, records, p.key, n) :: Contains(p.gens, r.generation)
    ensures records[n].generation == p.gens.hi ==>
              HasGeneration(NeededOf(checkpoint, records, p.key, n) + [records[n]], p.gens.lo)
  {
    var all, sofar := NeededOf(checkpoint, records, p.key, |records|), NeededOf(checkpoint, records, p.key, n);
    NeededIn(checkpoint, records, p.key, |records|, records[n]);
    forall r | r in sofar
      ensures r in all
    {
      NeededIn(checkpoint, records, p.key, n, r);
      NeededIn(checkpoint, records, p.key, |records|, r);
    }
    var last :| last in all && last.generation == p.gens.hi;
    NotAfter(checkpoint, records, p, n, last);
    if records[n].generation == p.gens.hi {
      var first :| first in all && first.generation == p.gens.lo;
      NotBefore(checkpoint, records, p, n, first);
    }
  }

  /** The record at the end of the range has not been handled, so it is not before. */
  lemma {:induction false} NotAfter(checkpoint: Option<nat>, records: seq<Record>, p: Intent, n: nat, last: Record)
    requires PlanOrdered(records) && n < |records| && records[n].key == p.key
    requires last in NeededOf(checkpoint, records, p.key, |records|) && last.generation == p.gens.hi
    requires forall r | r in NeededOf(checkpoint, records, p.key, n) :: r.generation < p.gens.hi
    ensures records[n].generation <= p.gens.hi
  {
    NeededIn(checkpoint, records, p.key, |records|, last);
    var i :| 0 <= i < |records| && records[i] == last && last.key == p.key && !CoveredBy(checkpoint, last);
    NeededIn(checkpoint, records, p.key, n, last);
  }

  lemma {:induction false} NotBefore(checkpoint: Option<nat>, records: seq<Record>, p: Intent, n: nat, first: Record)
    requires PlanOrdered(records) && n < |records| && records[n].key == p.key
    requires first in NeededOf(checkpoint, records, p.key, |records|) && first.generation <= records[n].generation
    ensures first in NeededOf(checkpoint, records, p.key, n) + [records[n]]
  {
    NeededIn(checkpoint, records, p.key, |records|, first);
    var i :| 0 <= i < |records| && records[i] == first && first.key == p.key && !CoveredBy(checkpoint, first);
    NeededIn(checkpoint, records, p.key, n, first);
  }

  /** Admitting a record of the range to a waiting table. */
  lemma {:induction false} WaitingInsert(
      cfg: Config, t: Table, p: Intent, checkpoint: Option<nat>, needed: seq<Record>, r: Record, a: FlushAnswer)
    requires Waiting(t, p, checkpoint, needed) && t.buffer.Some? && Bytes(needed + [r]) <= cfg.maxBytes
    requires r.generation != 0 && r.generation != GENERATION_MAX
    ensures InsertOrFlush(cfg, t, r, a)
         == (t.(buffer := Some(Buffer(needed + [r], [], CheckpointValue(checkpoint), Idle))), true)
  {
    BytesConcat(needed, [r]);
    assert [r][..0] == [] && Bytes([]) == 0;
  }

  /** The last record of the range resolves the intent and leaves the table smooth. */
  lemma RangeResolves(t: Table, p: Intent, checkpoint: Option<nat>, pending: seq<Record>, r: Record, a: ResolveAnswer)
    requires t.unresolved == Some(p) && t.sidecar == Some(p) && pending != [] && r in pending
    requires t.buffer == Some(Buffer(pending, [], CheckpointValue(checkpoint), Idle)) && a == Proven(true)
    requires p.gens.hi > CheckpointValue(checkpoint) && r.generation == p.gens.hi
    requires (forall x | x in pending :: Contains(p.gens, x.generation)) && HasGeneration(pending, p.gens.lo)
    ensures ResolveIfReached(t, r, a).1
    ensures Smooth(ResolveIfReached(t, r, a).0, CheckpointValue(checkpoint), r.generation)
  {
    SplitOfAll(pending, p.gens);
    assert HasGeneration(pending, p.gens.hi);
    RangeIs(pending, p.gens);
  }

  /** A record above a covered intent resolves it and stays pending. */
  lemma CoveredResolves(t: Table, p: Intent, checkpoint: Option<nat>, r: Record, a: ResolveAnswer)
    requires t.unresolved == Some(p) && t.sidecar == Some(p) && a == Proven(true)
    requires t.buffer == Some(Buffer([r], [], CheckpointValue(checkpoint), Idle))
    requires p.gens.hi <= CheckpointValue(checkpoint) < r.generation
    ensures ResolveIfReached(t, r, a).1
    ensures Smooth(ResolveIfReached(t, r, a).0, CheckpointValue(checkpoint), r.generation)
  {
  }

  // What a table is like after its records so far: waiting for the end of its intent's
  // range, or without an intent.
  ghost predicate Going(t: Table, p: Option<Intent>, checkpoint: Option<nat>, needed: seq<Record>, bound: nat) {
    || Smooth(t, CheckpointValue(checkpoint), bound)
    || (p.Some? && Waiting(t, p.value, checkpoint, needed))
  }

  lemma {:induction false} RangeFits(
      checkpoint: Option<nat>, records: seq<Record>, p: Intent, n: nat, next: seq<Record>, maxBytes: nat)
    requires n < |records| && next == NeededOf(checkpoint, records, p.key, n + 1)
    requires Bytes(Split(NeededOf(checkpoint, records, p.key, |records|), p.gens, true)) <= maxBytes
    requires forall r | r in next :: Contains(p.gens, r.generation)
    ensures Bytes(next) <= maxBytes
  {
    RangeBytesGrow(checkpoint, records, p.key, p.gens, n + 1, |records|);
    SplitOfAll(next, p.gens);
  }

  lemma {:induction false} WaitingStep(
      cfg: Config, checkpoint: Option<nat>, p: Intent, t: Table, needed: seq<Record>, r: Record, a: Answers)
    requires Waiting(t, p, checkpoint, needed) && t.buffer.Some? && Bytes(needed + [r]) <= cfg.maxBytes
    requires r.generation != 0 && r.generation != GENERATION_MAX && a.resolve == Proven(true)
    requires CheckpointValue(checkpoint) < r.generation && Contains(p.gens, r.generation)
    requires forall x | x in needed :: Contains(p.gens, x.generation)
    requires r.generation == p.gens.hi ==> HasGeneration(needed + [r], p.gens.lo)
    ensures var (inserted, ok) := InsertOrFlush(cfg, t, r, a.flush);
            && ok
            && var (t', done) := ResolveIfReached(inserted, r, a.resolve);
               done && Going(t', Some(p), checkpoint, needed + [r], r.generation)
  {
    WaitingInsert(cfg, t, p, checkpoint, needed, r, a.flush);
    if r.generation == p.gens.hi {
      RangeResolves(t.(buffer := Some(Buffer(needed + [r], [], CheckpointValue(checkpoint), Idle))), p, checkpoint,
                    needed + [r], r, a.resolve);
    }
  }

  /** One more needed record of a table that waits. */
  lemma {:induction false} WaitingNext(
      cfg: Config, checkpoint: Option<nat>, records: seq<Record>, p: Intent, n: nat, t: Table, a: Answers)
    requires PlanOrdered(records) && n < |records| && records[n].key == p.key && !CoveredBy(checkpoint, records[n])
    requires Restorable(cfg, checkpoint, records, p) && p.gens.hi > CheckpointValue(checkpoint)
    requires CheckpointValue(checkpoint) < records[n].generation != GENERATION_MAX && a.resolve == Proven(true)
    requires Waiting(t, p, checkpoint, NeededOf(checkpoint, records, p.key, n)) && t.buffer.Some?
    ensures var (inserted, ok) := InsertOrFlush(cfg, t, records[n], a.flush);
            && ok
            && var (t', done) := ResolveIfReached(inserted, records[n], a.resolve);
               && done
               && Going(t', Some(p), checkpoint, NeededOf(checkpoint, records, p.key, n) + [records[n]],
                        records[n].generation)
  {
    NextIsInRange(cfg, checkpoint, records, p, n);
    RangeFits(checkpoint, records, p, n, NeededOf(checkpoint, records, p.key, n) + [records[n]], cfg.maxBytes);
    WaitingStep(cfg, checkpoint, p, t, NeededOf(checkpoint, records, p.key, n), records[n], a);
  }

  lemma SomeOutside(checkpoint: nat, hi: nat, needed: seq<Record>)
    requires hi <= checkpoint && needed != []
    ensures exists r | r in needed :: !(checkpoint < r.generation < hi)
  {
    assert needed[0] in needed;
  }

  lemma NothingNeeded(checkpoint: nat, hi: nat, needed: seq<Record>)
    requires hi <= checkpoint && forall r | r in needed :: checkpoint < r.generation < hi
    ensures needed == []
  {
    if needed != [] {
      SomeOutside(checkpoint, hi, needed);
    }
  }

  /** The first needed record of a table whose intent the checkpoint covers. */
  lemma CoveredNext(
      cfg: Config, checkpoint: Option<nat>, p: Intent, t: Table, needed: seq<Record>, r: Record, a: Answers)
    requires p.gens.hi <= CheckpointValue(checkpoint) < r.generation != GENERATION_MAX && r.bytes <= cfg.maxBytes
    requires Waiting(t, p, checkpoint, needed) && t.buffer.Some? && a.resolve == Proven(true)
    ensures var (inserted, ok) := InsertOrFlush(cfg, t, r, a.flush);
            && ok
            && var (t', done) := ResolveIfReached(inserted, r, a.resolve);
               done && Smooth(t', CheckpointValue(checkpoint), r.generation)
  {
    NothingNeeded(CheckpointValue(checkpoint), p.gens.hi, needed);
    assert [] + [r] == [r] && [r][..0] == [] && Bytes([]) == 0;
    WaitingInsert(cfg, t, p, checkpoint, [], r, a.flush);
    CoveredResolves(t.(buffer := Some(Buffer([r], [], CheckpointValue(checkpoint), Idle))), p, checkpoint, r,
                    a.resolve);
  }

  /** A record of a table with an intent never fails recovery. */
  lemma {:induction false} GoingHandle(
      cfg: Config, checkpoint: Option<nat>, records: seq<Record>, p: Option<Intent>, n: nat, t: Table,
      index: TableIndex, a: Answers, bound: nat)
    requires PlanOrdered(records) && n < |records| && cfg.hasFlusher && Proving(a)
    requires p.Some? ==> p.value.key == records[n].key && Restorable(cfg, checkpoint, records, p.value)
    requires bound < records[n].generation != GENERATION_MAX && records[n].idem.None?
    requires !CoveredBy(checkpoint, records[n]) ==> records[n].bytes <= cfg.maxBytes
    requires Going(t, p, checkpoint, NeededOf(checkpoint, records, records[n].key, n), bound)
    ensures var h := Handle(cfg, checkpoint, t, index, records[n], a);
            && h.outcome.Some?
            && Going(h.table, p, checkpoint, NeededOf(checkpoint, records, records[n].key, n + 1),
                     records[n].generation)
  {
    var r := records[n];
    var needed := NeededOf(checkpoint, records, r.key, n);
    assert needed + [] == needed;
    if Smooth(t, CheckpointValue(checkpoint), bound) {
      SmoothHandle(cfg, checkpoint, t, index, r, a, bound);
    } else if !CoveredBy(checkpoint, r) {
      var loaded := LoadBuffer(t, CheckpointValue(checkpoint), false);
      if p.value.gens.hi > CheckpointValue(checkpoint) {
        WaitingNext(cfg, checkpoint, records, p.value, n, loaded, a);
      } else {
        CoveredNext(cfg, checkpoint, p.value, loaded, needed, r, a);
      }
    }
  }

  // ----- Whole logs -----

  ghost predicate AllGoing(metadata: Metadata, records: seq<Record>, prepared: seq<Intent>, s: State) {
    && |s.outcomes| <= |records| && !s.failed
    && forall k | k in s.tables && k in metadata ::
         Going(s.tables[k], FindIntent(prepared, k), metadata[k], NeededOf(metadata[k], records, k, |s.outcomes|),
               LastGeneration(records, k, |s.outcomes|))
  }

  /** Every intent is of a surviving table and can be restored. */
  ghost predicate AllRestorable(cfg: Config, metadata: Metadata, records: seq<Record>, prepared: seq<Intent>) {
    forall p | p in prepared :: p.key in metadata && Restorable(cfg, metadata[p.key], records, p)
  }

  ghost predicate Keyless(records: seq<Record>) {
    forall i | 0 <= i < |records| :: records[i].idem.None?
  }

  lemma StartIsGoing(
      metadata: Metadata, records: seq<Record>, prepared: seq<Intent>, index: map<string, TableIndex>)
    ensures AllGoing(metadata, records, prepared, Start(metadata, prepared, index))
  {
  }

  lemma {:induction false} OwnGoingTurn(
      cfg: Config, metadata: Metadata, records: seq<Record>, prepared: seq<Intent>, s: State, a: Answers)
    requires PlanOrdered(records) && Usable(records) && Keyless(records) && cfg.hasFlusher && Proving(a)
    requires NeededFit(cfg, metadata, records) && AllRestorable(cfg, metadata, records, prepared)
    requires s.tables.Keys == metadata.Keys && |s.outcomes| < |records|
    requires AllGoing(metadata, records, prepared, s) && records[|s.outcomes|].key in metadata
    ensures var n, r := |s.outcomes|, records[|s.outcomes|];
            var h := Handle(cfg, metadata[r.key], s.tables[r.key], IndexIn(s.index, r.key.ident), r, a);
            && h.outcome.Some?
            && Going(h.table, FindIntent(prepared, r.key), metadata[r.key],
                     NeededOf(metadata[r.key], records, r.key, n + 1), r.generation)
  {
    var n, r := |s.outcomes|, records[|s.outcomes|];
    LastIsBelow(records, n, n);
    assert !CoveredBy(metadata[r.key], r) ==> Needed(metadata, r);
    GoingHandle(cfg, metadata[r.key], records, FindIntent(prepared, r.key), n, s.tables[r.key],
                IndexIn(s.index, r.key.ident), a, LastGeneration(records, r.key, n));
  }

  lemma {:induction false} TablesKeepGoing(
      metadata: Metadata, records: seq<Record>, prepared: seq<Intent>, s: State, s': State)
    requires |s.outcomes| < |records| && AllGoing(metadata, records, prepared, s)
    requires !s'.failed && |s'.outcomes| == |s.outcomes| + 1
    requires forall k | k in s'.tables && k in metadata && k != records[|s.outcomes|].key ::
               k in s.tables && s'.tables[k] == s.tables[k]
    requires var n, r := |s.outcomes|, records[|s.outcomes|];
             r.key in s'.tables && r.key in metadata ==>
             Going(s'.tables[r.key], FindIntent(prepared, r.key), metadata[r.key],
                   NeededOf(metadata[r.key], records, r.key, n + 1), r.generation)
    ensures AllGoing(metadata, records, prepared, s')
  {
    var n := |s.outcomes|;
    forall k | k in s'.tables && k in metadata
      ensures Going(s'.tables[k], FindIntent(prepared, k), metadata[k],
                    NeededOf(metadata[k], records, k, |s'.outcomes|), LastGeneration(records, k, |s'.outcomes|))
    {
      var needed := NeededOf(metadata[k], records, k, n);
      assert needed + [] == needed;
    }
  }

  lemma {:induction false} GoingTurn(
      cfg: Config, metadata: Metadata, records: seq<Record>, prepared: seq<Intent>, s: State, a: Answers)
    requires PlanOrdered(records) && Usable(records) && Keyless(records) && cfg.hasFlusher && Proving(a)
    requires NeededFit(cfg, metadata, records) && AllRestorable(cfg, metadata, records, prepared)
    requires s.tables.Keys == metadata.Keys && |s.outcomes| < |records| && AllGoing(metadata, records, prepared, s)
    ensures var s' := Turn(cfg, metadata, s, records[|s.outcomes|], a);
            !s'.failed && AllGoing(metadata, records, prepared, s')
  {
    var r := records[|s.outcomes|];
    if r.key in metadata {
      OwnGoingTurn(cfg, metadata, records, prepared, s, a);
    }
    TablesKeepGoing(metadata, records, prepared, s, Turn(cfg, metadata, s, r, a));
  }

  // ----- The sidecars left over -----

  /** After the whole log only a covered intent can still be open. */
  lemma {:induction false} OpenIsCovered(
      cfg: Config, checkpoint: Option<nat>, records: seq<Record>, p: Intent, t: Table)
    requires Restorable(cfg, checkpoint, records, p)
    requires Waiting(t, p, checkpoint, NeededOf(checkpoint, records, p.key, |records|))
    ensures p.gens.hi <= CheckpointValue(checkpoint) && NeededOf(checkpoint, records, p.key, |records|) == []
  {
    if p.gens.hi <= CheckpointValue(checkpoint) {
      NothingNeeded(CheckpointValue(checkpoint), p.gens.hi, NeededOf(checkpoint, records, p.key, |records|));
    }
  }

  lemma {:induction false} LeftoverResolves(
      cfg: Config, checkpoint: Option<nat>, records: seq<Record>, p: Intent, t: Table, a: Answers)
    requires Restorable(cfg, checkpoint, records, p) && a.resolve == Proven(true) && !a.landed && a.loads
    requires Waiting(t, p, checkpoint, NeededOf(checkpoint, records, p.key, |records|))
    ensures SettleLeftover(t, checkpoint, a).1
  {
    OpenIsCovered(cfg, checkpoint, records, p, t);
  }

  /** The table is without an intent, or waits for the end of this one. */
  ghost predicate Closable(t: Table, p: Intent, checkpoint: Option<nat>, records: seq<Record>) {
    t.unresolved.None? || Waiting(t, p, checkpoint, NeededOf(checkpoint, records, p.key, |records|))
  }

  lemma NextGoesThrough(
      cfg: Config, metadata: Metadata, records: seq<Record>, tables: map<TableKey, Table>, p: Intent, a: Answers)
    requires tables.Keys == metadata.Keys && p.key in metadata && Restorable(cfg, metadata[p.key], records, p)
    requires Proving(a) && Closable(tables[p.key], p, metadata[p.key], records)
    ensures var r := NextLeftover(metadata, tables, p, a);
            r.ok && forall k | k in tables && k != p.key :: k in r.tables && r.tables[k] == tables[k]
  {
    if tables[p.key].unresolved.Some? {
      LeftoverResolves(cfg, metadata[p.key], records, p, tables[p.key], a);
    }
  }

  lemma {:induction false} LeftoversGoThrough(
      cfg: Config, metadata: Metadata, records: seq<Record>, tables: map<TableKey, Table>, prepared: seq<Intent>,
      later: nat -> Answers, n: nat)
    requires SidecarsValid(prepared) && AllRestorable(cfg, metadata, records, prepared) && n <= |prepared|
    requires tables.Keys == metadata.Keys && forall j | 0 <= j < |prepared| :: Proving(later(j))
    requires forall j | 0 <= j < |prepared| ::
               prepared[j].key in metadata
               && Closable(tables[prepared[j].key], prepared[j], metadata[prepared[j].key], records)
    ensures var r := SettleLeftovers(metadata, tables, prepared, later, n);
            r.ok && forall j | n <= j < |prepared| :: r.tables[prepared[j].key] == tables[prepared[j].key]
  {
    if n > 0 {
      LeftoversGoThrough(cfg, metadata, records, tables, prepared, later, n - 1);
      var before, p := SettleLeftovers(metadata, tables, prepared, later, n - 1).tables, prepared[n - 1];
      assert p in prepared;
      LastLeftover(metadata, tables, prepared, later, n);
      NextGoesThrough(cfg, metadata, records, before, p, later(n - 1));
    }
  }

  lemma {:induction false} GoingIsClosable(
      metadata: Metadata, records: seq<Record>, prepared: seq<Intent>, s: State, j: nat)
    requires SidecarsValid(prepared) && j < |prepared| && prepared[j].key in metadata
    requires s.tables.Keys == metadata.Keys && |s.outcomes| == |records| && AllGoing(metadata, records, prepared, s)
    ensures Closable(s.tables[prepared[j].key], prepared[j], metadata[prepared[j].key], records)
  {
    var found := FindIntent(prepared, prepared[j].key);
    assert prepared[j] in prepared;
    var i :| 0 <= i < |prepared| && prepared[i] == found.value;
    assert i == j;
  }

  /** A log with sidecars is recovered if every intent is of a surviving table and can be
      restored, every record that is needed fits into the buffer alone, the catalog proves
      the intents and every flush publishes - however large the log is. */
  lemma {:induction false} LogWithIntentsRecovers(
      cfg: Config, metadata: Metadata, records: seq<Record>, prepared: seq<Intent>, index: map<string, TableIndex>,
      env: nat -> Answers, later: nat -> Answers)
    requires PlanOrdered(records) && Usable(records) && Keyless(records) && SidecarsValid(prepared) && cfg.hasFlusher
    requires NeededFit(cfg, metadata, records) && AllRestorable(cfg, metadata, records, prepared)
    requires forall i | 0 <= i < |records| :: Proving(env(i))
    requires forall j | 0 <= j < |prepared| :: Proving(later(j))
    ensures Recover(cfg, metadata, records, prepared, index, env, later).1.Some?
  {
    var start := Start(metadata, prepared, index);
    var inv := (s: State) => AllGoing(metadata, records, prepared, s);
    StartIsGoing(metadata, records, prepared, index);
    forall i, s: State | 0 <= i < |records| && s.tables.Keys == metadata.Keys && |s.outcomes| == i && inv(s)
      ensures var s' := Turn(cfg, metadata, s, records[i], env(i));
              if s'.failed then false else inv(s')
    {
      GoingTurn(cfg, metadata, records, prepared, s, env(i));
    }
    TurnsKeep(cfg, metadata, records, env, start, |records|, inv, _ => false);
    var s := Turns(cfg, metadata, records, env, start, |records|);
    forall j | 0 <= j < |prepared|
      ensures prepared[j].key in metadata
              && Closable(s.tables[prepared[j].key], prepared[j], metadata[prepared[j].key], records)
    {
      assert prepared[j] in prepared;
      GoingIsClosable(metadata, records, prepared, s, j);
    }
    LeftoversGoThrough(cfg, metadata, records, s.tables, prepared, later, |prepared|);
  }
}
