/**
A flush that does not commit (`flush_once_inner` in crates/teodb-ingest/src/flush/mod.rs
and `commit_flush` in crates/teodb-ingest/src/flush/commit.rs): nothing is lost, and a new
commit ID can be given to the rows only when no sidecar claims them.
*/
module FlushOutcomes {
  import opened Wrappers
  import opened WriteProtocol
  import opened TableRecovery

  /** The intent a flush of an idle table prepares. */
  function IntentOf(t: Table, key: TableKey, a: FlushAnswer): Intent
    requires t.buffer.Some? && t.buffer.value.pending != []
  {
    Intent(key, RangeOf(t.buffer.value.pending), if a.Commits? then a.commit else NIL)
  }

  /** An idle table with rows to flush, as recovery finds it. */
  ghost predicate Flushable(t: Table) {
    t.buffer.Some? && Settled(t) && t.buffer.value.flush.Idle? && t.buffer.value.pending != []
  }

  /** The data files are written and no other intent holds the sidecar. */
  ghost predicate ReachesCatalog(t: Table, key: TableKey, a: FlushAnswer)
    requires Flushable(t)
  {
    a.Commits? && (t.sidecar.None? || t.sidecar.value == IntentOf(t, key, a))
  }

  /** Whatever goes wrong, a flush that does not commit keeps every record in the buffer
      and adds no append. */
  lemma FailedFlushLosesNothing(t: Table, key: TableKey, a: FlushAnswer)
    requires Flushable(t) && Flush(t, key, a).1 != Committed
    ensures var t' := Flush(t, key, a).0;
            && t'.buffer.Some? && multiset(Buffered(t')) == multiset(Buffered(t))
            && t'.published == t.published && t'.hidden == t.hidden && t'.unresolved == t.unresolved
            && t'.buffer.value.highWater == t.buffer.value.highWater
  {
  }

  /** The rows are pending again if and only if the files could not be written or the
      catalog rejected the append for good, and then no sidecar of this flush is left. */
  lemma RowsReturnIff(t: Table, key: TableKey, a: FlushAnswer)
    requires Flushable(t) && Flush(t, key, a).1 != Committed
    ensures var t', b := Flush(t, key, a).0, t.buffer.value;
            && (t'.buffer.value.flush.Idle? <==>
                a.WriteFails? || (ReachesCatalog(t, key, a) && a.answer == Returns))
            && (t'.buffer.value.flush.Idle? ==>
                  && t'.buffer.value.pending == b.pending && t'.buffer.value.inFlight == []
                  && t'.sidecar == if a.WriteFails? then t.sidecar else None)
  {
    assert t.buffer.value.pending + [] == t.buffer.value.pending;
  }

  /** The table is blocked if and only if the catalog said so or would not take the
      range; the rows and the sidecar then belong to the intent. */
  lemma BlockedIff(t: Table, key: TableKey, a: FlushAnswer)
    requires Flushable(t) && Flush(t, key, a).1 != Committed
    ensures var t', b := Flush(t, key, a).0, t.buffer.value;
            && (t'.buffer.value.flush.Blocked? <==>
                ReachesCatalog(t, key, a)
                && (a.answer == Blocks || (a.answer.Publishes? && RangeOf(b.pending).lo <= b.highWater)))
            && (!t'.buffer.value.flush.Idle? ==>
                  && t'.buffer.value.flush.intent == IntentOf(t, key, a)
                  && t'.buffer.value.inFlight == b.pending && t'.buffer.value.pending == []
                  && t'.sidecar == if ReachesCatalog(t, key, a) then Some(IntentOf(t, key, a)) else t.sidecar)
  {
  }

  /** Every flush of rows is on record: what it drained, beside which intent, and whether
      it got as far as the catalog. */
  lemma FlushIsRecorded(t: Table, key: TableKey, a: FlushAnswer)
    requires Flushable(t)
    ensures Flush(t, key, a).0.flushes
         == t.flushes + [FlushAttempt(t.buffer.value.pending, t.unresolved, ReachesCatalog(t, key, a))]
  {
  }
}
